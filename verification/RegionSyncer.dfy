/** server/region_syncer: the leader records region changes and sends them on; followers ask for the history they
    lack and keep what they receive. Batches may be lost, repeated or reordered. What a follower has buffered is
    always a piece of the leader's log. */
module RegionSyncer {
  import opened SortedSeq
  import opened HistoryBuffer
  import opened Regions

  /** A `SyncRegionResponse`: the index of its first region and the regions. */
  datatype Message<T> = Message(start: nat, regions: seq<T>)

  // ---------- the steps of one server ----------

  function RecordAll<T>(b: Buffer<T>, rs: seq<T>): Buffer<T>
    decreases |rs|
  {
    if rs == [] then b else Recorded(RecordAll(b, rs[..|rs| - 1]), rs[|rs| - 1])
  }

  /** What a follower makes of a message (client.go:117-131). */
  function Received<T>(b: Buffer<T>, m: Message<T>): Buffer<T> {
    RecordAll(if b.index != m.start then ResetTo(b, m.start) else b, m.regions)
  }

  /** Of the first `n` regions, those that could be saved; `saves` says which. */
  function Saved<T>(rs: seq<T>, saves: seq<bool>, n: nat): seq<T>
    requires n <= |rs| == |saves|
  {
    if n == 0 then [] else Saved(rs, saves, n - 1) + if saves[n-1] then [rs[n-1]] else []
  }

  /** Only the regions that could be saved are recorded. */
  function ReceivedSaving<T>(b: Buffer<T>, m: Message<T>, saves: seq<bool>): Buffer<T>
    requires |saves| == |m.regions|
  {
    Received(b, Message(m.start, Saved(m.regions, saves, |saves|)))
  }

  /** The reply to a request for history (server.go:160-215), unless it is a full synchronisation. */
  function HistoryReply<T>(b: Buffer<T>, start: nat): Option<Message<T>> {
    if From(b, start) == [] then None else Some(Message(start, From(b, start)))
  }

  method RecordEach<T(0)>(h: HistoryBuffer<T>, rs: seq<T>)
    requires h.Valid()
    modifies h, h.records
    ensures h.Valid() && h.records == old(h.records)
    ensures h.Abstract() == RecordAll(old(h.Abstract()), rs)
  {
    hide HistoryBuffer.Valid, HistoryBuffer.Abstract, Recorded;
    assert rs[..0] == [];
    for i := 0 to |rs|
      invariant h.Valid() && h.records == old(h.records)
      invariant h.Abstract() == RecordAll(old(h.Abstract()), rs[..i])
    {
      h.Record(rs[i]);
      assert rs[..i+1][..i] == rs[..i];
    }
    assert rs[..|rs|] == rs;
  }

  /** One round of the follower's receive loop. */
  method Receive<T(0)>(h: HistoryBuffer<T>, m: Message<T>, saves: seq<bool>)
    requires h.Valid() && |saves| == |m.regions|
    modifies h, h.records
    ensures h.Valid() && h.records == old(h.records)
    ensures h.Abstract() == ReceivedSaving(old(h.Abstract()), m, saves)
  {
    hide HistoryBuffer.Valid, HistoryBuffer.Abstract, Recorded;
    var rs := m.regions;
    Start(h, m.start);
    ghost var b := h.Abstract();
    for i := 0 to |rs|
      invariant h.Valid() && h.records == old(h.records)
      invariant h.Abstract() == RecordAll(b, Saved(rs, saves, i))
    {
      if saves[i] {
        RecordAllStep(b, Saved(rs, saves, i), rs[i]);
        h.Record(rs[i]);
      } else {
        assert Saved(rs, saves, i) + [] == Saved(rs, saves, i);
      }
    }
  }

  method Start<T(0)>(h: HistoryBuffer<T>, start: nat)
    requires h.Valid()
    modifies h
    ensures h.Valid() && h.records == old(h.records)
    ensures h.Abstract() == if old(h.Abstract()).index != start then ResetTo(old(h.Abstract()), start) else old(h.Abstract())
  {
    if h.index != start { h.ResetWithIndex(start); }
  }

  lemma RecordAllStep<T>(b: Buffer<T>, rs: seq<T>, r: T)
    ensures RecordAll(b, rs + [r]) == Recorded(RecordAll(b, rs), r)
  {
    hide Recorded;
    assert (rs + [r])[..|rs|] == rs;
  }

  /** The leader records a batch and makes the message it broadcasts (server.go:106-121). */
  method RecordBatch<T(0)>(h: HistoryBuffer<T>, batch: seq<T>) returns (m: Message<T>)
    requires h.Valid()
    modifies h, h.records
    ensures h.Valid() && h.records == old(h.records)
    ensures m == Message(old(h.Abstract()).index, batch) && h.Abstract() == RecordAll(old(h.Abstract()), batch)
  {
    var start := h.index;
    RecordEach(h, batch);
    m := Message(start, batch);
  }

  /** The reply holds all the leader has from the index on; there is none for an index the leader does not hold. */
  ghost predicate WholeHistory<T>(b: Buffer<T>, start: nat, m: Option<Message<T>>) {
    if First(b) <= start < b.index then
      && m.Some? && m.value.start == start && start + |m.value.regions| == b.index
      && forall i :: 0 <= i < |m.value.regions| ==> m.value.regions[i] == b.records[start - First(b) + i]
    else m.None?
  }

  lemma HistoryIsWhole<T>(b: Buffer<T>, start: nat)
    ensures WholeHistory(b, start, HistoryReply(b, start))
  {
  }

  /** The leader answers a request for history. */
  method Reply<T(0)>(h: HistoryBuffer<T>, start: nat) returns (m: Option<Message<T>>)
    requires h.Valid()
    ensures m == HistoryReply(h.Abstract(), start) && WholeHistory(h.Abstract(), start, m)
  {
    HistoryIsWhole(h.Abstract(), start);
    var records := h.RecordsFrom(start);
    m := if |records| == 0 then None else Some(Message(start, records));
  }

  // ---------- pieces of the log ----------

  /** The leader's log in this term: the record with index `base + i` is `records[i]`. */
  datatype Log<T> = Log(base: nat, records: seq<T>)

  function End<T>(log: Log<T>): nat {
    log.base + |log.records|
  }

  /** `rs` are the records of the log from `start` on. */
  ghost predicate Piece<T>(log: Log<T>, start: int, rs: seq<T>) {
    log.base <= start && start + |rs| <= End(log) && rs == log.records[start - log.base..start - log.base + |rs|]
  }

  /** A buffer with records holds a piece of the log, up to its index. */
  ghost predicate Agrees<T>(log: Log<T>, b: Buffer<T>) {
    |b.records| <= b.cap && (b.records != [] ==> Piece(log, First(b), b.records))
  }

  lemma PieceGrows<T>(log: Log<T>, start: int, rs: seq<T>, more: seq<T>)
    requires Piece(log, start, rs)
    ensures Piece(Log(log.base, log.records + more), start, rs)
  {
  }

  lemma PieceSuffix<T>(log: Log<T>, start: int, rs: seq<T>, k: nat)
    requires Piece(log, start, rs) && k <= |rs|
    ensures Piece(log, start + k, rs[k..])
  {
  }

  lemma PieceNext<T>(log: Log<T>, start: int, rs: seq<T>, r: T)
    requires Piece(log, start, rs) && start + |rs| < End(log) && log.records[start + |rs| - log.base] == r
    ensures Piece(log, start, rs + [r])
  {
  }

  /** Recording the next record of the log keeps a piece a piece. */
  lemma RecordAgrees<T>(log: Log<T>, b: Buffer<T>, r: T)
    requires Agrees(log, b) && log.base <= b.index < End(log) && log.records[b.index - log.base] == r
    ensures Agrees(log, Recorded(b, r))
  {
    hide Piece;
    var s := b.records + [r];
    if b.records == [] {
      PieceEmpty(log, b.index);
      assert [] + [r] == s;
    }
    PieceNext(log, First(b), b.records, r);
    if |s| > b.cap { PieceSuffix(log, First(b), s, |s| - b.cap); }
  }

  lemma PieceEmpty<T>(log: Log<T>, i: int)
    requires log.base <= i <= End(log)
    ensures Piece(log, i, [])
  {
  }

  lemma {:induction false} RecordAllAgrees<T>(log: Log<T>, b: Buffer<T>, rs: seq<T>)
    requires Agrees(log, b) && Piece(log, b.index, rs)
    ensures Agrees(log, RecordAll(b, rs)) && RecordAll(b, rs).index == b.index + |rs| && RecordAll(b, rs).cap == b.cap
    decreases |rs|
  {
    hide Agrees;
    if rs != [] {
      var n := |rs| - 1;
      assert Piece(log, b.index, rs[..n]);
      RecordAllAgrees(log, b, rs[..n]);
      RecordAgrees(log, RecordAll(b, rs[..n]), rs[n]);
    }
  }

  /** Whatever a follower had, receiving a piece of the log leaves it with one. */
  lemma ReceiveAgrees<T>(log: Log<T>, b: Buffer<T>, m: Message<T>)
    requires Agrees(log, b) && Piece(log, m.start, m.regions)
    ensures Agrees(log, Received(b, m)) && Received(b, m).index == m.start + |m.regions| && Received(b, m).cap == b.cap
  {
    hide Piece;
    RecordAllAgrees(log, if b.index != m.start then ResetTo(b, m.start) else b, m.regions);
  }

  // ---------- failed saves ----------

  /** Nothing is recorded behind a region that could not be saved. */
  ghost predicate NoGap(saves: seq<bool>) {
    forall i, j :: 0 <= i < j < |saves| && saves[j] ==> saves[i]
  }

  function Count(saves: seq<bool>, n: nat): (c: nat)
    requires n <= |saves|
    ensures c <= n
  {
    if n == 0 then 0 else Count(saves, n - 1) + if saves[n-1] then 1 else 0
  }

  lemma {:induction false} SavedPrefix<T>(rs: seq<T>, saves: seq<bool>, n: nat)
    requires n <= |saves| == |rs| && NoGap(saves)
    ensures Saved(rs, saves, n) == rs[..Count(saves, n)]
    ensures n > 0 && saves[n-1] ==> Count(saves, n) == n
    ensures (forall i :: 0 <= i < n ==> saves[i]) ==> Count(saves, n) == n
    decreases n
  {
    if n > 0 {
      SavedPrefix(rs, saves, n - 1);
      var c := Count(saves, n - 1);
      if saves[n-1] {
        assert n > 1 ==> saves[n-2];
        assert rs[..c] + [rs[c]] == rs[..c+1];
      } else {
        assert rs[..c] + [] == rs[..c];
      }
    }
  }

  /** The follower keeps a piece of the log, whatever the log, with these saves. */
  ghost predicate KeepsPieces(saves: seq<bool>) {
    forall log: Log<nat>, b: Buffer<nat>, m: Message<nat> :: Agrees(log, b) && Piece(log, m.start, m.regions) && |saves| == |m.regions| ==>
      Agrees(log, ReceivedSaving(b, m, saves))
  }

  lemma ReceiveSavingAgrees<T>(log: Log<T>, b: Buffer<T>, m: Message<T>, saves: seq<bool>)
    requires Agrees(log, b) && Piece(log, m.start, m.regions) && |saves| == |m.regions| && NoGap(saves)
    ensures Agrees(log, ReceivedSaving(b, m, saves)) && ReceivedSaving(b, m, saves).cap == b.cap
    ensures (forall i :: 0 <= i < |saves| ==> saves[i]) ==> ReceivedSaving(b, m, saves).index == m.start + |m.regions|
  {
    hide Agrees, Received;
    SavedPrefix(m.regions, saves, |saves|);
    var k := Count(saves, |saves|);
    assert Piece(log, m.start, m.regions[..k]);
    ReceiveAgrees(log, b, Message(m.start, m.regions[..k]));
  }

  /** That is so exactly if in a message nothing is saved behind a failed save. */
  lemma SavesIff(saves: seq<bool>)
    ensures KeepsPieces(saves) <==> NoGap(saves)
  {
    hide Agrees, ReceivedSaving, Piece;
    if NoGap(saves) {
      forall log: Log<nat>, b: Buffer<nat>, m: Message<nat> | Agrees(log, b) && Piece(log, m.start, m.regions) && |saves| == |m.regions|
        ensures Agrees(log, ReceivedSaving(b, m, saves))
      {
        ReceiveSavingAgrees(log, b, m, saves);
      }
    } else {
      GapBreaks(saves);
    }
  }

  /** The log 0, 1, 2, and so on. */
  function Numbers(n: nat): (s: seq<nat>)
    ensures |s| == n && forall i :: 0 <= i < n ==> s[i] == i
  {
    seq(n, i requires 0 <= i < n => i)
  }

  lemma {:induction false} RecordAllPlain<T>(b: Buffer<T>, rs: seq<T>)
    requires |b.records| + |rs| <= b.cap
    ensures RecordAll(b, rs) == Buffer(b.index + |rs|, b.records + rs, b.cap)
    decreases |rs|
  {
    if rs == [] {
      assert b.records + rs == b.records;
    } else {
      var n := |rs| - 1;
      RecordAllPlain(b, rs[..n]);
      assert b.records + rs[..n] + [rs[n]] == b.records + rs;
    }
  }

  lemma {:induction false} SavedLength<T>(rs: seq<T>, saves: seq<bool>, n: nat)
    requires n <= |saves| == |rs|
    ensures |Saved(rs, saves, n)| == Count(saves, n)
  {
    if n > 0 { SavedLength(rs, saves, n - 1); }
  }

  /** A saved region is in the place its count gives. */
  lemma {:induction false} SavedAt<T>(rs: seq<T>, saves: seq<bool>, n: nat, j: nat)
    requires j < n <= |saves| == |rs| && saves[j]
    ensures Count(saves, j) < |Saved(rs, saves, n)| && Saved(rs, saves, n)[Count(saves, j)] == rs[j]
    decreases n
  {
    SavedLength(rs, saves, n - 1);
    if j < n - 1 { SavedAt(rs, saves, n - 1, j); }
  }

  lemma {:induction false} CountGap(saves: seq<bool>, i: nat, j: nat)
    requires i < j <= |saves| && !saves[i]
    ensures Count(saves, j) < j
    decreases j
  {
    if i < j - 1 { CountGap(saves, i, j - 1); }
  }

  /** Behind a gap a number is ahead of its place. */
  lemma GapBreaks(saves: seq<bool>)
    requires !NoGap(saves)
    ensures !KeepsPieces(saves)
  {
    hide Saved, Received;
    var n := |saves|;
    var i, j :| 0 <= i < j < n && saves[j] && !saves[i];
    var log: Log<nat>, b: Buffer<nat>, m: Message<nat> := Log(0, Numbers(n)), Buffer(0, [], n), Message(0, Numbers(n));
    var s := Saved(Numbers(n), saves, n);
    SavedLength(Numbers(n), saves, n);
    SavedAt(Numbers(n), saves, n, j);
    CountGap(saves, i, j);
    ReceivedPlain(b, s);
    NotPiece(log, s, Count(saves, j));
    assert m.regions == log.records[0..n];
    assert Piece(log, m.start, m.regions) && Agrees(log, b);
    assert !Agrees(log, ReceivedSaving(b, m, saves));
  }

  lemma ReceivedPlain<T>(b: Buffer<T>, s: seq<T>)
    requires b.index == 0 && b.records == [] && |s| <= b.cap
    ensures Received(b, Message(0, s)) == Buffer(|s|, s, b.cap)
  {
    RecordAllPlain(b, s);
    assert [] + s == s;
  }

  lemma NotPiece(log: Log<nat>, s: seq<nat>, k: nat)
    requires log.base == 0 && k < |s| <= |log.records| && s[k] != log.records[k]
    ensures !Piece(log, 0, s)
  {
    assert log.records[0..|s|][k] == log.records[k];
  }

  // ---------- a term ----------

  type Name = nat

  /** `leader` is the leader's history, `pending` what it has recorded and not broadcast yet, `bound` the followers
      with a stream, `sent` all messages ever sent to a follower, any of which may arrive at any time. */
  datatype State = State(log: Log<Region>, leader: Buffer<Region>, pending: seq<Region>, followers: map<Name, Buffer<Region>>,
                         requests: set<(Name, nat)>, bound: set<Name>, sent: set<(Name, Message<Region>)>)

  datatype Action =
    | Record(r: Region)                         // the leader records one region of a batch
    | Broadcast(lost: set<Name>)                // it broadcasts the batch; some sends fail
    | KeepAlive(lost: set<Name>)                // it broadcasts its index only
    | Request(f: Name)                          // a follower asks for the history from its index on
    | SendHistory(f: Name, start: nat)          // the leader reads its history and replies
    | Bind(f: Name)                             // and binds the stream, perhaps much later
    | Unbind(f: Name)                           // a stream is dropped after a failed send
    | Deliver(f: Name, m: Message<Region>, saves: seq<bool>)   // a message arrives

  /** The request would be answered by a full synchronisation (server.go:171). */
  predicate FullSync(b: Buffer<Region>, start: nat) {
    From(b, start) == [] && b.index != start && start == 0
  }

  ghost predicate Enabled(st: State, act: Action) {
    match act
    case Record(_) => true
    case Broadcast(_) => st.pending != []
    case KeepAlive(_) => st.pending == []
    case Request(f) => f in st.followers
    case SendHistory(f, start) => (f, start) in st.requests && !FullSync(st.leader, start)
    case Bind(f) => f in st.followers
    case Unbind(f) => true
    case Deliver(f, m, saves) => f in st.followers && (f, m) in st.sent && |saves| == |m.regions| && NoGap(saves)
  }

  /** The message to all streams but those where the send fails. */
  ghost function SentTo(st: State, m: Message<Region>, lost: set<Name>): set<(Name, Message<Region>)> {
    st.sent + (set f | f in st.bound - lost :: (f, m))
  }

  /** The batch that is broadcast: what was recorded last. */
  ghost function Batch(st: State): Message<Region> {
    Message(if st.leader.index >= |st.pending| then st.leader.index - |st.pending| else 0, st.pending)
  }

  ghost function Step(st: State, act: Action): State
    requires Enabled(st, act)
  {
    match act
    case Record(r) =>
      st.(log := Log(st.log.base, st.log.records + [r]), leader := Recorded(st.leader, r), pending := st.pending + [r])
    case Broadcast(lost) => st.(sent := SentTo(st, Batch(st), lost), pending := [])
    case KeepAlive(lost) => st.(sent := SentTo(st, Message(st.leader.index, []), lost))
    case Request(f) => st.(requests := st.requests + {(f, st.followers[f].index)})
    case SendHistory(f, start) =>
      var m := HistoryReply(st.leader, start);
      if m.None? then st else st.(sent := st.sent + {(f, m.value)})
    case Bind(f) => st.(bound := st.bound + {f})
    case Unbind(f) => st.(bound := st.bound - {f})
    case Deliver(f, m, saves) => st.(followers := st.followers[f := ReceivedSaving(st.followers[f], m, saves)])
  }

  // ---------- the invariant ----------

  /** The leader's history is a piece of the log up to its end, and so is the batch not yet broadcast. */
  ghost predicate LeaderOk(st: State) {
    Agrees(st.log, st.leader) && st.leader.index == End(st.log) && Piece(st.log, End(st.log) - |st.pending|, st.pending)
  }

  ghost predicate SentOk(st: State, f: Name, m: Message<Region>) {
    (f, m) in st.sent ==> Piece(st.log, m.start, m.regions)
  }

  ghost predicate FollowerOk(st: State, f: Name) {
    f in st.followers ==> Agrees(st.log, st.followers[f])
  }

  ghost predicate Inv(st: State) {
    && LeaderOk(st)
    && (forall f, m :: SentOk(st, f, m))
    && (forall f :: FollowerOk(st, f))
  }

  lemma HistoryIsPiece(log: Log<Region>, b: Buffer<Region>, start: nat)
    requires Agrees(log, b) && HistoryReply(b, start).Some?
    ensures Piece(log, start, HistoryReply(b, start).value.regions) && HistoryReply(b, start).value.start == start
  {
    hide Piece;
    PieceSuffix(log, First(b), b.records, start - First(b));
  }

  lemma AgreesGrows(log: Log<Region>, b: Buffer<Region>, r: Region)
    requires Agrees(log, b)
    ensures Agrees(Log(log.base, log.records + [r]), b)
  {
    hide Piece;
    if b.records != [] { PieceGrows(log, First(b), b.records, [r]); }
  }

  lemma StepLeader(st: State, act: Action)
    requires Inv(st) && Enabled(st, act)
    ensures LeaderOk(Step(st, act))
  {
    hide Agrees, Piece, ReceivedSaving;
    if act.Record? {
      var log := Log(st.log.base, st.log.records + [act.r]);
      AgreesGrows(st.log, st.leader, act.r);
      RecordAgrees(log, st.leader, act.r);
      PieceGrows(st.log, End(st.log) - |st.pending|, st.pending, [act.r]);
      PieceNext(log, End(st.log) - |st.pending|, st.pending, act.r);
    } else if act.Broadcast? {
      PieceEmpty(st.log, End(st.log));
    }
  }

  lemma StepSent(st: State, act: Action, f: Name, m: Message<Region>)
    requires Inv(st) && Enabled(st, act)
    ensures SentOk(Step(st, act), f, m)
  {
    hide Agrees, Piece, ReceivedSaving;
    assert SentOk(st, f, m);
    match act
    case Record(r) =>
      if (f, m) in st.sent { PieceGrows(st.log, m.start, m.regions, [r]); }
    case Broadcast(_) => BatchIs(st);
    case KeepAlive(_) => PieceEmpty(st.log, st.leader.index);
    case SendHistory(g, start) =>
      if HistoryReply(st.leader, start).Some? { HistoryIsPiece(st.log, st.leader, start); }
    case _ =>
  }

  lemma BatchIs(st: State)
    requires LeaderOk(st)
    ensures Piece(st.log, Batch(st).start, Batch(st).regions)
  {
  }

  lemma StepFollower(st: State, act: Action, f: Name)
    requires Inv(st) && Enabled(st, act)
    ensures FollowerOk(Step(st, act), f)
  {
    hide Agrees, Piece, ReceivedSaving;
    assert FollowerOk(st, f);
    if act.Record? && f in st.followers { AgreesGrows(st.log, st.followers[f], act.r); }
    if act.Deliver? && act.f == f {
      assert SentOk(st, f, act.m);
      ReceiveSavingAgrees(st.log, st.followers[f], act.m, act.saves);
    }
  }

  lemma StepInv(st: State, act: Action)
    requires Inv(st) && Enabled(st, act)
    ensures Inv(Step(st, act))
  {
    hide Step;
    StepLeader(st, act);
    forall f, m ensures SentOk(Step(st, act), f, m) { StepSent(st, act, f, m); }
    forall f ensures FollowerOk(Step(st, act), f) { StepFollower(st, act, f); }
  }

  // ---------- runs ----------

  ghost predicate Possible(st: State, acts: seq<Action>)
    decreases |acts|
  {
    acts == [] || (Enabled(st, acts[0]) && Possible(Step(st, acts[0]), acts[1..]))
  }

  ghost function After(st: State, acts: seq<Action>): State
    requires Possible(st, acts)
    decreases |acts|
  {
    if acts == [] then st else After(Step(st, acts[0]), acts[1..])
  }

  /** A term begins with nothing under way. The leader's buffer and those of the followers may hold records of
      earlier terms, as far as they agree with the log the leader goes on from. */
  ghost predicate Begins(st: State) {
    && Agrees(st.log, st.leader) && st.leader.index == End(st.log)
    && st.pending == [] && st.sent == {} && st.requests == {} && st.bound == {}
    && forall f :: f in st.followers ==> Agrees(st.log, st.followers[f])
  }

  lemma BeginsInv(st: State)
    requires Begins(st)
    ensures Inv(st)
  {
  }

  lemma {:induction false} RunInv(st: State, acts: seq<Action>)
    requires Inv(st) && Possible(st, acts)
    ensures Inv(After(st, acts))
    decreases |acts|
  {
    hide Step, Enabled, Inv;
    if acts != [] {
      StepInv(st, acts[0]);
      RunInv(Step(st, acts[0]), acts[1..]);
    }
  }

  /** Over every run of a term, the records a follower has buffered are the leader's, index by index. */
  lemma RunAgrees(st: State, acts: seq<Action>, f: Name, i: nat)
    requires Begins(st) && Possible(st, acts)
    requires f in After(st, acts).followers
    requires i < |After(st, acts).followers[f].records|
    ensures var end := After(st, acts);
      var index := First(end.followers[f]) + i;
      && end.log.base <= index < End(end.log) && end.leader.index == End(end.log)
      && end.followers[f].records[i] == end.log.records[index - end.log.base]
  {
    hide Step, Enabled, After, Possible;
    BeginsInv(st);
    RunInv(st, acts);
    assert FollowerOk(After(st, acts), f);
  }

  /** A follower whose buffer does not agree, say from another term, does so from the first message on that does not
      start at its index. */
  lemma ResetHeals(st: State, f: Name, m: Message<Region>, saves: seq<bool>)
    requires LeaderOk(st) && SentOk(st, f, m) && Enabled(st, Deliver(f, m, saves)) && m.start != st.followers[f].index
    ensures Agrees(st.log, Step(st, Deliver(f, m, saves)).followers[f])
  {
    hide Piece, RecordAll, Saved;
    var b := st.followers[f];
    ReceiveSavingAgrees(st.log, ResetTo(b, m.start), m, saves);
  }

  /** A follower that receives the leader's keep-alive, or its last batch, and can save it, is at the leader's index. */
  lemma InStepAfter(st: State, f: Name, m: Message<Region>, saves: seq<bool>)
    requires Inv(st) && Enabled(st, Deliver(f, m, saves)) && m.start + |m.regions| == st.leader.index
    requires forall i :: 0 <= i < |saves| ==> saves[i]
    ensures Step(st, Deliver(f, m, saves)).followers[f].index == st.leader.index
  {
    hide Agrees, Piece, ReceivedSaving;
    assert SentOk(st, f, m) && FollowerOk(st, f);
    ReceiveSavingAgrees(st.log, st.followers[f], m, saves);
  }

  // ---------- catching up ----------

  /** The leader records nothing. */
  ghost predicate Quiet(acts: seq<Action>) {
    forall i :: 0 <= i < |acts| ==> !acts[i].Record?
  }

  ghost predicate AllTrue(saves: seq<bool>) {
    forall i :: 0 <= i < |saves| ==> saves[i]
  }

  /** While nothing is recorded, what was sent can still arrive and the leader stays where it is. */
  lemma {:induction false} QuietKeeps(st: State, acts: seq<Action>, f: Name, m: Message<Region>)
    requires Possible(st, acts) && Quiet(acts) && f in st.followers && (f, m) in st.sent
    ensures var end := After(st, acts); end.leader == st.leader && f in end.followers && (f, m) in end.sent
    decreases |acts|
  {
    if acts != [] {
      QuietKeeps(Step(st, acts[0]), acts[1..], f, m);
    }
  }

  /** A message that reaches to the leader's index brings the follower there, whenever it arrives, unless the leader
      has recorded more by then. */
  lemma CatchUp(st: State, acts: seq<Action>, f: Name, m: Message<Region>, saves: seq<bool>)
    requires Inv(st) && Possible(st, acts) && Quiet(acts) && f in st.followers && (f, m) in st.sent
    requires m.start + |m.regions| == st.leader.index && |saves| == |m.regions| && AllTrue(saves)
    ensures var end := After(st, acts);
      && Enabled(end, Deliver(f, m, saves))
      && Step(end, Deliver(f, m, saves)).followers[f].index == end.leader.index == st.leader.index
  {
    hide Step, Inv, After, Possible, Quiet;
    QuietKeeps(st, acts, f, m);
    RunInv(st, acts);
    InStepAfter(After(st, acts), f, m, saves);
  }

  /** A follower that asks from an index the leader holds gets a reply that brings it to the leader's index. */
  lemma HistoryCatchesUp(st: State, f: Name, start: nat, acts: seq<Action>, saves: seq<bool>)
    requires Inv(st) && (f, start) in st.requests && f in st.followers && First(st.leader) <= start < st.leader.index
    requires |saves| == st.leader.index - start && AllTrue(saves)
    ensures Enabled(st, SendHistory(f, start))
    ensures Possible(Step(st, SendHistory(f, start)), acts) && Quiet(acts) ==>
      exists m :: var end := After(Step(st, SendHistory(f, start)), acts);
        && Enabled(end, Deliver(f, m, saves))
        && Step(end, Deliver(f, m, saves)).followers[f].index == end.leader.index == st.leader.index
  {
    hide Inv, After, Possible, Quiet;
    HistoryIsWhole(st.leader, start);
    var m := HistoryReply(st.leader, start).value;
    var st1 := Step(st, SendHistory(f, start));
    StepInv(st, SendHistory(f, start));
    if Possible(st1, acts) && Quiet(acts) { CatchUp(st1, acts, f, m, saves); }
  }

  /** A broadcast goes to every stream whose send succeeds, and what it holds reaches to the leader's index: all that
      was recorded since the last one. So does a keep-alive. */
  lemma BroadcastReaches(st: State, lost: set<Name>, f: Name)
    requires LeaderOk(st) && f in st.bound - lost
    ensures st.pending != [] ==>
      exists m :: (f, m) in Step(st, Broadcast(lost)).sent && m.regions == st.pending && m.start + |m.regions| == st.leader.index
    ensures st.pending == [] ==>
      exists m :: (f, m) in Step(st, KeepAlive(lost)).sent && m.regions == [] && m.start == st.leader.index
  {
    if st.pending != [] {
      assert (f, Batch(st)) in Step(st, Broadcast(lost)).sent;
    } else {
      assert (f, Message(st.leader.index, [])) in Step(st, KeepAlive(lost)).sent;
    }
  }

  /** A follower whose index the leader still holds asks from there, is answered, and is at the leader's index. */
  lemma Resumes(st: State, f: Name, saves: seq<bool>)
    requires Inv(st) && f in st.followers && First(st.leader) <= st.followers[f].index < st.leader.index
    requires |saves| == st.leader.index - st.followers[f].index && AllTrue(saves)
    ensures Enabled(st, Request(f))
    ensures var start, st1 := st.followers[f].index, Step(st, Request(f));
      && Enabled(st1, SendHistory(f, start))
      && var st2 := Step(st1, SendHistory(f, start));
         exists m :: Enabled(st2, Deliver(f, m, saves)) && Step(st2, Deliver(f, m, saves)).followers[f].index == st.leader.index
  {
    hide Inv;
    var start, st1 := st.followers[f].index, Step(st, Request(f));
    StepInv(st, Request(f));
    HistoryCatchesUp(st1, f, start, [], saves);
    var st2 := Step(st1, SendHistory(f, start));
    assert Possible(st2, []) && After(st2, []) == st2;
  }

  /** A stream gets what is broadcast from when it is bound until it is dropped. */
  lemma Streams(st: State, f: Name, lost: set<Name>, m: Message<Region>)
    ensures f in st.followers ==> f in Step(st, Bind(f)).bound
    ensures f !in Step(st, Unbind(f)).bound
    ensures f !in st.bound || f in lost ==>
      && (st.pending != [] ==> ((f, m) in Step(st, Broadcast(lost)).sent <==> (f, m) in st.sent))
      && (st.pending == [] ==> ((f, m) in Step(st, KeepAlive(lost)).sent <==> (f, m) in st.sent))
  {
  }
}
