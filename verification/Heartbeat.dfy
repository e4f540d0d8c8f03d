/** server/cluster.go: region heartbeats. The cache changes only by `SetRegion` and stale heartbeats change nothing.
    Handled one after the other, the epoch of a region never goes back while it stays cached; side by side it can. */
module Heartbeat {
  import opened SortedSeq
  import opened Bytes
  import opened Regions
  import opened RegionIndex
  import opened RegionTree
  import opened RegionsInfo

  // ---------- what a heartbeat does to the row ----------

  /** The cached region with an id. */
  function ById(s: seq<Region>, id: nat): Option<Region> {
    if s == [] then None else if s[0].id == id then Some(s[0]) else ById(s[1..], id)
  }

  /** The heartbeat is older than what is cached (cluster.go:336-343, 361-364). */
  ghost predicate Stale(s: seq<Region>, r: Region) {
    match ById(s, r.id)
    case None => exists x :: x in s && Intersects(x, r) && r.version < x.version
    case Some(origin) => r.version < origin.version || r.confVer < origin.confVer
  }

  /** The cached region differs in what the cache is kept for (cluster.go:365-416). */
  predicate Differs(origin: Region, r: Region) {
    || r.version > origin.version
    || r.confVer > origin.confVer
    || r.leader != origin.leader
    || r.down > 0 || |r.pending| > 0
    || origin.down > 0 || |origin.pending| > 0
    || |r.peers| != |origin.peers|
    || r.size != origin.size || r.keys != origin.keys
    || r.flow != origin.flow
  }

  /** What is stored of the region has changed: it is new, or one of its epochs or the number of its peers has
      (cluster.go:352-403). */
  predicate MetaChanged(s: seq<Region>, r: Region) {
    match ById(s, r.id)
    case None => true
    case Some(origin) => r.version > origin.version || r.confVer > origin.confVer || |r.peers| != |origin.peers|
  }

  /** The heartbeat leaves cache and storage as they are. */
  ghost predicate Ignored(s: seq<Region>, r: Region) {
    Stale(s, r) || (ById(s, r.id).Some? && !Differs(ById(s, r.id).value, r))
  }

  /** The row after a heartbeat. */
  ghost function Handle(s: seq<Region>, r: Region): seq<Region> {
    if Ignored(s, r) then s else Updated(OtherIds(s, r.id), r)
  }

  ghost predicate UniqueIds(s: seq<Region>) {
    forall i, j :: 0 <= i < j < |s| ==> s[i].id != s[j].id
  }

  ghost predicate RowOk(s: seq<Region>) {
    RangesOk(s) && UniqueIds(s)
  }

  lemma {:induction false} ByIdIs(s: seq<Region>, id: nat, x: Region)
    requires UniqueIds(s)
    ensures ById(s, id) == Some(x) <==> x in s && x.id == id
  {
    if s != [] {
      assert s == [s[0]] + s[1..];
      ByIdIs(s[1..], id, x);
      if x in s[1..] {
        var j :| 0 <= j < |s[1..]| && s[1..][j] == x;
        assert s[j + 1] == x;
      }
    }
  }

  // ---------- the invariants of a run ----------

  lemma HandleOk(s: seq<Region>, r: Region)
    requires RowOk(s) && WellFormed(r)
    ensures RowOk(Handle(s, r))
  {
    hide RangesOk, WellFormed, ById, Stale, Differs, OtherIds, Updated;
    var t := OtherIds(s, r.id);
    SetMeans(s, r, r);
    UpdatedUnique(s, r);
  }

  lemma UpdatedUnique(s: seq<Region>, r: Region)
    requires RowOk(s) && WellFormed(r)
    ensures UniqueIds(Updated(OtherIds(s, r.id), r))
  {
    hide RangesOk, WellFormed, Filter, Lo, Hi;
    var p := (x: Region) => x.id != r.id;
    var t := OtherIds(s, r.id);
    FilterUnique(p, s);
    forall x: Region ensures x in t ==> x.id != r.id {
      FilterIn(p, s, x);
    }
    FilterRanges(p, s);
    UpdatedOk(t, r);
    PlaceUnique(t[..Lo(t, r.start)], r, t[Hi(t, r.end)..], t, Lo(t, r.start), Hi(t, r.end));
  }

  lemma PlaceUnique(a: seq<Region>, r: Region, b: seq<Region>, t: seq<Region>, lo: nat, hi: nat)
    requires UniqueIds(t) && (forall x :: x in t ==> x.id != r.id) && lo <= hi <= |t| && a == t[..lo] && b == t[hi..]
    ensures UniqueIds(a + [r] + b)
  {
    var u := a + [r] + b;
    forall i, j | 0 <= i < j < |u| ensures u[i].id != u[j].id {
      assert i < lo ==> u[i] == t[i];
      assert i > lo ==> u[i] == t[i - lo - 1 + hi];
      assert j < lo ==> u[j] == t[j];
      assert j > lo ==> u[j] == t[j - lo - 1 + hi];
    }
  }

  lemma {:induction false} FilterUnique(p: Region -> bool, s: seq<Region>)
    requires UniqueIds(s)
    ensures UniqueIds(Filter(p, s))
  {
    if s != [] {
      var f := Filter(p, s[1..]);
      FilterUnique(p, s[1..]);
      forall i | 0 <= i < |f| ensures f[i].id != s[0].id {
        FilterIn(p, s[1..], f[i]);
        var j :| 0 <= j < |s[1..]| && s[1..][j] == f[i];
        assert s[j + 1] == f[i];
      }
    }
  }

  // ---------- which heartbeats are refused, and what the cache has after the others ----------

  /** A heartbeat of a cached region is refused iff an epoch of what is cached is higher; one of another region iff
      it has a key in common with a region of a higher version. */
  lemma StaleIff(s: seq<Region>, r: Region)
    requires RowOk(s)
    ensures (exists x :: x in s && x.id == r.id) ==>
      (Stale(s, r) <==> exists x :: x in s && x.id == r.id && (r.version < x.version || r.confVer < x.confVer))
    ensures (forall x :: x in s ==> x.id != r.id) ==>
      (Stale(s, r) <==> exists x :: x in s && r.version < x.version && exists key :: Contains(x, key) && Contains(r, key))
  {
    hide RangesOk, Contains;
    forall x | x in s && x.id == r.id ensures ById(s, r.id) == Some(x) { ByIdIs(s, r.id, x); }
    if ById(s, r.id).Some? { ByIdIs(s, r.id, ById(s, r.id).value); }
  }

  /** What PD schedules by: the leader, size, keys, flow, epochs and number of peers are the same. */
  predicate SameReport(x: Region, r: Region) {
    && x.id == r.id && x.leader == r.leader && x.size == r.size && x.keys == r.keys && x.flow == r.flow
    && x.version == r.version && x.confVer == r.confVer && |x.peers| == |r.peers|
  }

  predicate Healthy(r: Region) {
    r.down == 0 && r.pending == []
  }

  /** A heartbeat that is not refused is what the cache then has of the region, as far as PD schedules by it, and
      itself if it or what was cached has down or pending peers, or differs. Nothing else is exchanged for it. */
  lemma Latest(s: seq<Region>, r: Region, x: Region)
    requires RowOk(s) && WellFormed(r) && !Stale(s, r) && x in Handle(s, r) && x.id == r.id
    ensures SameReport(x, r)
    ensures x in s ==> x == r || (Healthy(r) && Healthy(x))
    ensures (forall y :: y in s && y.id == r.id ==> !(SameReport(y, r) && Healthy(y) && Healthy(r))) ==> x == r
    ensures (exists y :: y in s && SameReport(y, r) && Healthy(y) && Healthy(r)) ==> Handle(s, r) == s
  {
    hide RangesOk, WellFormed, OtherIds, Updated, Intersects, ById, UniqueIds;
    forall y | y in s && y.id == r.id ensures ById(s, r.id) == Some(y) { ByIdIs(s, r.id, y); }
    if ById(s, r.id).Some? { ByIdIs(s, r.id, ById(s, r.id).value); }
    SetMeans(s, r, x);
  }

  /** The region is cached afterwards. */
  lemma Cached(s: seq<Region>, r: Region)
    requires RowOk(s) && WellFormed(r) && !Stale(s, r)
    ensures exists x :: x in Handle(s, r) && x.id == r.id
  {
    hide RangesOk, WellFormed, OtherIds, Updated, Intersects, ById, UniqueIds;
    if Ignored(s, r) {
      ByIdIs(s, r.id, ById(s, r.id).value);
    } else {
      SetMeans(s, r, r);
    }
  }

  lemma Reported(s: seq<Region>, r: Region)
    requires RowOk(s) && WellFormed(r) && !Stale(s, r)
    ensures exists x :: x in Handle(s, r) && SameReport(x, r)
  {
    hide RowOk, WellFormed, Handle, Stale;
    Cached(s, r);
    var x: Region :| x in Handle(s, r) && x.id == r.id;
    Latest(s, r, x);
  }

  /** Neither epoch is lower. */
  predicate NotOlder(x: Region, y: Region) {
    x.version <= y.version && x.confVer <= y.confVer
  }

  /** A region that is cached before and after keeps or raises both of its epochs. */
  lemma EpochsKept(s: seq<Region>, r: Region, x: Region, y: Region)
    requires RowOk(s) && WellFormed(r)
    requires x in s && y in Handle(s, r) && x.id == y.id
    ensures NotOlder(x, y)
  {
    hide RangesOk, WellFormed, OtherIds, Updated, Differs, ById, Intersects;
    ByIdIs(s, r.id, x);
    if Handle(s, r) == s {
      ByIdIs(s, x.id, x);
      ByIdIs(s, x.id, y);
    } else {
      SetMeans(s, r, y);
      ByIdIs(s, y.id, y);
      ByIdIs(s, y.id, x);
    }
  }

  /** A newcomer replaces nothing newer. */
  lemma NewcomerNotOlder(s: seq<Region>, r: Region, x: Region)
    requires RowOk(s) && WellFormed(r) && ById(s, r.id).None? && Handle(s, r) != s
    requires x in s && x !in Handle(s, r)
    ensures x.version <= r.version
  {
    hide RangesOk, WellFormed, OtherIds, Updated, Differs, Intersects;
    SetMeans(s, r, x);
    ByIdIs(s, r.id, x);
  }

  /** The rows a run goes through. */
  ghost function Trace(s: seq<Region>, beats: seq<Region>): (t: seq<seq<Region>>)
    ensures |t| == |beats| + 1 && t[0] == s
    decreases |beats|
  {
    if beats == [] then [s] else [s] + Trace(Handle(s, beats[0]), beats[1..])
  }

  lemma TraceStart(s: seq<Region>, beats: seq<Region>)
    ensures |Trace(s, beats)| == |beats| + 1 && Trace(s, beats)[0] == s
  {
  }

  lemma {:induction false} TraceStep(s: seq<Region>, beats: seq<Region>, i: nat)
    requires i < |beats|
    ensures |Trace(s, beats)| == |beats| + 1 && Trace(s, beats)[i + 1] == Handle(Trace(s, beats)[i], beats[i])
    decreases |beats|
  {
    hide Handle;
    if i > 0 { TraceStep(Handle(s, beats[0]), beats[1..], i - 1); }
  }

  ghost predicate BeatsOk(beats: seq<Region>) {
    forall i :: 0 <= i < |beats| ==> WellFormed(beats[i])
  }

  /** In every state of every run no two cached regions have a key in common and no two an id. */
  lemma {:induction false} RunKeeps(s: seq<Region>, beats: seq<Region>, i: nat)
    requires RowOk(s) && BeatsOk(beats) && i <= |beats|
    ensures RowOk(Trace(s, beats)[i])
    decreases i
  {
    if i > 0 {
      RunKeeps(s, beats, i - 1);
      TraceStep(s, beats, i - 1);
      HandleOk(Trace(s, beats)[i-1], beats[i-1]);
    }
  }

  /** Cached in every state from `i` to `j`. */
  ghost predicate CachedThroughout(t: seq<seq<Region>>, id: nat, i: nat, j: nat) {
    i <= j < |t| && forall k :: i <= k <= j ==> ById(t[k], id).Some?
  }

  /** Over every run, while a region stays cached neither its version nor its conf version goes back. */
  lemma {:induction false} RunEpochs(s: seq<Region>, beats: seq<Region>, id: nat, i: nat, j: nat)
    requires RowOk(s) && BeatsOk(beats) && CachedThroughout(Trace(s, beats), id, i, j)
    ensures NotOlder(ById(Trace(s, beats)[i], id).value, ById(Trace(s, beats)[j], id).value)
    decreases j
  {
    hide RowOk, Handle, ById;
    var t := Trace(s, beats);
    if i < j {
      RunEpochs(s, beats, id, i, j - 1);
      RunKeeps(s, beats, j - 1);
      TraceStep(s, beats, j - 1);
      Found(t[j-1], id);
      RunKeeps(s, beats, j);
      Found(t[j], id);
      EpochsKept(t[j-1], beats[j-1], ById(t[j-1], id).value, ById(t[j], id).value);
    }
  }

  lemma Found(s: seq<Region>, id: nat)
    requires RowOk(s)
    ensures ById(s, id).Some? ==> ById(s, id).value in s && ById(s, id).value.id == id
  {
    if ById(s, id).Some? { ByIdIs(s, id, ById(s, id).value); }
  }

  /** A heartbeat of another region, or one that is refused, leaves what is cached of a region or evicts it. */
  lemma OtherKeeps(s: seq<Region>, r: Region, x: Region, y: Region)
    requires RowOk(s) && WellFormed(r) && x in s && y in Handle(s, r) && x.id == y.id && (r.id != x.id || Stale(s, r))
    ensures x == y
  {
    hide RangesOk, WellFormed, OtherIds, Updated, Intersects, UniqueIds;
    SetMeans(s, r, y);
    ByIdIs(s, x.id, x);
    ByIdIs(s, x.id, y);
  }

  /** Over every run, while a region stays cached the cache has what its last accepted heartbeat reported. */
  lemma {:induction false} RunLatest(s: seq<Region>, beats: seq<Region>, i: nat, j: nat)
    requires RowOk(s) && BeatsOk(beats) && i < j <= |beats| && !Stale(Trace(s, beats)[i], beats[i])
    requires CachedThroughout(Trace(s, beats), beats[i].id, i + 1, j)
    requires forall k :: i < k < j && beats[k].id == beats[i].id ==> Stale(Trace(s, beats)[k], beats[k])
    ensures SameReport(ById(Trace(s, beats)[j], beats[i].id).value, beats[i])
    decreases j
  {
    hide RowOk, Handle, Stale, ById, WellFormed;
    var t, id := Trace(s, beats), beats[i].id;
    RunKeeps(s, beats, j - 1);
    RunKeeps(s, beats, j);
    TraceStep(s, beats, j - 1);
    Found(t[j], id);
    var y := ById(t[j], id).value;
    if i == j - 1 {
      Latest(t[i], beats[i], y);
    } else {
      RunLatest(s, beats, i, j - 1);
      Found(t[j-1], id);
      OtherKeeps(t[j-1], beats[j-1], ById(t[j-1], id).value, y);
    }
  }

  // ---------- heartbeats side by side ----------

  /** The lock is given up between the look at the cache and the update (cluster.go:346, 437), so other heartbeats may
      come in between. `ready` are the heartbeats that are to be put into the cache. */
  datatype Side = Side(row: seq<Region>, ready: multiset<Region>)

  datatype Turn = Look(r: Region) | Put(r: Region)

  ghost function PutNow(s: seq<Region>, r: Region): seq<Region> {
    Updated(OtherIds(s, r.id), r)
  }

  ghost predicate Possible(st: Side, t: Turn) {
    match t
    case Look(r) => WellFormed(r)
    case Put(r) => r in st.ready
  }

  ghost function Next(st: Side, t: Turn): Side {
    match t
    case Look(r) => if Ignored(st.row, r) then st else st.(ready := st.ready + multiset{r})
    case Put(r) => Side(PutNow(st.row, r), st.ready - multiset{r})
  }

  ghost function After(st: Side, turns: seq<Turn>): Side
    decreases |turns|
  {
    if turns == [] then st else Next(After(st, turns[..|turns| - 1]), turns[|turns| - 1])
  }

  ghost predicate AllPossible(st: Side, turns: seq<Turn>)
    decreases |turns|
  {
    turns == [] || (AllPossible(st, turns[..|turns| - 1]) && Possible(After(st, turns[..|turns| - 1]), turns[|turns| - 1]))
  }

  ghost predicate SideOk(st: Side) {
    RowOk(st.row) && forall r :: r in st.ready ==> WellFormed(r)
  }

  /** However heartbeats interleave, no two cached regions have a key in common and no two an id. */
  lemma {:induction false} SideKeeps(st: Side, turns: seq<Turn>)
    requires SideOk(st) && AllPossible(st, turns)
    ensures SideOk(After(st, turns))
    decreases |turns|
  {
    hide RowOk, WellFormed, OtherIds, Updated, Ignored;
    if turns != [] {
      var before, t := After(st, turns[..|turns| - 1]), turns[|turns| - 1];
      SideKeeps(st, turns[..|turns| - 1]);
      if t.Put? { PutOk(before.row, t.r); }
    }
  }

  lemma PutOk(s: seq<Region>, r: Region)
    requires RowOk(s) && WellFormed(r)
    ensures RowOk(PutNow(s, r))
  {
    hide RangesOk, WellFormed, OtherIds, Updated, UniqueIds;
    SetMeans(s, r, r);
    UpdatedUnique(s, r);
  }

  /** No region that stays cached has an epoch lowered. */
  ghost predicate EpochsStay(s: seq<Region>, t: seq<Region>) {
    forall x, y :: x in s && y in t && x.id == y.id ==> NotOlder(x, y)
  }

  /** An update keeps the epochs exactly if the heartbeat is not older than what is cached by then. */
  lemma PutEpochsIff(s: seq<Region>, r: Region)
    requires RowOk(s) && WellFormed(r)
    ensures EpochsStay(s, PutNow(s, r)) <==> forall x :: x in s && x.id == r.id ==> NotOlder(x, r)
  {
    hide RangesOk, WellFormed, OtherIds, Updated, Intersects, UniqueIds;
    var t := PutNow(s, r);
    forall y ensures y in t <==> y == r || (y in s && y.id != r.id && !Intersects(y, r)) { SetMeans(s, r, y); }
    forall x, y | x in s && y in t && x.id == y.id ensures x == y || y == r {
      if y != r {
        ByIdIs(s, x.id, x);
        ByIdIs(s, x.id, y);
      }
    }
  }

  /** Of two heartbeats of a new region that both look before either is put, the older may be put last. */
  lemma EpochGoesBack() returns (turns: seq<Turn>, newer: Region, older: Region)
    ensures AllPossible(Side([], multiset{}), turns) && |turns| == 4
    ensures After(Side([], multiset{}), turns[..3]).row == [newer] && After(Side([], multiset{}), turns).row == [older]
    ensures newer.id == older.id && older.version < newer.version
  {
    hide After, AllPossible, PutNow, Ignored;
    older := Region(1, [], [], 1, 1, [], 0, [], 0, 0, 0, Flow(0, 0, 0, 0));
    newer := older.(version := 2);
    var st := Side([], multiset{});
    NoTurn(st);
    NotIgnored(older);
    NotIgnored(newer);
    FirstPut(newer);
    AgainPut(newer, older);
    var one := [] + [Look(older)];
    OneMore(st, [], Look(older));
    var two := one + [Look(newer)];
    OneMore(st, one, Look(newer));
    var three := two + [Put(newer)];
    OneMore(st, two, Put(newer));
    assert After(st, three) == Side([newer], multiset{older});
    OneMore(st, three, Put(older));
    turns := three + [Put(older)];
    assert turns[..3] == three;
  }

  lemma NoTurn(st: Side)
    ensures After(st, []) == st && AllPossible(st, [])
  {
  }

  lemma OneMore(st: Side, turns: seq<Turn>, t: Turn)
    requires AllPossible(st, turns) && Possible(After(st, turns), t)
    ensures AllPossible(st, turns + [t]) && After(st, turns + [t]) == Next(After(st, turns), t)
  {
    hide Next, Possible;
    assert (turns + [t])[..|turns|] == turns;
  }

  lemma NotIgnored(r: Region)
    ensures !Ignored([], r)
  {
  }

  lemma FirstPut(r: Region)
    ensures PutNow([], r) == [r]
  {
    Alone(r);
    assert OtherIds([], r.id) == [];
  }

  lemma AgainPut(x: Region, r: Region)
    requires x.id == r.id
    ensures PutNow([x], r) == [r]
  {
    hide Updated;
    FilterOne((y: Region) => y.id != r.id, x);
    FirstPut(r);
  }

  lemma Alone(r: Region)
    ensures Updated([], r) == [r]
  {
  }

  // ---------- what a heartbeat does to the storage ----------

  /** Which storage calls fail while a heartbeat is handled: that only gets logged. */
  datatype Failures = Failures(save: bool, deletes: set<nat>)

  /** The stored regions, by id, after a heartbeat found the cached row `s`. */
  ghost function SavedBy(kv: map<nat, Region>, s: seq<Region>, r: Region, fails: Failures): map<nat, Region> {
    if Ignored(s, r) then
      kv
    else
      var saved := if MetaChanged(s, r) && !fails.save then kv[r.id := r] else kv;
      saved - (IdsOf(Overlaps(OtherIds(s, r.id), r.start, r.end)) - fails.deletes)
  }

  /** The stored regions after the first `i` heartbeats. */
  ghost function StoredAt(kv: map<nat, Region>, s: seq<Region>, beats: seq<Region>, fails: seq<Failures>, i: nat): map<nat, Region>
    requires i <= |beats| == |fails|
  {
    if i == 0 then kv else SavedBy(StoredAt(kv, s, beats, fails, i - 1), Trace(s, beats)[i-1], beats[i-1], fails[i-1])
  }

  /** The same epochs and number of peers. */
  predicate SameMeta(x: Region, y: Region) {
    x.version == y.version && x.confVer == y.confVer && |x.peers| == |y.peers|
  }

  /** Every cached region is stored, and what is stored of it is up to date. */
  ghost predicate AllStored(kv: map<nat, Region>, s: seq<Region>) {
    forall x :: x in s ==> x.id in kv && SameMeta(kv[x.id], x)
  }

  /** Every stored region is cached, with epochs that are no lower. */
  ghost predicate NoneAhead(kv: map<nat, Region>, s: seq<Region>) {
    forall id :: id in kv ==> ById(s, id).Some? && NotOlder(kv[id], ById(s, id).value)
  }

  lemma StepAllStored(kv: map<nat, Region>, s: seq<Region>, r: Region, fails: Failures)
    requires RowOk(s) && WellFormed(r) && AllStored(kv, s) && !fails.save
    ensures AllStored(SavedBy(kv, s, r, fails), Handle(s, r))
  {
    hide RangesOk, WellFormed, OtherIds, Updated, Intersects, Overlaps, ById, UniqueIds;
    var overlaps := Overlaps(OtherIds(s, r.id), r.start, r.end);
    Found(s, r.id);
    StepIds(s, r, overlaps);
    forall y | y in Handle(s, r) ensures var kv' := SavedBy(kv, s, r, fails); y.id in kv' && SameMeta(kv'[y.id], y) {
      SetMeans(s, r, y);
      if !Ignored(s, r) && y in s && y.id != r.id { StaysStored(s, r, y); }
    }
  }

  lemma StaysStored(s: seq<Region>, r: Region, y: Region)
    requires RowOk(s) && WellFormed(r) && y in s && y.id != r.id && !Intersects(y, r)
    ensures y.id !in IdsOf(Overlaps(OtherIds(s, r.id), r.start, r.end))
  {
    hide RangesOk, WellFormed, OtherIds, Updated, Intersects, Overlaps;
    forall x | x in Overlaps(OtherIds(s, r.id), r.start, r.end) ensures x.id != y.id {
      SetMeans(s, r, x);
    }
  }

  lemma StepNoneAhead(kv: map<nat, Region>, s: seq<Region>, r: Region, fails: Failures)
    requires RowOk(s) && WellFormed(r) && NoneAhead(kv, s) && fails.deletes == {}
    ensures NoneAhead(SavedBy(kv, s, r, fails), Handle(s, r))
  {
    hide RowOk, WellFormed, OtherIds, Updated, Intersects, Overlaps, ById;
    var kv' := SavedBy(kv, s, r, fails);
    HandleOk(s, r);
    forall id | id in kv' ensures ById(Handle(s, r), id).Some? && NotOlder(kv'[id], ById(Handle(s, r), id).value) {
      if !Ignored(s, r) { StoredStays(kv, s, r, fails, id); }
    }
  }

  lemma StoredStays(kv: map<nat, Region>, s: seq<Region>, r: Region, fails: Failures, id: nat)
    requires RowOk(s) && WellFormed(r) && NoneAhead(kv, s) && fails.deletes == {} && !Ignored(s, r)
    requires RowOk(Handle(s, r)) && id in SavedBy(kv, s, r, fails)
    ensures var t := Handle(s, r); ById(t, id).Some? && NotOlder(SavedBy(kv, s, r, fails)[id], ById(t, id).value)
  {
    hide RangesOk, WellFormed, OtherIds, Updated, Intersects, Overlaps, ById, UniqueIds;
    var t := Handle(s, r);
    Found(s, id);
    if id == r.id {
      SetMeans(s, r, r);
      ByIdIs(t, id, r);
    } else {
      var x := ById(s, id).value;
      SetMeans(s, r, x);
      assert x !in Overlaps(OtherIds(s, r.id), r.start, r.end);
      ByIdIs(t, id, x);
    }
  }

  /** What is stored of a region stays as long as its heartbeats report the epochs and number of peers that are cached. */
  lemma SavedOnlyIf(kv: map<nat, Region>, s: seq<Region>, r: Region, fails: Failures)
    requires RowOk(s) && WellFormed(r) && r.id in kv && exists x :: x in s && x.id == r.id && SameMeta(x, r)
    ensures r.id in SavedBy(kv, s, r, fails) && SavedBy(kv, s, r, fails)[r.id] == kv[r.id]
  {
    hide RangesOk, WellFormed, OtherIds, Updated, Intersects, Overlaps, ById, UniqueIds;
    var x :| x in s && x.id == r.id && SameMeta(x, r);
    ByIdIs(s, r.id, x);
    StepIds(s, r, Overlaps(OtherIds(s, r.id), r.start, r.end));
  }

  /** Over every run: while no save has failed every cached region is stored and up to date, and while no deletion
      has failed every stored region is cached and not ahead of the cache. */
  lemma {:induction false} RunStored(kv: map<nat, Region>, s: seq<Region>, beats: seq<Region>, fails: seq<Failures>, i: nat)
    requires RowOk(s) && BeatsOk(beats) && i <= |beats| == |fails|
    ensures AllStored(kv, s) && (forall j :: 0 <= j < i ==> !fails[j].save) ==>
      AllStored(StoredAt(kv, s, beats, fails, i), Trace(s, beats)[i])
    ensures NoneAhead(kv, s) && (forall j :: 0 <= j < i ==> fails[j].deletes == {}) ==>
      NoneAhead(StoredAt(kv, s, beats, fails, i), Trace(s, beats)[i])
    decreases i
  {
    hide RowOk, Handle, AllStored, NoneAhead, SavedBy;
    if i > 0 {
      var before := StoredAt(kv, s, beats, fails, i - 1);
      RunStored(kv, s, beats, fails, i - 1);
      RunKeeps(s, beats, i - 1);
      TraceStep(s, beats, i - 1);
      var t := Trace(s, beats)[i-1];
      if AllStored(before, t) && !fails[i-1].save { StepAllStored(before, t, beats[i-1], fails[i-1]); }
      if NoneAhead(before, t) && fails[i-1].deletes == {} { StepNoneAhead(before, t, beats[i-1], fails[i-1]); }
    }
  }

  /** Without failures the ids in the storage are exactly those of the cached regions. */
  lemma SameIds(kv: map<nat, Region>, s: seq<Region>)
    requires RowOk(s) && AllStored(kv, s) && NoneAhead(kv, s)
    ensures kv.Keys == IdsOf(s)
  {
    hide RowOk, ById;
    forall id | id in kv ensures id in IdsOf(s) { Found(s, id); }
  }

  // ---------- the cluster ----------

  /** The cluster's region cache and its region storage. `kv` maps the stored ids to their regions. */
  class RaftCluster {
    const core: RegionsInfo
    var kv: map<nat, Region>

    constructor ()
      ensures core.Ok() && core.Contents() == [] && kv == map[] && fresh(core)
    {
      core := new RegionsInfo();
      kv := map[];
    }

    /** `processRegionHeartbeat` (cluster.go:333-472). Returns whether the heartbeat was accepted. */
    method ProcessRegionHeartbeat(region: Region, fails: Failures) returns (ok: bool)
      requires core.Ok() && RegionOk(region)
      modifies this, core
      ensures core.Ok()
      ensures ok <==> !Stale(old(core.Contents()), region)
      ensures core.Contents() == Handle(old(core.Contents()), region)
      ensures ok ==> exists x :: x in core.Contents() && SameReport(x, region)
      ensures kv == SavedBy(old(kv), old(core.Contents()), region, fails)
      ensures old(InStep()) && fails == Failures(false, {}) ==> InStep()
    {
      hide TreeOk, RangesOk, RegionsInfo.Holds, OtherIds, Updated, Intersects, Overlaps, WellFormed, Filter, ById, IdsOf, UniqueIds, RegionOk;
      ghost var s := core.Contents();
      IdsUnique(core);
      OkRange(region);
      Looked(core, region.id);
      var saveKV, saveCache := true, true;
      if region.id !in core.regions.m {
        var overlaps := GetOverlaps(core.tree, region);
        OverlapIs(s, region);
        NoneOther(s, region.id);
        var newer := AnyNewer(overlaps, region.version);
        if newer { return false; }
      } else {
        var origin := core.regions.m[region.id];
        if region.version < origin.version || region.confVer < origin.confVer { return false; }
        saveKV := region.version > origin.version || region.confVer > origin.confVer || |region.peers| != |origin.peers|;
        saveCache := Differs(origin, region);
      }
      if saveKV && !fails.save { kv := kv[region.id := region]; }
      if saveCache {
        var overlaps := core.SetRegion(region);
        DeleteRegions(overlaps, fails.deletes);
        StepIds(s, region, overlaps);
      }
      Reported(s, region);
      ok := true;
    }

    /** A run of heartbeats goes through the rows of `Trace` and leaves the storage of `StoredAt`. */
    method ProcessAll(beats: seq<Region>, fails: seq<Failures>)
      requires core.Ok() && |fails| == |beats| && forall i :: 0 <= i < |beats| ==> RegionOk(beats[i])
      modifies this, core
      ensures core.Ok() && core.Contents() == Trace(old(core.Contents()), beats)[|beats|]
      ensures kv == StoredAt(old(kv), old(core.Contents()), beats, fails, |beats|)
    {
      hide RegionsInfo.Ok, RegionsInfo.Contents, Handle, Stale, RegionOk, Trace, SavedBy;
      ghost var s := core.Contents();
      TraceStart(s, beats);
      for i := 0 to |beats|
        invariant core.Ok() && core.Contents() == Trace(s, beats)[i]
        invariant kv == StoredAt(old(kv), s, beats, fails, i)
      {
        TraceStep(s, beats, i);
        var ok := ProcessRegionHeartbeat(beats[i], fails[i]);
      }
    }

    /** Deletes the regions from the storage, but for those whose deletion fails. */
    method DeleteRegions(regions: seq<Region>, deleteFails: set<nat>)
      modifies this`kv
      ensures kv == old(kv) - (IdsOf(regions) - deleteFails)
    {
      assert regions[..0] == [];
      for i := 0 to |regions|
        invariant kv == old(kv) - (IdsOf(regions[..i]) - deleteFails)
      {
        assert regions[..i+1] == regions[..i] + [regions[i]];
        assert IdsOf(regions[..i+1]) == IdsOf(regions[..i]) + {regions[i].id};
        if regions[i].id !in deleteFails { kv := kv - {regions[i].id}; }
      }
      assert regions[..|regions|] == regions;
    }

    /** The ids in the storage are those of the cached regions. */
    ghost predicate InStep()
      reads this, core
    {
      kv.Keys == IdsOf(core.Contents())
    }
  }

  /** Some region of the list has a higher version (cluster.go:337-342). */
  method AnyNewer(regions: seq<Region>, version: nat) returns (r: bool)
    ensures r <==> exists x :: x in regions && version < x.version
  {
    for i := 0 to |regions|
      invariant forall j :: 0 <= j < i ==> version >= regions[j].version
    {
      if version < regions[i].version {
        assert regions[i] in regions;
        return true;
      }
    }
    r := false;
  }

  ghost function IdsOf(s: seq<Region>): set<nat> {
    set x | x in s :: x.id
  }

  lemma IdsUnique(c: RegionsInfo)
    requires c.Ok()
    ensures RowOk(c.Contents())
  {
    hide Lt, SizeOf, KeysOf, RegionFamily.FamilyAt, RegionOk, BTree.Valid;
    LtOrder();
    var s := c.Contents();
    forall i, j | 0 <= i < j < |s| ensures s[i].id != s[j].id {
      assert ByStart(s[i], s[j]);
    }
  }

  lemma Looked(c: RegionsInfo, id: nat)
    requires c.Ok()
    ensures ById(c.Contents(), id) == if id in c.regions.m then Some(c.regions.m[id]) else None
    ensures id in IdsOf(c.Contents()) <==> id in c.regions.m
  {
    hide RangesOk, SizeOf, KeysOf, RegionFamily.FamilyAt, RegionOk, BTree.Valid, BTree.Items;
    IdsUnique(c);
    var s := c.Contents();
    if id in c.regions.m {
      ByIdIs(s, id, c.regions.m[id]);
    } else if ById(s, id).Some? {
      ByIdIs(s, id, ById(s, id).value);
    }
  }

  lemma OverlapIs(s: seq<Region>, r: Region)
    requires RangesOk(s) && WellFormed(r)
    ensures forall x :: x in Overlaps(s, r.start, r.end) <==> x in s && Intersects(x, r)
  {
    hide RangesOk, WellFormed, Intersects, Meets, Filter;
    OverlapsAre(s, r.start, r.end);
    forall x ensures x in Overlaps(s, r.start, r.end) <==> x in s && Intersects(x, r) {
      FilterIn(x => Meets(x, r.start, r.end), s, x);
      if x in s {
        MemberWellFormed(s, x);
        MeetsIsIntersects(x, r);
      }
    }
  }

  lemma NoneOther(s: seq<Region>, id: nat)
    requires UniqueIds(s) && ById(s, id).None?
    ensures OtherIds(s, id) == s
  {
    forall i | 0 <= i < |s| ensures s[i].id != id {
      ByIdIs(s, id, s[i]);
    }
    OthersAll(s, id);
  }

  /** The ids after a set: the region's own comes in, those of the overlaps go. */
  lemma StepIds(s: seq<Region>, r: Region, overlaps: seq<Region>)
    requires RowOk(s) && WellFormed(r) && overlaps == Overlaps(OtherIds(s, r.id), r.start, r.end)
    ensures IdsOf(Updated(OtherIds(s, r.id), r)) == IdsOf(s) + {r.id} - IdsOf(overlaps)
    ensures r.id !in IdsOf(overlaps)
  {
    hide RangesOk, WellFormed, OtherIds, Updated, Intersects, Overlaps;
    var t := Updated(OtherIds(s, r.id), r);
    forall x: Region
      ensures x in t <==> x == r || (x in s && x.id != r.id && !Intersects(x, r))
      ensures x in overlaps <==> x in s && x.id != r.id && Intersects(x, r)
    {
      SetMeans(s, r, x);
    }
    forall id ensures id in IdsOf(t) <==> id in IdsOf(s) + {r.id} - IdsOf(overlaps) {
      if id in IdsOf(s) && id != r.id {
        var x :| x in s && x.id == id;
        forall y | y in s && y.id == id ensures y == x {
        }
      }
      if id == r.id { assert r in t; }
    }
  }
}
