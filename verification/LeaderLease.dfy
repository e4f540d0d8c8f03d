/** Leader election: server/member/lease.go, server/member/leader.go and the leader loop of server/server.go, as
    steps of servers and of etcd over a common clock. Requests and replies are separate steps, so they may be
    delayed, reordered or lost. At any instant at most one server has won and sees its lease unexpired. */
module LeaderLease {
  import opened SortedSeq

  type Time = int
  type Server = nat

  /** One call of `campaignLeader` with its own lease object; the lease has the id of the attempt. */
  type Id = nat

  /** What etcd knows of a lease. */
  datatype Lease = Lease(ttl: nat, expiry: Time, alive: bool)

  /** Where a campaign is: the grant is requested at `start`; etcd has granted `ttl` and the reply is under way; the
      lease is held; the leader key is being put; the campaign is won; it has returned and the lease is closed. */
  datatype Phase = Asked(start: Time) | Granted(start: Time, ttl: nat) | Held | Putting | Won | Closed

  /** A lease object of a server: `expire` is its expireTime, `maxExpire` the variable of the KeepAlive loop. */
  datatype Attempt = Attempt(server: Server, phase: Phase, expire: Time, maxExpire: Time)

  /** A keep-alive call: sent at `start`, answered with a TTL or not yet. */
  datatype Call = Call(attempt: Id, start: Time, ttl: Option<nat>)

  datatype State = State(
    now: Time,
    leases: map<Id, Lease>,                // etcd's leases
    key: Option<Id>,                       // etcd's leader key: the lease it is bound to, whose server it names
    attempts: map<Id, Attempt>,            // the lease objects of all servers
    puts: set<Id>,                         // puts of the leader key under way
    created: set<Id>,                      // those that have succeeded
    calls: map<nat, Call>,                 // keep-alive calls under way
    deletes: multiset<Server>)             // deletions of the leader key under way

  function Init(): State {
    State(0, map[], None, map[], {}, {}, map[], multiset{})
  }

  datatype Action =
    | Tick(d: nat)
    | Start(a: Id, server: Server)         // leaderLoop calls campaignLeader, which asks for a lease
    | Grant(a: Id, ttl: nat)               // etcd grants it
    | GrantReply(a: Id)                    // Grant stores ID and expireTime
    | SendPut(a: Id)                       // CampaignLeader sends the compare-and-put
    | ApplyPut(a: Id)                      // etcd does it, perhaps after the call has ended in an error
    | PutReply(a: Id)                      // CampaignLeader returns without error
    | Send(c: nat, a: Id)                  // the worker sends a keep-alive
    | Renew(c: nat)                        // etcd renews the lease
    | Receive(c: nat)                      // KeepAlive stores the new expireTime, if it is the latest
    | Close(a: Id)                         // campaignLeader returns, for whatever reason
    | Revoke(a: Id)                        // the revocation that Close asked for
    | Expire(a: Id)                        // etcd drops an expired lease
    | SendDelete(s: Server)                // CheckLeader finds its own server in the leader key
    | ApplyDelete(s: Server)               // the compare-and-delete

  predicate Open(st: State, a: Id) {
    a in st.attempts && !st.attempts[a].phase.Closed?
  }

  /** Whether a server is inside `campaignLeader`. */
  ghost predicate Campaigning(st: State, s: Server) {
    exists a :: Open(st, a) && st.attempts[a].server == s
  }

  ghost predicate KeyOf(st: State, s: Server) {
    st.key.Some? && st.key.value in st.attempts && st.attempts[st.key.value].server == s
  }

  ghost predicate Enabled(st: State, act: Action) {
    match act
    case Tick(_) => true
    case Start(a, server) => a !in st.attempts && a !in st.leases && !Campaigning(st, server)
    case Grant(a, ttl) => ttl > 0 && a in st.attempts && st.attempts[a].phase.Asked? && a !in st.leases
    case GrantReply(a) => a in st.attempts && st.attempts[a].phase.Granted?
    case SendPut(a) => a in st.attempts && st.attempts[a].phase.Held?
    case ApplyPut(a) => a in st.puts
    case PutReply(a) => a in st.attempts && st.attempts[a].phase.Putting? && a in st.created
    case Send(c, a) => c !in st.calls && a in st.attempts && a in st.leases && (st.attempts[a].phase.Won? || st.attempts[a].phase.Closed?)
    case Renew(c) => c in st.calls && st.calls[c].ttl.None? && st.calls[c].attempt in st.leases
    case Receive(c) => c in st.calls && st.calls[c].ttl.Some? && st.calls[c].attempt in st.attempts
    case Close(a) => Open(st, a)
    case Revoke(a) => a in st.attempts && st.attempts[a].phase.Closed? && a in st.leases
    case Expire(a) => a in st.leases && st.leases[a].alive && st.now > st.leases[a].expiry
    case SendDelete(s) => KeyOf(st, s) && !Campaigning(st, s)
    case ApplyDelete(s) => s in st.deletes
  }

  /** A dead lease takes the key bound to it along. */
  function Kill(st: State, a: Id): State
    requires a in st.leases
  {
    st.(leases := st.leases[a := st.leases[a].(alive := false)], key := if st.key == Some(a) then None else st.key)
  }

  function SetAttempt(st: State, a: Id, x: Attempt): State {
    st.(attempts := st.attempts[a := x])
  }

  /** The compare-and-put of `CampaignLeader` (leader.go:243-247): there is no key, and the lease is still alive. */
  predicate Puts(st: State, a: Id) {
    st.key.None? && a in st.leases && st.leases[a].alive
  }

  ghost function Step(st: State, act: Action): State
    requires Enabled(st, act)
  {
    match act
    case Tick(d) => st.(now := st.now + d)
    case Start(a, server) => SetAttempt(st, a, Attempt(server, Asked(st.now), -1, -1))
    case Grant(a, ttl) =>
      SetAttempt(st, a, st.attempts[a].(phase := Granted(st.attempts[a].phase.start, ttl)))
        .(leases := st.leases[a := Lease(ttl, st.now + ttl, true)])
    case GrantReply(a) =>
      var x := st.attempts[a];
      SetAttempt(st, a, x.(phase := Held, expire := x.phase.start + x.phase.ttl))
    case SendPut(a) => SetAttempt(st, a, st.attempts[a].(phase := Putting)).(puts := st.puts + {a})
    case ApplyPut(a) =>
      var st1 := st.(puts := st.puts - {a});
      if Puts(st, a) then st1.(key := Some(a), created := st.created + {a}) else st1
    case PutReply(a) => SetAttempt(st, a, st.attempts[a].(phase := Won))
    case Send(c, a) => st.(calls := st.calls[c := Call(a, st.now, None)])
    case Renew(c) =>
      var a := st.calls[c].attempt;
      var ttl := st.leases[a].ttl;
      if st.leases[a].alive then
        st.(leases := st.leases[a := Lease(ttl, st.now + ttl, true)], calls := st.calls[c := st.calls[c].(ttl := Some(ttl))])
      else st.(calls := st.calls - {c})
    case Receive(c) =>
      var a, t := st.calls[c].attempt, st.calls[c].start + st.calls[c].ttl.value;
      var x := st.attempts[a];
      SetAttempt(st, a, if t > x.maxExpire then x.(expire := t, maxExpire := t) else x).(calls := st.calls - {c})
    case Close(a) => SetAttempt(st, a, st.attempts[a].(phase := Closed, expire := -1))
    case Revoke(a) => Kill(st, a)
    case Expire(a) => Kill(st, a)
    case SendDelete(s) => st.(deletes := st.deletes + multiset{s})
    case ApplyDelete(s) => st.(deletes := st.deletes - multiset{s}, key := if KeyOf(st, s) then None else st.key)
  }

  // ---------- the invariant ----------

  /** A server's expire time is not later than etcd's expiry of the lease, until Close; an open attempt's lease
      dies only of expiry; an attempt that is granted, or has sent its put, has a lease. */
  ghost predicate AttemptOk(st: State, a: Id) {
    a in st.attempts ==>
      var x := st.attempts[a];
      && (x.phase.Asked? ==> x.maxExpire <= x.phase.start <= st.now)
      && (!x.phase.Closed? && a in st.leases ==> x.maxExpire <= st.leases[a].expiry)
      && (x.phase.Granted? ==> a in st.leases && x.phase.start + x.phase.ttl <= st.leases[a].expiry)
      && (x.phase.Held? || x.phase.Putting? || x.phase.Won? ==> a in st.leases && x.expire <= st.leases[a].expiry)
      && (!x.phase.Closed? && a in st.leases && !st.leases[a].alive ==> st.now > st.leases[a].expiry)
      && (x.phase.Won? ==> a in st.created)
      && (x.phase.Asked? || x.phase.Granted? || x.phase.Held? ==> a !in st.puts && a !in st.created)
  }

  /** A keep-alive that is answered cannot raise the expire time above etcd's expiry. */
  ghost predicate CallOk(st: State, c: nat) {
    c in st.calls ==>
      var x := st.calls[c];
      && x.attempt in st.leases && x.attempt in st.attempts && x.start <= st.now
      && (x.ttl.Some? ==> x.start + x.ttl.value <= st.leases[x.attempt].expiry)
      && !st.attempts[x.attempt].phase.Asked? && !st.attempts[x.attempt].phase.Granted?
  }

  /** The key is bound to a live lease, and to that of every open attempt whose put has succeeded and whose lease
      is alive. */
  ghost predicate KeyOk(st: State) {
    && (st.key.Some? ==> st.key.value in st.attempts && st.key.value in st.leases && st.leases[st.key.value].alive)
    && (forall a :: Open(st, a) && a in st.created && a in st.leases && st.leases[a].alive ==> st.key == Some(a))
    && (forall a :: a in st.puts || a in st.created ==> a in st.attempts)
  }

  /** etcd counts the TTL from a moment that has passed. */
  ghost predicate LeaseOk(st: State, a: Id) {
    a in st.leases ==> st.leases[a].expiry <= st.now + st.leases[a].ttl
  }

  ghost predicate Inv(st: State) {
    && st.now >= 0
    && (forall a :: LeaseOk(st, a))
    && (forall a :: AttemptOk(st, a))
    && (forall c :: CallOk(st, c))
    && KeyOk(st)
  }

  /** A server has won the campaign and sees its lease unexpired (lease.go:78-80). */
  predicate Leads(st: State, a: Id) {
    a in st.attempts && st.attempts[a].phase.Won? && st.now <= st.attempts[a].expire
  }

  lemma OneLeader(st: State, a: Id, b: Id)
    requires Inv(st) && Leads(st, a) && Leads(st, b)
    ensures a == b
  {
    assert AttemptOk(st, a) && AttemptOk(st, b);
  }

  /** The server has put the key again, under a lease that is still alive. */
  ghost predicate Reelected(st: State, s: Server) {
    exists a :: PutAgain(st, s, a)
  }

  ghost predicate PutAgain(st: State, s: Server, a: Id) {
    Open(st, a) && st.attempts[a].server == s && a in st.created && a in st.leases && st.leases[a].alive
  }

  /** A deletion takes effect before its server has put the key again. */
  ghost predicate Timely(st: State, act: Action) {
    act.ApplyDelete? ==> !Reelected(st, act.s)
  }

  lemma InitInv()
    ensures Inv(Init())
  {
  }

  lemma StepAttempts(st: State, act: Action, a: Id)
    requires Inv(st) && Enabled(st, act)
    ensures AttemptOk(Step(st, act), a)
  {
    assert AttemptOk(st, a);
    if act.Receive? {
      assert CallOk(st, act.c);
    }
    if act.Renew? {
      assert LeaseOk(st, st.calls[act.c].attempt);
    }
  }

  lemma StepLeases(st: State, act: Action, a: Id)
    requires Inv(st) && Enabled(st, act)
    ensures LeaseOk(Step(st, act), a)
  {
    assert LeaseOk(st, a);
  }

  lemma StepCalls(st: State, act: Action, c: nat)
    requires Inv(st) && Enabled(st, act)
    ensures CallOk(Step(st, act), c)
  {
    assert CallOk(st, c);
    if act.Renew? {
      assert CallOk(st, act.c) && LeaseOk(st, st.calls[act.c].attempt);
    }
    if act.Send? || act.Grant? || act.Start? {
      assert AttemptOk(st, act.a);
    }
  }

  lemma StepKey(st: State, act: Action)
    requires Inv(st) && Enabled(st, act) && !act.ApplyDelete?
    ensures KeyOk(Step(st, act))
  {
    if act.Start? || act.Grant? || act.ApplyPut? {
      assert AttemptOk(st, act.a);
    }
    if act.Renew? {
      assert CallOk(st, act.c);
    }
  }

  lemma DeleteKey(st: State, s: Server)
    requires KeyOk(st) && Enabled(st, ApplyDelete(s)) && !Reelected(st, s)
    ensures KeyOk(Step(st, ApplyDelete(s)))
  {
    var st' := Step(st, ApplyDelete(s));
    forall a | Open(st, a) && a in st.created && a in st.leases && st.leases[a].alive ensures st'.key == Some(a) {
      assert !PutAgain(st, s, a);
    }
  }

  lemma StepNow(st: State, act: Action)
    requires st.now >= 0 && Enabled(st, act)
    ensures Step(st, act).now >= 0
  {
  }

  lemma StepInv(st: State, act: Action)
    requires Inv(st) && Enabled(st, act) && Timely(st, act)
    ensures Inv(Step(st, act))
  {
    hide Step;
    StepNow(st, act);
    forall a ensures LeaseOk(Step(st, act), a) { StepLeases(st, act, a); }
    forall a ensures AttemptOk(Step(st, act), a) { StepAttempts(st, act, a); }
    forall c ensures CallOk(Step(st, act), c) { StepCalls(st, act, c); }
    if act.ApplyDelete? { DeleteKey(st, act.s); } else { StepKey(st, act); }
  }

  // ---------- runs ----------

  ghost predicate Legal(st: State, acts: seq<Action>)
    decreases |acts|
  {
    acts == [] || (Enabled(st, acts[0]) && Timely(st, acts[0]) && Legal(Step(st, acts[0]), acts[1..]))
  }

  ghost predicate Possible(st: State, acts: seq<Action>)
    decreases |acts|
  {
    acts == [] || (Enabled(st, acts[0]) && Possible(Step(st, acts[0]), acts[1..]))
  }

  ghost function After(st: State, acts: seq<Action>): State
    requires Possible(st, acts)
    decreases |acts|
  {
    if acts == [] then st else After(Step(st, acts[0]), acts[1..])
  }

  lemma {:induction false} RunInv(st: State, acts: seq<Action>)
    requires Inv(st) && Legal(st, acts)
    ensures Possible(st, acts) && Inv(After(st, acts))
    decreases |acts|
  {
    hide Step, Inv, Enabled, Timely;
    if acts != [] {
      StepInv(st, acts[0]);
      RunInv(Step(st, acts[0]), acts[1..]);
    }
  }

  /** After every run, at most one server has won and sees its lease unexpired, and no server takes its lease to last
      longer than etcd does. */
  lemma RunSafe(acts: seq<Action>)
    requires Legal(Init(), acts)
    ensures Possible(Init(), acts)
    ensures var st := After(Init(), acts);
      && (forall a, b :: Leads(st, a) && Leads(st, b) ==> a == b)
      && (forall a :: a in st.attempts && st.attempts[a].phase.Won? ==> a in st.leases && st.attempts[a].expire <= st.leases[a].expiry)
  {
    hide Step, Enabled, Timely, Leads, After, Legal, Possible;
    InitInv();
    RunInv(Init(), acts);
    var st := After(Init(), acts);
    forall a, b | Leads(st, a) && Leads(st, b) ensures a == b { OneLeader(st, a, b); }
    forall a | a in st.attempts && st.attempts[a].phase.Won? ensures a in st.leases && st.attempts[a].expire <= st.leases[a].expiry {
      assert AttemptOk(st, a);
    }
  }

  // ---------- how long a server takes its lease to last ----------

  /** The lease is granted and not closed. */
  predicate Live(st: State, a: Id) {
    a in st.attempts && (st.attempts[a].phase.Held? || st.attempts[a].phase.Putting? || st.attempts[a].phase.Won?)
  }

  /** The expire time that a step tells an attempt: of the grant, or of the answer to a keep-alive. */
  function Offer(st: State, act: Action, a: Id): seq<Time> {
    match act
    case GrantReply(b) =>
      if b == a && a in st.attempts && st.attempts[a].phase.Granted? then [st.attempts[a].phase.start + st.attempts[a].phase.ttl] else []
    case Receive(c) =>
      if c in st.calls && st.calls[c].attempt == a && st.calls[c].ttl.Some? then [st.calls[c].start + st.calls[c].ttl.value] else []
    case _ => []
  }

  ghost function Offers(st: State, acts: seq<Action>, a: Id): seq<Time>
    requires Possible(st, acts)
    decreases |acts|
  {
    if acts == [] then [] else Offer(st, acts[0], a) + Offers(Step(st, acts[0]), acts[1..], a)
  }

  ghost predicate IsMax(s: seq<Time>, t: Time) {
    t in s && forall x :: x in s ==> x <= t
  }

  /** `told` are the expire times the attempt was told of; those of keep-alives are no earlier than the grant's. */
  ghost predicate ToldOk(st: State, a: Id, told: seq<Time>) {
    && (a !in st.attempts ==> told == [] && a !in st.leases)
    && (a in st.attempts ==>
          var x := st.attempts[a];
          && (x.phase.Asked? ==> told == [] && x.maxExpire == -1 && 0 <= x.phase.start <= st.now && a !in st.leases)
          && (x.phase.Granted? ==>
               told == [] && x.maxExpire == -1 && 0 <= x.phase.start <= st.now && a in st.leases && st.leases[a].ttl == x.phase.ttl)
          && (Live(st, a) ==>
               && told != [] && IsMax(told, x.expire) && a in st.leases && told[0] <= st.now + st.leases[a].ttl
               && (if x.maxExpire == -1 then |told| == 1 else x.maxExpire == x.expire)))
  }

  ghost predicate AnswerOk(st: State, a: Id, told: seq<Time>, c: nat) {
    c in st.calls && st.calls[c].attempt == a ==>
      && a in st.attempts && a in st.leases && (st.attempts[a].phase.Won? || st.attempts[a].phase.Closed?)
      && st.calls[c].start >= 0 && (st.calls[c].ttl.Some? ==> st.calls[c].ttl.value == st.leases[a].ttl)
      && (st.attempts[a].phase.Won? ==> told != [] && told[0] <= st.calls[c].start + st.leases[a].ttl)
  }

  ghost predicate Told(st: State, a: Id, told: seq<Time>) {
    st.now >= 0 && ToldOk(st, a, told) && forall c :: AnswerOk(st, a, told, c)
  }

  lemma StepTold(st: State, act: Action, a: Id, told: seq<Time>)
    requires Told(st, a, told) && Enabled(st, act)
    ensures ToldOk(Step(st, act), a, told + Offer(st, act, a))
  {
    hide Step, Enabled, ToldOk, AnswerOk;
    if act.Receive? {
      AnswerTold(st, act.c, a, told);
    } else if act.GrantReply? {
      GrantTold(st, act.a, a, told);
    } else {
      NothingTold(st, act, a, told);
      assert told + [] == told;
    }
  }

  lemma AnswerTold(st: State, c: nat, a: Id, told: seq<Time>)
    requires Told(st, a, told) && Enabled(st, Receive(c))
    ensures ToldOk(Step(st, Receive(c)), a, told + Offer(st, Receive(c), a))
  {
    assert told + [] == told && AnswerOk(st, a, told, c);
    MaxMore(told, st.calls[c].start + st.calls[c].ttl.value);
  }

  lemma GrantTold(st: State, b: Id, a: Id, told: seq<Time>)
    requires Told(st, a, told) && Enabled(st, GrantReply(b))
    ensures ToldOk(Step(st, GrantReply(b)), a, told + Offer(st, GrantReply(b), a))
  {
    assert told + [] == told;
    MaxMore(told, st.attempts[b].phase.start + st.attempts[b].phase.ttl);
  }

  lemma NothingTold(st: State, act: Action, a: Id, told: seq<Time>)
    requires Told(st, a, told) && Enabled(st, act) && !act.Receive? && !act.GrantReply?
    ensures ToldOk(Step(st, act), a, told)
  {
    hide IsMax;
  }

  lemma MaxMore(s: seq<Time>, t: Time)
    ensures (forall x :: x in s ==> x <= t) ==> IsMax(s + [t], t)
    ensures forall m :: IsMax(s, m) && t <= m ==> IsMax(s + [t], m)
    ensures forall m :: |s| == 1 && IsMax(s, m) ==> m == s[0]
    ensures (s + [t])[0] == if s == [] then t else s[0]
  {
  }

  lemma StepAnswer(st: State, act: Action, a: Id, told: seq<Time>, c: nat)
    requires Told(st, a, told) && Enabled(st, act)
    ensures AnswerOk(Step(st, act), a, told + Offer(st, act, a), c)
  {
    assert told + [] == told;
    assert AnswerOk(st, a, told, c);
  }

  lemma {:induction false} RunTold(st: State, acts: seq<Action>, a: Id, told: seq<Time>)
    requires Told(st, a, told) && Possible(st, acts)
    ensures Told(After(st, acts), a, told + Offers(st, acts, a))
    decreases |acts|
  {
    hide Step, Enabled, Offer, ToldOk, AnswerOk;
    if acts == [] {
      assert told + [] == told;
    } else {
      var st1, more := Step(st, acts[0]), Offer(st, acts[0], a);
      StepNow(st, acts[0]);
      StepTold(st, acts[0], a, told);
      forall c ensures AnswerOk(st1, a, told + more, c) { StepAnswer(st, acts[0], a, told, c); }
      RunTold(st1, acts[1..], a, told + more);
      assert told + more + Offers(st1, acts[1..], a) == told + Offers(st, acts, a);
    }
  }

  /** After every run a server takes its lease, until it closes it, to last to the latest expire time it was told of,
      in whatever order the answers came. */
  lemma RunExpire(acts: seq<Action>, a: Id)
    requires Possible(Init(), acts)
    ensures Live(After(Init(), acts), a) ==> IsMax(Offers(Init(), acts, a), After(Init(), acts).attempts[a].expire)
  {
    hide Step, Enabled, After, Possible, Offers;
    RunTold(Init(), acts, a, []);
    assert [] + Offers(Init(), acts, a) == Offers(Init(), acts, a);
  }

  /** No step but its own close ends a lease for its server or makes it last shorter. */
  lemma RunExpireRises(acts: seq<Action>, act: Action, a: Id)
    requires Possible(Init(), acts) && Live(After(Init(), acts), a) && Enabled(After(Init(), acts), act) && act != Close(a)
    ensures var st := After(Init(), acts);
      Live(Step(st, act), a) && Step(st, act).attempts[a].expire >= st.attempts[a].expire
  {
    hide After, Possible, Offers, Enabled, Step;
    var st, told := After(Init(), acts), Offers(Init(), acts, a);
    RunTold(Init(), acts, a, []);
    assert [] + told == told;
    StaysLive(st, act, a);
    StepTold(st, act, a, told);
    assert st.attempts[a].expire in told + Offer(st, act, a);
  }

  lemma StaysLive(st: State, act: Action, a: Id)
    requires Live(st, a) && Enabled(st, act) && act != Close(a)
    ensures Live(Step(st, act), a)
  {
  }

  // ---------- a deletion that takes effect late ----------

  ghost predicate Reaches(st: State, acts: seq<Action>, st': State) {
    Possible(st, acts) && After(st, acts) == st'
  }

  lemma {:induction false} RunConcat(st: State, a: seq<Action>, mid: State, b: seq<Action>, st': State)
    requires Reaches(st, a, mid) && Reaches(mid, b, st')
    ensures Reaches(st, a + b, st')
    decreases |a|
  {
    hide Step, Enabled;
    if a == [] {
      assert a + b == b;
    } else {
      assert (a + b)[1..] == a[1..] + b;
      RunConcat(Step(st, a[0]), a[1..], mid, b, st');
    }
  }

  lemma Three(st: State, x: Action, y: Action, z: Action)
    requires Enabled(st, x) && Enabled(Step(st, x), y) && Enabled(Step(Step(st, x), y), z)
    ensures Reaches(st, [x, y, z], Step(Step(Step(st, x), y), z))
  {
    hide Step, Enabled, Reaches;
    var s1 := Step(st, x);
    var s2 := Step(s1, y);
    One(st, x);
    One(s1, y);
    One(s2, z);
    RunConcat(s1, [y], s2, [z], Step(s2, z));
    RunConcat(st, [x], s1, [y] + [z], Step(s2, z));
    assert [x] + ([y] + [z]) == [x, y, z];
  }

  lemma One(st: State, x: Action)
    requires Enabled(st, x)
    ensures Reaches(st, [x], Step(st, x))
  {
    hide Step, Enabled;
    var rest := [x][1..];
    assert rest == [];
    assert Possible(Step(st, x), rest) && After(Step(st, x), rest) == Step(st, x);
  }

  /** An election without delays. */
  function Election(a: Id, server: Server, ttl: nat): seq<Action> {
    [Start(a, server), Grant(a, ttl), GrantReply(a)] + [SendPut(a), ApplyPut(a), PutReply(a)]
  }

  function Holding(st: State, a: Id, server: Server, ttl: nat): State {
    st.(leases := st.leases[a := Lease(ttl, st.now + ttl, true)],
        attempts := st.attempts[a := Attempt(server, Held, st.now + ttl, -1)])
  }

  function Elected(st: State, a: Id, server: Server, ttl: nat): State {
    st.(leases := st.leases[a := Lease(ttl, st.now + ttl, true)], key := Some(a),
        attempts := st.attempts[a := Attempt(server, Won, st.now + ttl, -1)], created := st.created + {a})
  }

  ghost predicate Unknown(st: State, a: Id) {
    a !in st.attempts && a !in st.leases && a !in st.puts && a !in st.created
  }

  lemma Obtain(st: State, a: Id, server: Server, ttl: nat)
    requires Unknown(st, a) && !Campaigning(st, server) && ttl > 0
    ensures Reaches(st, [Start(a, server), Grant(a, ttl), GrantReply(a)], Holding(st, a, server, ttl))
  {
    hide Reaches;
    Three(st, Start(a, server), Grant(a, ttl), GrantReply(a));
    var e := Step(Step(Step(st, Start(a, server)), Grant(a, ttl)), GrantReply(a));
    assert e.attempts == Holding(st, a, server, ttl).attempts;
  }

  lemma Win(st: State, a: Id, server: Server, ttl: nat)
    requires Unknown(st, a) && st.key.None?
    ensures Reaches(Holding(st, a, server, ttl), [SendPut(a), ApplyPut(a), PutReply(a)], Elected(st, a, server, ttl))
  {
    hide Reaches;
    Three(Holding(st, a, server, ttl), SendPut(a), ApplyPut(a), PutReply(a));
    var e := Step(Step(Step(Holding(st, a, server, ttl), SendPut(a)), ApplyPut(a)), PutReply(a));
    assert e.puts == st.puts && e.attempts == Elected(st, a, server, ttl).attempts;
  }

  /** Whenever there is no leader key, a server that campaigns undisturbed is elected. */
  lemma Elect(st: State, a: Id, server: Server, ttl: nat)
    requires Unknown(st, a) && st.key.None? && !Campaigning(st, server) && ttl > 0
    ensures Reaches(st, Election(a, server, ttl), Elected(st, a, server, ttl))
  {
    hide Reaches, Holding, Elected;
    Obtain(st, a, server, ttl);
    Win(st, a, server, ttl);
    RunConcat(st, [Start(a, server), Grant(a, ttl), GrantReply(a)], Holding(st, a, server, ttl),
      [SendPut(a), ApplyPut(a), PutReply(a)], Elected(st, a, server, ttl));
  }

  /** What the harm starts from: a put that has succeeded under a live lease, and no key any more. */
  ghost predicate Exposed(st: State, a: Id) {
    && a in st.attempts && (st.attempts[a].phase.Putting? || st.attempts[a].phase.Won?) && a in st.created
    && a in st.leases && st.leases[a].alive && st.key.None?
    && st.attempts[a].maxExpire <= st.now + st.leases[a].ttl
  }

  lemma DeleteExposes(st: State, s: Server, a: Id)
    requires Inv(st) && Enabled(st, ApplyDelete(s)) && PutAgain(st, s, a)
    ensures Exposed(Step(st, ApplyDelete(s)), a)
  {
    assert AttemptOk(st, a) && LeaseOk(st, a);
    assert st.key == Some(a) && KeyOf(st, s);
  }

  /** The attempt has won, and its lease was renewed a moment later. */
  ghost function Renewed(st: State, a: Id): State
    requires a in st.attempts && a in st.leases
  {
    var ttl := st.leases[a].ttl;
    st.(now := st.now + 1, leases := st.leases[a := Lease(ttl, st.now + 1 + ttl, true)],
        attempts := st.attempts[a := st.attempts[a].(phase := Won, expire := st.now + 1 + ttl, maxExpire := st.now + 1 + ttl)])
  }

  ghost function Confirmed(st: State, a: Id): State
    requires a in st.attempts
  {
    SetAttempt(st, a, st.attempts[a].(phase := Won))
  }

  lemma Confirm(st: State, a: Id) returns (acts: seq<Action>)
    requires Exposed(st, a)
    ensures NoDeletes(acts) && Reaches(st, acts, Confirmed(st, a)) && Exposed(Confirmed(st, a), a)
  {
    if st.attempts[a].phase.Putting? {
      acts := [PutReply(a)];
      One(st, PutReply(a));
    } else {
      acts := [];
      assert st.attempts[a := st.attempts[a]] == st.attempts;
      assert Confirmed(st, a) == st;
    }
  }

  lemma Renewal(st: State, a: Id, c: nat)
    requires Exposed(st, a) && st.attempts[a].phase.Won? && c !in st.calls
    ensures Reaches(st, [Tick(1), Send(c, a), Renew(c)] + [Receive(c)], Renewed(st, a))
  {
    hide Reaches;
    var ttl, x := st.leases[a].ttl, st.attempts[a];
    var mid := st.(now := st.now + 1, leases := st.leases[a := Lease(ttl, st.now + 1 + ttl, true)],
                   calls := st.calls[c := Call(a, st.now + 1, Some(ttl))]);
    RenewalSent(st, a, c);
    One(mid, Receive(c));
    var e := Step(mid, Receive(c));
    assert e.calls == st.calls && e.attempts == Renewed(st, a).attempts;
    RunConcat(st, [Tick(1), Send(c, a), Renew(c)], mid, [Receive(c)], Renewed(st, a));
  }

  lemma RenewalSent(st: State, a: Id, c: nat)
    requires Exposed(st, a) && st.attempts[a].phase.Won? && c !in st.calls
    ensures var ttl := st.leases[a].ttl;
      Reaches(st, [Tick(1), Send(c, a), Renew(c)],
        st.(now := st.now + 1, leases := st.leases[a := Lease(ttl, st.now + 1 + ttl, true)],
            calls := st.calls[c := Call(a, st.now + 1, Some(ttl))]))
  {
    hide Reaches;
    Three(st, Tick(1), Send(c, a), Renew(c));
    var ttl := st.leases[a].ttl;
    var e := Step(Step(Step(st, Tick(1)), Send(c, a)), Renew(c));
    assert e.calls == st.calls[c := Call(a, st.now + 1, Some(ttl))];
  }

  /** Some number is not in a finite set. */
  lemma {:induction false} Fresh(s: set<nat>) returns (n: nat)
    ensures forall k :: k in s ==> k < n
    decreases |s|
  {
    if s == {} {
      n := 0;
    } else {
      var x :| x in s;
      var m := Fresh(s - {x});
      n := if m > x then m else x + 1;
      forall k | k in s ensures k < n { assert k == x || k in s - {x}; }
    }
  }

  lemma FreshId(st: State) returns (b: Id, server: Server, c: nat)
    ensures Unknown(st, b) && !Campaigning(st, server) && c !in st.calls
  {
    b := Fresh(st.attempts.Keys + st.leases.Keys + st.puts + st.created);
    var servers := set a | a in st.attempts :: st.attempts[a].server;
    server := Fresh(servers);
    forall a | a in st.attempts ensures st.attempts[a].server != server { assert st.attempts[a].server in servers; }
    c := Fresh(st.calls.Keys);
  }

  /** From an exposed state a second server is elected while the first still leads. */
  lemma Harm(st: State, a: Id) returns (acts: seq<Action>, st': State, b: Id)
    requires Exposed(st, a)
    ensures NoDeletes(acts) && Reaches(st, acts, st') && a != b && Leads(st', a) && Leads(st', b)
  {
    hide Reaches, Step, Enabled;
    var st1 := Confirmed(st, a);
    acts := Confirm(st, a);
    var c, server;
    b, server, c := FreshId(st1);
    var st2 := Renewed(st1, a);
    Renewal(st1, a, c);
    var renewal := [Tick(1), Send(c, a), Renew(c)] + [Receive(c)];
    RunConcat(st, acts, st1, renewal, st2);
    StillFresh(st1, a, b, server);
    Elect(st2, b, server, 10);
    st' := Elected(st2, b, server, 10);
    RunConcat(st, acts + renewal, st2, Election(b, server, 10), st');
    acts := acts + renewal + Election(b, server, 10);
  }

  lemma StillFresh(st: State, a: Id, b: Id, server: Server)
    requires Exposed(st, a) && Unknown(st, b) && !Campaigning(st, server)
    ensures Unknown(Renewed(st, a), b) && !Campaigning(Renewed(st, a), server) && Renewed(st, a).key.None? && a != b
  {
    var st' := Renewed(st, a);
    forall x | Open(st', x) ensures Open(st, x) && st.attempts[x].server == st'.attempts[x].server {
    }
  }

  ghost predicate NoDeletes(acts: seq<Action>) {
    forall i :: 0 <= i < |acts| ==> !acts[i].ApplyDelete?
  }

  lemma {:induction false} LegalWithout(st: State, acts: seq<Action>)
    requires NoDeletes(acts) && Possible(st, acts)
    ensures Legal(st, acts)
    decreases |acts|
  {
    hide Step, Enabled;
    if acts != [] { LegalWithout(Step(st, acts[0]), acts[1..]); }
  }

  ghost predicate OneLeads(st: State) {
    forall a, b :: Leads(st, a) && Leads(st, b) ==> a == b
  }

  /** Whatever follows, without another such deletion, at most one server leads. */
  ghost predicate SafeFrom(st: State) {
    forall acts, st' :: Legal(st, acts) && Reaches(st, acts, st') ==> OneLeads(st')
  }

  lemma InvSafe(st: State)
    requires Inv(st)
    ensures SafeFrom(st)
  {
    hide Inv, Legal, Possible, After, Leads;
    forall acts, st' | Legal(st, acts) && Reaches(st, acts, st') ensures OneLeads(st') {
      RunInv(st, acts);
      forall a, b | Leads(st', a) && Leads(st', b) ensures a == b { OneLeader(st', a, b); }
    }
  }

  /** In every reachable state, a deletion of the leader key leaves at most one leader for ever exactly if its server
      has not put the key again under a live lease; otherwise two servers can lead at once. */
  lemma DeleteSafeIff(acts: seq<Action>, st: State, s: Server)
    requires Legal(Init(), acts) && Reaches(Init(), acts, st) && Enabled(st, ApplyDelete(s))
    ensures SafeFrom(Step(st, ApplyDelete(s))) <==> !Reelected(st, s)
  {
    hide Inv, Legal, After, Possible, Step, Leads, Enabled, Exposed, PutAgain;
    InitInv();
    RunInv(Init(), acts);
    var st1 := Step(st, ApplyDelete(s));
    if Reelected(st, s) {
      var a :| PutAgain(st, s, a);
      DeleteExposes(st, s, a);
      var cont, st', b := Harm(st1, a);
      LegalWithout(st1, cont);
      assert !OneLeads(st');
    } else {
      StepInv(st, ApplyDelete(s));
      InvSafe(st1);
    }
  }

  /** From every reachable state some server can come to lead: when the lease that the leader key is bound to has
      expired, etcd drops the key, and a campaign is won. */
  lemma Available(acts: seq<Action>, st: State) returns (cont: seq<Action>, st': State, b: Id)
    requires Legal(Init(), acts) && Reaches(Init(), acts, st)
    ensures Legal(st, cont) && Reaches(st, cont, st') && Leads(st', b)
  {
    hide Inv, Legal, After, Possible, Step, Enabled, Leads, Campaigning, Unknown;
    InitInv();
    RunInv(Init(), acts);
    var first, st1 := KeyExpires(st);
    var server, c;
    b, server, c := FreshId(st1);
    Elect(st1, b, server, 1);
    st' := Elected(st1, b, server, 1);
    cont := first + Election(b, server, 1);
    RunConcat(st, first, st1, Election(b, server, 1), st');
    assert Leads(st', b) by { WonLeads(st1, b, server); }
    LegalWithout(st, cont);
  }

  lemma WonLeads(st: State, b: Id, server: Server)
    ensures Leads(Elected(st, b, server, 1), b)
  {
  }

  lemma KeyExpires(st: State) returns (acts: seq<Action>, st': State)
    requires Inv(st)
    ensures Reaches(st, acts, st') && st'.key.None? && NoDeletes(acts)
  {
    if st.key.None? {
      acts, st' := [], st;
    } else {
      var a := st.key.value;
      var d: nat := if st.leases[a].expiry >= st.now then st.leases[a].expiry - st.now + 1 else 0;
      var st1 := Step(st, Tick(d));
      One(st, Tick(d));
      One(st1, Expire(a));
      st' := Step(st1, Expire(a));
      acts := [Tick(d)] + [Expire(a)];
      RunConcat(st, [Tick(d)], st1, [Expire(a)], st');
    }
  }

  /** Such states are reached: server 1 was elected, has stepped down with a deletion of its old key under way, and is
      elected again. */
  function SteppedDown(): State {
    State(0, map[0 := Lease(10, 10, false)], None, map[0 := Attempt(1, Closed, -1, -1)], {}, {0}, map[], multiset{1})
  }

  /** The first election of server 1 after it has returned, and after the deletion is sent. */
  function JustClosed(): State {
    State(0, map[0 := Lease(10, 10, true)], Some(0), map[0 := Attempt(1, Closed, -1, -1)], {}, {0}, map[], multiset{})
  }

  lemma StepDown()
    ensures Reaches(Elected(Init(), 0, 1, 10), [Close(0)] + ([SendDelete(1)] + [Revoke(0)]), SteppedDown())
  {
    hide Reaches, Step, Enabled;
    var st, st1 := Elected(Init(), 0, 1, 10), JustClosed();
    var st2 := st1.(deletes := multiset{1});
    ClosedState();
    DeleteSent();
    LeaseRevoked();
    One(st, Close(0));
    One(st1, SendDelete(1));
    One(st2, Revoke(0));
    RunConcat(st1, [SendDelete(1)], st2, [Revoke(0)], SteppedDown());
    RunConcat(st, [Close(0)], st1, [SendDelete(1)] + [Revoke(0)], SteppedDown());
  }

  lemma ClosedState()
    ensures var st := Elected(Init(), 0, 1, 10);
      Enabled(st, Close(0)) && Step(st, Close(0)) == JustClosed()
  {
    var st := Elected(Init(), 0, 1, 10);
    assert Step(st, Close(0)).attempts == JustClosed().attempts;
  }

  lemma DeleteSent()
    ensures Enabled(JustClosed(), SendDelete(1)) && Step(JustClosed(), SendDelete(1)) == JustClosed().(deletes := multiset{1})
  {
  }

  lemma LeaseRevoked()
    ensures var st := JustClosed().(deletes := multiset{1});
      Enabled(st, Revoke(0)) && Step(st, Revoke(0)) == SteppedDown()
  {
    var st := JustClosed().(deletes := multiset{1});
    assert Step(st, Revoke(0)).leases == SteppedDown().leases;
  }

  /** With a late deletion two servers do lead at once. */
  lemma TwoLeaders() returns (acts: seq<Action>, st: State, a: Id, b: Id)
    ensures Reaches(Init(), acts, st) && Leads(st, a) && Leads(st, b) && a != b
  {
    hide Reaches, Enabled, Step, NoDeletes, Leads;
    var st1, st2 := Elected(Init(), 0, 1, 10), SteppedDown();
    var st3 := Elected(st2, 1, 1, 10);
    Elect(Init(), 0, 1, 10);
    StepDown();
    Elect(st2, 1, 1, 10);
    DeleteLate();
    One(st3, ApplyDelete(1));
    var st4 := Step(st3, ApplyDelete(1));
    a := 1;
    acts, st, b := Harm(st4, 1);
    var down := [Close(0)] + ([SendDelete(1)] + [Revoke(0)]);
    RunConcat(st3, [ApplyDelete(1)], st4, acts, st);
    acts := [ApplyDelete(1)] + acts;
    RunConcat(st2, Election(1, 1, 10), st3, acts, st);
    acts := Election(1, 1, 10) + acts;
    RunConcat(st1, down, st2, acts, st);
    acts := down + acts;
    RunConcat(Init(), Election(0, 1, 10), st1, acts, st);
    acts := Election(0, 1, 10) + acts;
  }

  lemma DeleteLate()
    ensures var st := Elected(SteppedDown(), 1, 1, 10);
      Enabled(st, ApplyDelete(1)) && Exposed(Step(st, ApplyDelete(1)), 1)
  {
  }
}
