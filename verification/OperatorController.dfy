/** server/schedule/operator_controller.go: admitting operators to the waiting queue and promoting them. Every group
    that is put in is promoted, cancelled or still waiting, and the counters say how many wait. */
module OperatorController {
  import opened WaitingOperator

  /** The epoch of a region: version and conf version. */
  datatype Epoch = Epoch(version: nat, confVer: nat)

  type Cluster = map<nat, Epoch>

  /** `checkAddOperator` (operator_controller.go:300-317). */
  predicate CheckAdd(cluster: Cluster, running: map<nat, Op>, g: Group) {
    forall i :: 0 <= i < |g| ==>
      && g[i].region in cluster
      && cluster[g[i].region] == Epoch(g[i].version, g[i].confVer)
      && (g[i].region in running ==> g[i].priority > running[g[i].region].priority)
  }

  /** Why an operator is not admitted: its region is not in the cluster or at another epoch, or an operator of the same
      or a higher priority runs for it. */
  predicate Objection(cluster: Cluster, running: map<nat, Op>, op: Op) {
    || op.region !in cluster
    || cluster[op.region].version != op.version || cluster[op.region].confVer != op.confVer
    || (op.region in running && running[op.region].priority >= op.priority)
  }

  lemma CheckAddIff(cluster: Cluster, running: map<nat, Op>, g: Group)
    ensures CheckAdd(cluster, running, g) <==> forall op :: op in g ==> !Objection(cluster, running, op)
  {
    assert forall i :: 0 <= i < |g| ==> g[i] in g;
  }

  /** What runs after a group was admitted: its operators, at the epochs of their regions and in place only of
      operators of lower priority; for all other regions what ran before. */
  ghost predicate Replaced(cluster: Cluster, was: map<nat, Op>, now: map<nat, Op>, g: Group) {
    && now.Keys == was.Keys + (set op | op in g :: op.region)
    && forall region :: region in now ==>
         if exists op :: op in g && op.region == region then
           && now[region] in g && now[region].region == region && region in cluster
           && cluster[region] == Epoch(now[region].version, now[region].confVer)
           && (region in was ==> now[region].priority > was[region].priority)
         else region in was && now[region] == was[region]
  }

  lemma RunReplaces(cluster: Cluster, running: map<nat, Op>, g: Group)
    requires CheckAdd(cluster, running, g)
    ensures Replaced(cluster, running, Run(running, g), g)
  {
    hide CheckAdd;
    CheckAddIff(cluster, running, g);
    RunIs(running, g);
    forall op | op in g ensures !Objection(cluster, running, op) {
    }
  }

  /** Each of the group's regions has an operator of the group for it. */
  lemma {:induction false} RunIs(running: map<nat, Op>, g: Group)
    ensures Run(running, g).Keys == running.Keys + (set op | op in g :: op.region)
    ensures forall region :: region in Run(running, g) ==>
      if exists op :: op in g && op.region == region then Run(running, g)[region] in g && Run(running, g)[region].region == region
      else region in running && Run(running, g)[region] == running[region]
    decreases |g|
  {
    if g != [] {
      var n := |g| - 1;
      RunIs(running, g[..n]);
      assert g == g[..n] + [g[n]];
    }
  }

  // ---------- counting groups ----------

  function Desc(g: Group): string {
    if g == [] then "" else g[0].desc
  }

  /** How many groups of the multiset have the description. */
  ghost function Tally(m: multiset<Group>, desc: string): nat
    decreases |m|
  {
    if m == multiset{} then 0
    else
      var g :| g in m;
      Tally(m - multiset{g}, desc) + if Desc(g) == desc then 1 else 0
  }

  lemma TallyPick(m: multiset<Group>, desc: string) returns (x: Group)
    requires m != multiset{}
    ensures x in m && Tally(m, desc) == Tally(m - multiset{x}, desc) + if Desc(x) == desc then 1 else 0
  {
    hide Desc;
    x :| x in m && Tally(m, desc) == Tally(m - multiset{x}, desc) + if Desc(x) == desc then 1 else 0;
  }

  lemma {:induction false} TallyAdd(m: multiset<Group>, g: Group, desc: string)
    ensures Tally(m + multiset{g}, desc) == Tally(m, desc) + if Desc(g) == desc then 1 else 0
    decreases |m|
  {
    hide Desc, Tally;
    var x := TallyPick(m + multiset{g}, desc);
    if x == g {
      assert m + multiset{g} - multiset{x} == m;
    } else {
      var l := m - multiset{x};
      assert l + multiset{x} == m && m + multiset{g} - multiset{x} == l + multiset{g};
      TallyAdd(l, x, desc);
      TallyAdd(l, g, desc);
    }
  }

  // ---------- the controller ----------

  class OperatorController {
    const wop: RandBuckets
    var status: map<string, nat>           // wopStatus.ops
    var running: map<nat, Op>              // by region

    ghost var put: multiset<Group>         // what has gone into the waiting queue
    ghost var promoted: multiset<Group>
    ghost var cancelled: multiset<Group>
    ghost var top: nat                     // the largest limit that was configured when a group came in

    ghost function Waits(): multiset<Group>
      requires wop.Valid()
      reads this, wop
    {
      Waiting(wop.buckets)
    }

    /** Each group that was put in is in exactly one place, and each counter is the number of waiting groups with its
        description, within the largest limit there was. */
    ghost predicate Valid()
      reads this, wop
    {
      && wop.Valid()
      && Ledger(put, promoted, cancelled, Waits())
      && CountsOk(status, Waits(), top)
    }

    constructor ()
      ensures Valid() && fresh(wop) && put == multiset{} && running == map[] && top == 0
    {
      wop := new RandBuckets();
      status, running := map[], map[];
      put, promoted, cancelled := multiset{}, multiset{}, multiset{};
      top := 0;
    }

    /** Takes a group out and uncounts it. */
    method TakeOne(r: real) returns (ops: Group)
      requires wop.Valid() && CountsOk(status, Waits(), top) && 0.0 <= r < 1.0
      modifies wop, this`status
      ensures wop.Valid() && CountsOk(status, Waits(), top)
      ensures if ops == [] then Waits() == old(Waits()) == multiset{} else GroupOk(ops) && old(Waits()) == Waits() + multiset{ops}
    {
      hide Tally, RandBuckets.Valid, GroupOk, Waiting, Desc, CountsOk;
      ghost var waits := Waits();
      ghost var at;
      ops, at := wop.GetOperator(r);
      if ops != [] {
        OneFewer(waits, Waits(), ops, status, top);
        status := status[Desc(ops) := At(status, Desc(ops)) - 1];
      }
    }

    /** `PromoteWaitingOperator` (operator_controller.go:267-293): takes groups out until one is admitted or none is
        left. `exceeds` is the store limit, `rand` the random numbers. */
    method PromoteWaitingOperator(cluster: Cluster, exceeds: Group -> bool, rand: nat -> real)
      returns (res: Group, ghost dropped: multiset<Group>)
      requires Valid() && forall n :: 0.0 <= rand(n) < 1.0
      modifies this, wop
      ensures Valid() && put == old(put) && top == old(top)
      ensures cancelled == old(cancelled) + dropped && AllRefused(dropped, cluster, old(running), exceeds)
      ensures res == [] ==> promoted == old(promoted) && running == old(running) && Waits() == multiset{}
      ensures res != [] ==> promoted == old(promoted) + multiset{res} && running == Run(old(running), res)
      ensures res != [] ==> Admitted(old(Waits()), res, cluster, old(running), exceeds)
      ensures Replaced(cluster, old(running), running, res)
    {
      hide RandBuckets.Valid, GroupOk, Waiting, Run, CountsOk, CheckAdd, Ledger, AllRefused, Within, Replaced;
      AllWithin(Waits());
      assert cancelled + multiset{} == cancelled;
      var n := 0;
      dropped := multiset{};
      NoneRefused(cluster, running, exceeds);
      while true
        modifies this, wop
        invariant Valid() && put == old(put) && top == old(top) && promoted == old(promoted) && running == old(running)
        invariant cancelled == old(cancelled) + dropped && AllRefused(dropped, cluster, running, exceeds)
        invariant Within(Waits(), old(Waits()))
        decreases |Waits()|
      {
        ghost var waits := Waits();
        res := TakeOne(rand(n));
        n := n + 1;
        if res == [] {
          NoneReplaced(cluster, running);
          return;
        }
        LedgerMoves(put, promoted, cancelled, waits, Waits(), res);
        Taken(old(Waits()), waits, Waits(), res);
        if exceeds(res) || !CheckAdd(cluster, running, res) {
          RefusedMore(dropped, res, cluster, running, exceeds);
          Regrouped(old(cancelled), dropped, multiset{res});
          cancelled := cancelled + multiset{res};
          dropped := dropped + multiset{res};
          continue;
        }
        promoted := promoted + multiset{res};
        RunReplaces(cluster, running, res);
        running := Run(running, res);
        return;
      }
    }

    /** `AddWaitingOperator` (operator_controller.go:217-246). `limit` is the limit per description at this call. */
    method AddWaitingOperator(g: Group, limit: nat, cluster: Cluster, exceeds: Group -> bool, rand: nat -> real)
      returns (ok: bool, res: Group, ghost dropped: multiset<Group>)
      requires Valid() && GroupOk(g) && forall n :: 0.0 <= rand(n) < 1.0
      modifies this, wop
      ensures Valid() && top == if limit > old(top) then limit else old(top)
      ensures ok <==> CheckAdd(cluster, old(running), g) && At(old(status), g[0].desc) < limit
      ensures put == old(put) + if ok then multiset{g} else multiset{}
      ensures !ok ==> Waits() == old(Waits()) && running == old(running) && status == old(status) && promoted == old(promoted)
      ensures cancelled == old(cancelled) + dropped && AllRefused(dropped, cluster, old(running), exceeds)
      ensures ok && res == [] ==> promoted == old(promoted) && running == old(running) && Waits() == multiset{}
      ensures ok && res != [] ==> promoted == old(promoted) + multiset{res} && running == Run(old(running), res)
      ensures ok && res != [] ==> Admitted(old(Waits()) + multiset{g}, res, cluster, old(running), exceeds)
      ensures ok ==> Replaced(cluster, old(running), running, res)
    {
      hide Replaced, CheckAdd, RandBuckets.Valid, GroupOk, Waiting, CountsOk, Desc, AllRefused, Admitted, Run, Ledger;
      assert cancelled + multiset{} == cancelled && put + multiset{} == put;
      ok, res, dropped := false, [], multiset{};
      NoneRefused(cluster, running, exceeds);
      CountsWithin(status, Waits(), top, limit);
      DescIs(g);
      top := if limit > top then limit else top;
      if !CheckAdd(cluster, running, g) { return; }
      if At(status, Desc(g)) >= limit { return; }
      Enqueue(g);
      res, dropped := PromoteWaitingOperator(cluster, exceeds, rand);
      ok := true;
    }

    /** The group goes into the waiting queue and is counted. */
    method Enqueue(g: Group)
      requires Valid() && GroupOk(g) && At(status, Desc(g)) < top
      modifies wop, this`put, this`status
      ensures Valid() && put == old(put) + multiset{g} && Waits() == old(Waits()) + multiset{g}
    {
      hide RandBuckets.Valid, GroupOk, Waiting, CountsOk, Desc, Ledger, At;
      var desc := Desc(g);
      OneWaitsMore(Waits(), g, status, top);
      LedgerPut(put, promoted, cancelled, Waits(), g);
      wop.PutGroup(g);
      put := put + multiset{g};
      status := status[desc := At(status, desc) + 1];
    }
  }

  lemma DescIs(g: Group)
    requires GroupOk(g)
    ensures g != [] && Desc(g) == g[0].desc
  {
  }

  function At(status: map<string, nat>, desc: string): nat {
    if desc in status then status[desc] else 0
  }

  /** `addOperatorLocked` of each (operator_controller.go:323-338): it takes the place of what ran for its region. */
  function Run(running: map<nat, Op>, g: Group): map<nat, Op>
    decreases |g|
  {
    if g == [] then running else Run(running, g[..|g| - 1])[g[|g| - 1].region := g[|g| - 1]]
  }

  ghost predicate Admitted(waits: multiset<Group>, g: Group, cluster: Cluster, running: map<nat, Op>, exceeds: Group -> bool) {
    g in waits && CheckAdd(cluster, running, g) && !exceeds(g)
  }

  ghost predicate Refused(g: Group, cluster: Cluster, running: map<nat, Op>, exceeds: Group -> bool) {
    exceeds(g) || !CheckAdd(cluster, running, g)
  }

  ghost predicate AllRefused(gs: multiset<Group>, cluster: Cluster, running: map<nat, Op>, exceeds: Group -> bool) {
    forall g :: g in gs ==> Refused(g, cluster, running, exceeds)
  }

  lemma NoneReplaced(cluster: Cluster, running: map<nat, Op>)
    ensures Replaced(cluster, running, running, [])
  {
  }

  lemma Regrouped(a: multiset<Group>, b: multiset<Group>, c: multiset<Group>)
    ensures a + (b + c) == a + b + c
  {
  }

  lemma NoneRefused(cluster: Cluster, running: map<nat, Op>, exceeds: Group -> bool)
    ensures AllRefused(multiset{}, cluster, running, exceeds)
  {
  }

  lemma RefusedMore(gs: multiset<Group>, g: Group, cluster: Cluster, running: map<nat, Op>, exceeds: Group -> bool)
    requires AllRefused(gs, cluster, running, exceeds) && Refused(g, cluster, running, exceeds)
    ensures AllRefused(gs + multiset{g}, cluster, running, exceeds)
  {
  }

  ghost predicate Ledger(put: multiset<Group>, promoted: multiset<Group>, cancelled: multiset<Group>, waits: multiset<Group>) {
    put == promoted + cancelled + waits
  }

  ghost predicate CountsOk(status: map<string, nat>, waits: multiset<Group>, limit: nat) {
    forall desc :: At(status, desc) == Tally(waits, desc) <= limit
  }

  lemma LedgerMoves(put: multiset<Group>, promoted: multiset<Group>, cancelled: multiset<Group>, was: multiset<Group>, now: multiset<Group>, g: Group)
    requires Ledger(put, promoted, cancelled, was) && was == now + multiset{g}
    ensures Ledger(put, promoted + multiset{g}, cancelled, now) && Ledger(put, promoted, cancelled + multiset{g}, now)
  {
  }

  lemma LedgerPut(put: multiset<Group>, promoted: multiset<Group>, cancelled: multiset<Group>, waits: multiset<Group>, g: Group)
    requires Ledger(put, promoted, cancelled, waits)
    ensures Ledger(put + multiset{g}, promoted, cancelled, waits + multiset{g})
  {
  }

  ghost predicate Within(a: multiset<Group>, b: multiset<Group>) {
    a <= b
  }

  lemma AllWithin(a: multiset<Group>)
    ensures Within(a, a)
  {
  }

  lemma Taken(all: multiset<Group>, was: multiset<Group>, now: multiset<Group>, g: Group)
    requires Within(was, all) && was == now + multiset{g}
    ensures Within(now, all) && g in all && |now| < |was|
  {
  }

  /** A group that leaves was counted. */
  lemma OneFewer(was: multiset<Group>, now: multiset<Group>, g: Group, status: map<string, nat>, limit: nat)
    requires was == now + multiset{g} && CountsOk(status, was, limit)
    ensures At(status, Desc(g)) >= 1
    ensures CountsOk(status[Desc(g) := At(status, Desc(g)) - 1], now, limit)
  {
    hide Tally, Desc;
    forall desc ensures Tally(was, desc) == Tally(now, desc) + if Desc(g) == desc then 1 else 0 { TallyAdd(now, g, desc); }
  }

  lemma CountsWithin(status: map<string, nat>, waits: multiset<Group>, limit: nat, other: nat)
    requires CountsOk(status, waits, limit)
    ensures CountsOk(status, waits, if other > limit then other else limit)
  {
  }

  lemma OneWaitsMore(was: multiset<Group>, g: Group, status: map<string, nat>, limit: nat)
    requires CountsOk(status, was, limit) && At(status, Desc(g)) < limit
    ensures CountsOk(status[Desc(g) := At(status, Desc(g)) + 1], was + multiset{g}, limit)
  {
    hide Tally, Desc;
    forall desc ensures Tally(was + multiset{g}, desc) == Tally(was, desc) + if Desc(g) == desc then 1 else 0 { TallyAdd(was, g, desc); }
  }
}
