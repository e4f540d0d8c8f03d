/** server/schedule/waiting_operator.go: operators waiting in one bucket per priority, taken at random by weight.
    Merges come in pairs that stay together. The random number is a parameter, weights are reals. */
module WaitingOperator {
  /** What of an operator the waiting queue and the admission look at. */
  datatype Op = Op(id: nat, region: nat, version: nat, confVer: nat, desc: string, priority: nat, merge: bool)

  const PRIORITIES := 3

  /** `PriorityWeight`. */
  function Weight(priority: nat): real {
    if priority == 0 then 1.0 else if priority == 1 then 4.0 else 9.0
  }

  // ---------- groups ----------

  /** What is submitted together: one operator, or the two of a merge. */
  type Group = seq<Op>

  predicate GroupOk(g: Group) {
    && (|g| == 1 || |g| == 2)
    && (forall i :: 0 <= i < |g| ==> g[i].priority < PRIORITIES && g[i].priority == g[0].priority && g[i].merge == (|g| == 2))
  }

  /** How many operators are taken from the front of a bucket. */
  function TakeCount(ops: seq<Op>): nat {
    if ops == [] then 0 else if ops[0].merge then 2 else 1
  }

  /** Singles and whole pairs, one behind the other. */
  ghost predicate Grouped(ops: seq<Op>)
    decreases |ops|
  {
    ops == [] || (TakeCount(ops) <= |ops| && GroupOk(ops[..TakeCount(ops)]) && Grouped(ops[TakeCount(ops)..]))
  }

  ghost function Groups(ops: seq<Op>): seq<Group>
    requires Grouped(ops)
    decreases |ops|
  {
    if ops == [] then [] else [ops[..TakeCount(ops)]] + Groups(ops[TakeCount(ops)..])
  }

  lemma TakeFirst(ops: seq<Op>)
    requires Grouped(ops) && ops != []
    ensures TakeCount(ops) <= |ops| && GroupOk(ops[..TakeCount(ops)]) && Grouped(ops[TakeCount(ops)..])
    ensures Groups(ops) == [ops[..TakeCount(ops)]] + Groups(ops[TakeCount(ops)..])
  {
    hide GroupOk;
  }

  lemma GroupsFold(ops: seq<Op>)
    requires ops != [] && TakeCount(ops) <= |ops| && GroupOk(ops[..TakeCount(ops)]) && Grouped(ops[TakeCount(ops)..])
    ensures Grouped(ops) && Groups(ops) == [ops[..TakeCount(ops)]] + Groups(ops[TakeCount(ops)..])
  {
    hide GroupOk;
  }

  lemma NoGroups()
    ensures Grouped([]) && Groups([]) == []
  {
  }

  lemma WholeGroup(g: Group)
    requires GroupOk(g)
    ensures g != [] && TakeCount(g) == |g|
  {
  }

  /** A group put behind whole groups is one more of them. */
  lemma {:induction false} GroupsAppend(ops: seq<Op>, g: Group)
    requires Grouped(ops) && GroupOk(g)
    ensures Grouped(ops + g) && Groups(ops + g) == Groups(ops) + [g]
    decreases |ops|
  {
    hide Grouped, Groups, GroupOk;
    if ops == [] {
      NoGroups();
      WholeGroup(g);
      assert ops + g == g && g[..|g|] == g && g[|g|..] == [];
      GroupsFold(g);
    } else {
      var n := TakeCount(ops);
      TakeFirst(ops);
      assert (ops + g)[..n] == ops[..n] && (ops + g)[n..] == ops[n..] + g;
      GroupsAppend(ops[n..], g);
      GroupsFold(ops + g);
      Regroup([ops[..n]], Groups(ops[n..]), [g]);
    }
  }

  lemma Regroup(a: seq<Group>, b: seq<Group>, c: seq<Group>)
    ensures a + (b + c) == a + b + c
  {
  }

  // ---------- buckets ----------

  type Buckets = seq<seq<Op>>

  ghost predicate BucketsOk(bs: Buckets) {
    |bs| == PRIORITIES && forall i :: 0 <= i < |bs| ==> Grouped(bs[i])
  }

  /** The weight of the nonempty ones of the first `n` buckets. */
  ghost function WeightBelow(bs: Buckets, n: nat): real
    requires n <= |bs|
  {
    if n == 0 then 0.0 else WeightBelow(bs, n - 1) + if bs[n-1] == [] then 0.0 else Weight(n - 1)
  }

  lemma {:induction false} WeightGrows(bs: Buckets, m: nat, n: nat)
    requires m <= n <= |bs|
    ensures 0.0 <= WeightBelow(bs, m) <= WeightBelow(bs, n)
    ensures (exists i :: m <= i < n && bs[i] != []) ==> WeightBelow(bs, m) < WeightBelow(bs, n)
    ensures (forall i :: m <= i < n ==> bs[i] == []) ==> WeightBelow(bs, m) == WeightBelow(bs, n)
    decreases n
  {
    if n > m {
      WeightGrows(bs, m, n - 1);
    } else if m > 0 {
      WeightGrows(bs, m - 1, m - 1);
    }
  }

  lemma {:induction false} WeightSet(bs: Buckets, i: nat, ops: seq<Op>, n: nat)
    requires i < |bs| && n <= |bs|
    ensures WeightBelow(bs[i := ops], n) == WeightBelow(bs, n)
      + if i < n then (if ops == [] then 0.0 else Weight(i)) - (if bs[i] == [] then 0.0 else Weight(i)) else 0.0
    decreases n
  {
    if n > 0 { WeightSet(bs, i, ops, n - 1); }
  }

  // ---------- all groups ----------

  /** The groups of all buckets. */
  ghost function Waiting(bs: Buckets): multiset<Group>
    requires BucketsOk(bs)
  {
    multiset(Groups(bs[0])) + multiset(Groups(bs[1])) + multiset(Groups(bs[2]))
  }

  lemma WaitingPut(bs: Buckets, i: nat, g: Group)
    requires BucketsOk(bs) && i < PRIORITIES && GroupOk(g)
    ensures BucketsOk(bs[i := bs[i] + g]) && Waiting(bs[i := bs[i] + g]) == Waiting(bs) + multiset{g}
  {
    hide Grouped, Groups, GroupOk;
    GroupsAppend(bs[i], g);
    assert multiset(Groups(bs[i]) + [g]) == multiset(Groups(bs[i])) + multiset{g};
  }

  lemma WaitingTake(bs: Buckets, i: nat)
    requires BucketsOk(bs) && i < PRIORITIES && bs[i] != []
    ensures var n := TakeCount(bs[i]);
      && n <= |bs[i]| && GroupOk(bs[i][..n])
      && BucketsOk(bs[i := bs[i][n..]]) && Waiting(bs) == Waiting(bs[i := bs[i][n..]]) + multiset{bs[i][..n]}
  {
    hide Grouped, Groups, GroupOk;
    var n := TakeCount(bs[i]);
    TakeFirst(bs[i]);
    OneMore(bs[i][..n], Groups(bs[i][n..]));
  }

  lemma OneMore(g: Group, gs: seq<Group>)
    ensures multiset([g] + gs) == multiset(gs) + multiset{g}
  {
  }

  // ---------- the class ----------

  class RandBuckets {
    var totalWeight: real
    var buckets: Buckets

    /** Whole groups only, and the total is the weight of the nonempty buckets. */
    ghost predicate Valid()
      reads this
    {
      BucketsOk(buckets) && totalWeight == WeightBelow(buckets, PRIORITIES)
    }

    constructor ()
      ensures Valid() && Waiting(buckets) == multiset{}
    {
      totalWeight := 0.0;
      buckets := [[], [], []];
      new;
      assert WeightBelow(buckets, 0) == WeightBelow(buckets, 1) == WeightBelow(buckets, 2) == WeightBelow(buckets, 3) == 0.0;
    }

    /** `PutOperator` (waiting_operator.go:57-64). */
    method PutOperator(op: Op)
      requires |buckets| == PRIORITIES && op.priority < PRIORITIES && totalWeight == WeightBelow(buckets, PRIORITIES)
      modifies this
      ensures buckets == old(buckets)[op.priority := old(buckets)[op.priority] + [op]]
      ensures totalWeight == WeightBelow(buckets, PRIORITIES)
    {
      hide WeightBelow, Weight;
      var ops := buckets[op.priority];
      WeightSet(buckets, op.priority, ops + [op], PRIORITIES);
      if ops == [] {
        totalWeight := totalWeight + Weight(op.priority);
      }
      buckets := buckets[op.priority := ops + [op]];
    }

    /** The puts of `AddWaitingOperator` (operator_controller.go:236-241): a pair goes in one behind the other. */
    method PutGroup(g: Group)
      requires Valid() && GroupOk(g)
      modifies this
      ensures Valid() && Waiting(buckets) == old(Waiting(buckets)) + multiset{g}
    {
      hide WeightBelow, Waiting, Grouped;
      ghost var bs := buckets;
      var p := g[0].priority;
      WaitingPut(bs, p, g);
      PutOperator(g[0]);
      if |g| > 1 {
        PutOperator(g[1]);
        assert bs[p] + [g[0]] + [g[1]] == bs[p] + g;
      } else {
        assert [g[0]] == g;
      }
      assert buckets == bs[p := bs[p] + g];
    }

    /** `GetOperator` (waiting_operator.go:79-109): some group, whatever the random number, unless nothing waits. */
    method GetOperator(r: real) returns (res: seq<Op>, ghost at: nat)
      requires Valid() && 0.0 <= r < 1.0
      modifies this
      ensures Valid()
      ensures res != [] ==> at < PRIORITIES && InShare(old(buckets), at, r)
      ensures res != [] ==> res + buckets[at] == old(buckets)[at] && buckets == old(buckets)[at := buckets[at]]
      ensures res == [] <==> old(Waiting(buckets)) == multiset{}
      ensures if res == [] then Waiting(buckets) == old(Waiting(buckets))
              else GroupOk(res) && old(Waiting(buckets)) == Waiting(buckets) + multiset{res}
    {
      hide WeightBelow, Weight, Waiting, Grouped;
      res, at := [], 0;
      NothingWaits(buckets);
      if totalWeight == 0.0 { return; }
      var sum := 0.0;
      ShareStart(buckets, totalWeight);
      for i := 0 to PRIORITIES
        invariant buckets == old(buckets) && totalWeight == old(totalWeight)
        invariant sum == WeightBelow(buckets, i) / totalWeight && sum <= r
      {
        ShareStep(buckets, i, totalWeight);
        if buckets[i] == [] { continue; }
        var proportion := Weight(i) / totalWeight;
        if sum <= r < sum + proportion {
          WaitingTake(buckets, i);
          var n := TakeCount(buckets[i]);
          res, at := buckets[i][..n], i;
          WeightSet(buckets, i, buckets[i][n..], PRIORITIES);
          if |buckets[i]| == n {
            totalWeight := totalWeight - Weight(i);
          }
          buckets := buckets[i := buckets[i][n..]];
          return;
        }
        sum := sum + proportion;
      }
      assert false;
    }
  }

  /** The random number falls into the share of the nonempty bucket `i` of the total weight. */
  ghost predicate InShare(bs: Buckets, i: nat, r: real)
    requires |bs| == PRIORITIES && i < PRIORITIES
  {
    var total := WeightBelow(bs, PRIORITIES);
    bs[i] != [] && total != 0.0 && WeightBelow(bs, i) / total <= r < WeightBelow(bs, i + 1) / total
  }

  /** With operators of all priorities waiting, the lowest get one of fourteen shares, the middle four, the highest
      nine. */
  lemma SharesOfAll(bs: Buckets, i: nat, r: real)
    requires |bs| == PRIORITIES && i < PRIORITIES && bs[0] != [] && bs[1] != [] && bs[2] != []
    ensures InShare(bs, i, r) <==>
      if i == 0 then 0.0 <= r < 1.0 / 14.0 else if i == 1 then 1.0 / 14.0 <= r < 5.0 / 14.0 else 5.0 / 14.0 <= r < 1.0
  {
    assert WeightBelow(bs, 0) == 0.0 && WeightBelow(bs, 1) == 1.0;
    assert WeightBelow(bs, 2) == 5.0;
    assert WeightBelow(bs, 3) == 14.0;
  }

  /** The share of one of several nonempty buckets is its weight's part of their weights: 1, 4 and 9. */
  lemma ShareIs(bs: Buckets, i: nat)
    requires |bs| == PRIORITIES && i < PRIORITIES && bs[i] != []
    ensures WeightBelow(bs, i + 1) - WeightBelow(bs, i) == if i == 0 then 1.0 else if i == 1 then 4.0 else 9.0
  {
  }

  lemma NothingWaits(bs: Buckets)
    requires BucketsOk(bs)
    ensures WeightBelow(bs, PRIORITIES) >= 0.0
    ensures Waiting(bs) == multiset{} <==> WeightBelow(bs, PRIORITIES) == 0.0
  {
    hide Grouped, Groups;
    WeightGrows(bs, 0, PRIORITIES);
    forall i | 0 <= i < PRIORITIES ensures multiset(Groups(bs[i])) == multiset{} <==> bs[i] == [] {
      NoGroupIff(bs[i]);
    }
  }

  lemma NoGroupIff(ops: seq<Op>)
    requires Grouped(ops)
    ensures multiset(Groups(ops)) == multiset{} <==> ops == []
  {
    hide Grouped, Groups, GroupOk;
    if ops == [] {
      NoGroups();
    } else {
      TakeFirst(ops);
      OneMore(ops[..TakeCount(ops)], Groups(ops[TakeCount(ops)..]));
      assert ops[..TakeCount(ops)] in multiset(Groups(ops));
    }
  }

  lemma ShareStart(bs: Buckets, total: real)
    requires |bs| == PRIORITIES && total == WeightBelow(bs, PRIORITIES) && total != 0.0
    ensures WeightBelow(bs, 0) / total == 0.0 && WeightBelow(bs, PRIORITIES) / total == 1.0
  {
  }

  lemma ShareStep(bs: Buckets, i: nat, total: real)
    requires i < |bs| && total != 0.0
    ensures WeightBelow(bs, i + 1) / total == WeightBelow(bs, i) / total + if bs[i] == [] then 0.0 else Weight(i) / total
  {
    hide Weight;
    var a, w := WeightBelow(bs, i), if bs[i] == [] then 0.0 else Weight(i);
    assert (a + w) / total == a / total + w / total;
  }
}
