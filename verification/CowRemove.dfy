/** Removal in place (btree.go:542-660, 836-849, 1063-1080), on a store of copy-on-write nodes. */
module CowRemove {
  import opened SortedSeq
  import opened BTreeNode
  import opened BTreeOps
  import opened BTreeInsert
  import opened BTreeGrow
  import opened BTreeRemove
  import opened BTreeHeap
  import opened CowStore
  import Indices

  // ---------- two neighbouring children ----------

  /** Items, grandchildren and counts moved between the children `j` and `j + 1`, both owned by `c`:
      the row of grandchildren is only cut elsewhere. */
  lemma PairStep<T>(h: Mem<T>, h': Mem<T>, c: nat, p: Plan, n: Node<T>, j: nat, l: Plan, r: Plan, ln: Node<T>, rn: Node<T>, items: seq<T>, indices: seq<int>)
    requires Holds(h, p, n) && h[p.id].cow == c && c != 0 && j + 1 < |p.kids| == |n.children|
    requires p.kids[j].id in h && h[p.kids[j].id].cow == c && p.kids[j+1].id in h && h[p.kids[j+1].id].cow == c
    requires l.id == p.kids[j].id && r.id == p.kids[j+1].id
    requires l.kids + r.kids == p.kids[j].kids + p.kids[j+1].kids
    requires ln.children + rn.children == n.children[j].children + n.children[j+1].children
    requires |l.kids| == |ln.children|
    requires h' == h[l.id := Stored(ln, l.kids, c)][r.id := Stored(rn, r.kids, c)][p.id := Rec(items, Roots(p.kids), indices, c)]
    ensures Step(h, h', c, p, Plan(p.id, p.kids[..j] + [l, r] + p.kids[j+2..]),
                 Node(items, n.children[..j] + [ln, rn] + n.children[j+2..], indices))
  {
    hide Repr, AllIds, Apart;
    var a, b, an, bn := p.kids[j], p.kids[j+1], n.children[j], n.children[j+1];
    HoldsRoot(h, p, n);
    KidHolds(h, p, n, j);
    KidHolds(h, p, n, j + 1);
    KidsApart(p, j, j + 2);
    assert p.kids[j..j+2] == [a, b];
    AllIdsTwo(a, b);
    SiblingsApart(p, j);
    HoldsLive(h, p, n, {});
    PairHolds(h, h', c, a, b, an, bn, l, r, ln, rn);
    AllIdsTwo(l, r);
    assert Roots(p.kids[..j] + [l, r] + p.kids[j+2..]) == Roots(p.kids);
    Rebuild(h, h', c, p, n, j, j + 2, [l, r], [ln, rn], items, indices);
  }

  lemma SiblingsApart(p: Plan, j: nat)
    requires Proper(p) && j + 1 < |p.kids|
    ensures Ids(p.kids[j]) !! Ids(p.kids[j+1]) && p.id !in Ids(p.kids[j]) && p.id !in Ids(p.kids[j+1])
    ensures p.kids[j].id in Ids(p.kids[j]) && p.kids[j+1].id in Ids(p.kids[j+1])
  {
    AllIdsMember(p.kids, j);
    AllIdsMember(p.kids, j + 1);
  }

  lemma PairHolds<T>(h: Mem<T>, h': Mem<T>, c: nat, a: Plan, b: Plan, an: Node<T>, bn: Node<T>, l: Plan, r: Plan, ln: Node<T>, rn: Node<T>)
    requires Holds(h, a, an) && Holds(h, b, bn) && Ids(a) !! Ids(b) && c != 0
    requires l.id == a.id && r.id == b.id && l.kids + r.kids == a.kids + b.kids
    requires ln.children + rn.children == an.children + bn.children && |l.kids| == |ln.children|
    requires l.id in h' && h'[l.id] == Stored(ln, l.kids, c) && r.id in h' && h'[r.id] == Stored(rn, r.kids, c)
    requires forall x :: x in Ids(a) + Ids(b) && x != a.id && x != b.id && x in h ==> x in h' && h'[x] == h[x]
    ensures AllHold(h', [l, r], [ln, rn]) && Ids(l) + Ids(r) == Ids(a) + Ids(b)
  {
    hide Repr, AllIds, Apart;
    HoldsRoot(h, a, an);
    HoldsRoot(h, b, bn);
    HoldsKids(h, a, an);
    HoldsKids(h, b, bn);
    AllIdsConcat(a.kids, b.kids);
    AllIdsConcat(l.kids, r.kids);
    AllHoldConcat(h, a.kids, b.kids, an.children, bn.children);
    AllHoldFrame(h, h', l.kids + r.kids, ln.children + rn.children);
    AllHoldUncat(h', l.kids, r.kids, ln.children, rn.children);
    HoldsNode(h', l.id, l.kids, ln);
    HoldsNode(h', r.id, r.kids, rn);
    ApartTwo(l, r);
  }

  lemma AllHoldConcat<T>(h: Mem<T>, a: seq<Plan>, b: seq<Plan>, an: seq<Node<T>>, bn: seq<Node<T>>)
    requires AllHold(h, a, an) && AllHold(h, b, bn) && AllIds(a) !! AllIds(b)
    ensures AllHold(h, a + b, an + bn)
  {
    hide AllIds, Apart, Holds;
    ApartConcat(a, b);
  }

  lemma AllHoldUncat<T>(h: Mem<T>, a: seq<Plan>, b: seq<Plan>, an: seq<Node<T>>, bn: seq<Node<T>>)
    requires AllHold(h, a + b, an + bn) && |a| == |an|
    ensures AllHold(h, a, an) && AllHold(h, b, bn) && AllIds(a) !! AllIds(b)
  {
    hide AllIds, Holds, Apart;
    var s, t := a + b, an + bn;
    AllHoldSlice(h, s, t, 0, |a|);
    AllHoldSlice(h, s, t, |a|, |s|);
    ApartFrom(s, |a|);
    assert s[0..|a|] == a && s[..|a|] == a && s[|a|..|s|] == b && s[|a|..] == b && t[0..|a|] == an && t[|a|..|s|] == bn;
  }

  // ---------- stealing ----------

  /** Both children `j` and `j + 1` made writable. */
  method MutablePair<T(!new)>(st: Store<T>, id: Id, first: nat, other: nat, c: nat, ghost p: Plan, ghost n: Node<T>) returns (a: Id, b: Id, ghost p': Plan)
    requires st.Ok() && c != 0 && p.id == id && Holds(st.mem, p, n) && st.mem[id].cow == c
    requires first < |n.children| && other < |n.children| && first != other
    modifies st
    ensures st.Ok() && Step(old(st.mem), st.mem, c, p, p', n) && id in st.mem && Holds(st.mem, p', n)
    ensures |p'.kids| == |n.children| && p'.kids[first].id == a && p'.kids[other].id == b
    ensures a in st.mem && st.mem[a].cow == c && b in st.mem && st.mem[b].cow == c
    ensures a != b && a != id && b != id && p'.id == id && st.mem[id].cow == c
  {
    hide Holds, Step, Roots, AllIds, Ids, AllHold, Frame, FreeOk;
    ghost var h := st.mem;
    ghost var p1;
    a, p1 := st.MutableChild(id, first, c, p, n);
    ghost var h1 := st.mem;
    StepHolds(h, h1, c, p, p1, n);
    KidDistinct(h1, p1, n, first, other);
    b, p' := st.MutableChild(id, other, c, p1, n);
    StepHolds(h1, st.mem, c, p1, p', n);
    StepTrans(h, h1, st.mem, c, p, p1, p', n, n);
    KidDistinct(st.mem, p', n, first, other);
  }

  lemma KidDistinct<T>(h: Mem<T>, p: Plan, n: Node<T>, i: nat, j: nat)
    requires Holds(h, p, n) && i < |n.children| && j < |n.children| && i != j
    ensures |p.kids| == |n.children| && p.kids[i].id != p.kids[j].id && p.kids[i].id != p.id && p.kids[j].id != p.id
  {
    hide Repr;
    HoldsRoot(h, p, n);
    AllIdsMember(p.kids, i);
    AllIdsMember(p.kids, j);
    assert Ids(p.kids[i]) !! Ids(p.kids[j]);
  }

  /** Steal from the left child (btree.go:615-627). */
  method StealLeftAt<T(!new)>(st: Store<T>, id: Id, i: nat, c: nat, ghost p: Plan, ghost n: Node<T>, ghost depth: nat, ghost d: nat) returns (ghost p': Plan)
    requires st.Ok() && c != 0 && p.id == id && Holds(st.mem, p, n) && st.mem[id].cow == c
    requires Wf(n, depth, d) && depth > 0 && 0 < i < |n.children| && |n.children[i-1].items| > 0
    modifies st
    ensures st.Ok() && Local(n) && Local(n.children[i-1]) && Step(old(st.mem), st.mem, c, p, p', StealLeft(n, i))
  {
    hide Holds, Step, Roots, AllIds, Ids, AllHold, Frame, FreeOk, Wf, Apart,
      Indices.InsertedAt, Indices.RemovedAt, Indices.SizeAt;
    ghost var h := st.mem;
    WfNow(n, depth, d);
    SiblingShapes(n, i - 1, depth, d);
    var child, stealFrom, p1 := MutablePair(st, id, i, i - 1, c, p, n);
    ghost var h1, l, r := st.mem, p1.kids[i-1], p1.kids[i];
    HoldsRoot(h1, p1, n);
    KidHolds(h1, p1, n, i);
    KidHolds(h1, p1, n, i - 1);
    HoldsRoot(h1, l, n.children[i-1]);
    HoldsRoot(h1, r, n.children[i]);
    var node, to, from := st.mem[id], st.mem[child], st.mem[stealFrom];
    var stolenItem := from.items[|from.items|-1];
    from := from.(items := from.items[..|from.items|-1]);
    to := to.(items := [node.items[i-1]] + to.items);
    node := node.(items := node.items[i-1 := stolenItem]);
    node := node.(indices := node.indices[i-1 := node.indices[i-1] - 1]);
    if |from.children| > 0 {
      to := to.(children := [from.children[|from.children|-1]] + to.children);
      from := from.(children := from.children[..|from.children|-1]);
      var rest, stealSize := Indices.Pop(from.indices);
      from := from.(indices := rest);
      node := node.(indices := node.indices[i-1 := node.indices[i-1] - stealSize]);
      var grown := Indices.InsertAt(to.indices, 0, stealSize);
      to := to.(indices := grown);
    }
    WriteOk(st.mem, st.free, st.next, stealFrom, from);
    st.mem := st.mem[stealFrom := from];
    WriteOk(st.mem, st.free, st.next, child, to);
    st.mem := st.mem[child := to];
    WriteOk(st.mem, st.free, st.next, id, node);
    st.mem := st.mem[id := node];
    ghost var (l', r') := LendLastPlan(l, r);
    RootsLend(l, r);
    StealLeftStep(h1, c, p1, n, i, from, to, node);
    p' := Plan(id, p1.kids[..i-1] + [l', r'] + p1.kids[i+1..]);
    StepTrans(h, h1, st.mem, c, p, p1, p', n, StealLeft(n, i));
  }

  /** The last address of `l` moved to the front of `r`. */
  ghost function LendLastPlan(l: Plan, r: Plan): (Plan, Plan) {
    if l.kids == [] then (l, r)
    else (Plan(l.id, l.kids[..|l.kids|-1]), Plan(r.id, [l.kids[|l.kids|-1]] + r.kids))
  }

  lemma RootsLend(l: Plan, r: Plan)
    ensures |Roots(l.kids)| == |l.kids|
    ensures l.kids != [] ==>
      && Roots(LendLastPlan(l, r).0.kids) == Roots(l.kids)[..|l.kids|-1]
      && Roots(LendLastPlan(l, r).1.kids) == [Roots(l.kids)[|l.kids|-1]] + Roots(r.kids)
  {
  }

  lemma LendLastRow<T>(a: Plan, b: Plan, an: Node<T>, bn: Node<T>, y: T)
    requires Local(an) && |an.items| > 0 && |a.kids| == |an.children| && |b.kids| == |bn.children|
    ensures var (l, r) := LendLastPlan(a, b); var (ln, rn) := (DropLast(an), Prepend(bn, y, an));
      && l.id == a.id && r.id == b.id && l.kids + r.kids == a.kids + b.kids
      && ln.children + rn.children == an.children + bn.children && |l.kids| == |ln.children|
  {
    hide Indices.InsertedAt, Indices.RemovedAt, Indices.SizeAt;
  }

  lemma UpdateTwo<T>(s: seq<T>, j: nat, a: T, b: T)
    requires j + 1 < |s|
    ensures s[j := a][j+1 := b] == s[..j] + [a, b] + s[j+2..]
  {
  }

  lemma StealLeftStep<T>(h: Mem<T>, c: nat, p: Plan, n: Node<T>, i: nat, from: Rec<T>, to: Rec<T>, node: Rec<T>)
    requires Holds(h, p, n) && h[p.id].cow == c && c != 0 && 0 < i < |p.kids| == |n.children|
    requires p.kids[i-1].id in h && h[p.kids[i-1].id].cow == c && p.kids[i].id in h && h[p.kids[i].id].cow == c
    requires Local(n) && Local(n.children[i-1]) && |n.children[i-1].items| > 0
    requires n.children[i-1].children == [] <==> n.children[i].children == []
    requires var (l, r) := LendLastPlan(p.kids[i-1], p.kids[i]); var m := n.children[i-1];
      && from == Stored(DropLast(m), l.kids, c)
      && to == Stored(Prepend(n.children[i], n.items[i-1], m), r.kids, c)
      && node == Rec(StealLeft(n, i).items, Roots(p.kids), StealLeft(n, i).indices, c)
    ensures var (l, r) := LendLastPlan(p.kids[i-1], p.kids[i]);
      Step(h, h[l.id := from][r.id := to][p.id := node], c, p, Plan(p.id, p.kids[..i-1] + [l, r] + p.kids[i+1..]), StealLeft(n, i))
  {
    hide Holds, Step, Roots, Indices.InsertedAt, Indices.RemovedAt, Indices.SizeAt, LendLastPlan, DropLast, Prepend, LastSize;
    var (l, r) := LendLastPlan(p.kids[i-1], p.kids[i]);
    var m, j := n.children[i-1], i - 1;
    var ln, rn := DropLast(m), Prepend(n.children[i], n.items[i-1], m);
    KidHolds(h, p, n, j);
    HoldsRoot(h, p.kids[j], m);
    KidHolds(h, p, n, i);
    HoldsRoot(h, p.kids[i], n.children[i]);
    LendLastRow(p.kids[j], p.kids[i], m, n.children[i], n.items[j]);
    UpdateTwo(n.children, j, ln, rn);
    PairStep(h, h[l.id := from][r.id := to][p.id := node], c, p, n, j, l, r, ln, rn, node.items, node.indices);
    assert StealLeft(n, i) == Node(node.items, n.children[..j] + [ln, rn] + n.children[j+2..], node.indices);
  }

  /** Steal from the right child (btree.go:629-641). */
  method StealRightAt<T(!new)>(st: Store<T>, id: Id, i: nat, c: nat, ghost p: Plan, ghost n: Node<T>, ghost depth: nat, ghost d: nat) returns (ghost p': Plan)
    requires st.Ok() && c != 0 && p.id == id && Holds(st.mem, p, n) && st.mem[id].cow == c
    requires Wf(n, depth, d) && depth > 0 && i + 1 < |n.children| && |n.children[i+1].items| > 0
    modifies st
    ensures st.Ok() && Local(n) && Local(n.children[i+1]) && i < |n.items| && Step(old(st.mem), st.mem, c, p, p', StealRight(n, i))
  {
    hide Holds, Step, Roots, AllIds, Ids, AllHold, Frame, FreeOk, Wf, Apart,
      Indices.Pushed, Indices.RemovedAt, Indices.SizeAt;
    ghost var h := st.mem;
    WfNow(n, depth, d);
    SiblingShapes(n, i, depth, d);
    var child, stealFrom, p1 := MutablePair(st, id, i, i + 1, c, p, n);
    ghost var h1, l, r := st.mem, p1.kids[i], p1.kids[i+1];
    HoldsRoot(h1, p1, n);
    KidHolds(h1, p1, n, i);
    KidHolds(h1, p1, n, i + 1);
    HoldsRoot(h1, l, n.children[i]);
    HoldsRoot(h1, r, n.children[i+1]);
    var node, to, from := st.mem[id], st.mem[child], st.mem[stealFrom];
    var stolenItem := from.items[0];
    from := from.(items := from.items[1..]);
    to := to.(items := to.items + [node.items[i]]);
    node := node.(items := node.items[i := stolenItem]);
    node := node.(indices := node.indices[i := node.indices[i] + 1]);
    if |from.children| > 0 {
      to := to.(children := to.children + [from.children[0]]);
      from := from.(children := from.children[1..]);
      var rest, stealSize := Indices.RemoveAt(from.indices, 0);
      from := from.(indices := rest);
      node := node.(indices := node.indices[i := node.indices[i] + stealSize]);
      var grown := Indices.Push(to.indices, stealSize);
      to := to.(indices := grown);
    }
    WriteOk(st.mem, st.free, st.next, child, to);
    st.mem := st.mem[child := to];
    WriteOk(st.mem, st.free, st.next, stealFrom, from);
    st.mem := st.mem[stealFrom := from];
    WriteOk(st.mem, st.free, st.next, id, node);
    st.mem := st.mem[id := node];
    ghost var (l', r') := LendFirstPlan(l, r);
    RootsLendFirst(l, r);
    StealRightStep(h1, c, p1, n, i, to, from, node);
    p' := Plan(id, p1.kids[..i] + [l', r'] + p1.kids[i+2..]);
    StepTrans(h, h1, st.mem, c, p, p1, p', n, StealRight(n, i));
  }

  /** The first address of `r` moved to the end of `l`. */
  ghost function LendFirstPlan(l: Plan, r: Plan): (Plan, Plan) {
    if r.kids == [] then (l, r)
    else (Plan(l.id, l.kids + [r.kids[0]]), Plan(r.id, r.kids[1..]))
  }

  lemma RootsLendFirst(l: Plan, r: Plan)
    ensures |Roots(r.kids)| == |r.kids|
    ensures r.kids != [] ==>
      && Roots(LendFirstPlan(l, r).0.kids) == Roots(l.kids) + [Roots(r.kids)[0]]
      && Roots(LendFirstPlan(l, r).1.kids) == Roots(r.kids)[1..]
  {
  }

  lemma LendFirstRow<T>(a: Plan, b: Plan, an: Node<T>, bn: Node<T>, y: T)
    requires Local(bn) && |bn.items| > 0 && |a.kids| == |an.children| && |b.kids| == |bn.children|
    ensures var (l, r) := LendFirstPlan(a, b); var (ln, rn) := (Append(an, y, bn), DropFirst(bn));
      && l.id == a.id && r.id == b.id && l.kids + r.kids == a.kids + b.kids
      && ln.children + rn.children == an.children + bn.children && |l.kids| == |ln.children|
  {
    hide Indices.Pushed, Indices.RemovedAt, Indices.SizeAt;
  }

  lemma StealRightStep<T>(h: Mem<T>, c: nat, p: Plan, n: Node<T>, i: nat, to: Rec<T>, from: Rec<T>, node: Rec<T>)
    requires Holds(h, p, n) && h[p.id].cow == c && c != 0 && i + 1 < |p.kids| == |n.children|
    requires p.kids[i].id in h && h[p.kids[i].id].cow == c && p.kids[i+1].id in h && h[p.kids[i+1].id].cow == c
    requires Local(n) && Local(n.children[i+1]) && |n.children[i+1].items| > 0
    requires n.children[i].children == [] <==> n.children[i+1].children == []
    requires var (l, r) := LendFirstPlan(p.kids[i], p.kids[i+1]); var m := n.children[i+1];
      && from == Stored(DropFirst(m), r.kids, c)
      && to == Stored(Append(n.children[i], n.items[i], m), l.kids, c)
      && node == Rec(StealRight(n, i).items, Roots(p.kids), StealRight(n, i).indices, c)
    ensures var (l, r) := LendFirstPlan(p.kids[i], p.kids[i+1]);
      Step(h, h[l.id := to][r.id := from][p.id := node], c, p, Plan(p.id, p.kids[..i] + [l, r] + p.kids[i+2..]), StealRight(n, i))
  {
    hide Holds, Step, Roots, Indices.Pushed, Indices.RemovedAt, Indices.SizeAt, LendFirstPlan, DropFirst, Append, FirstSize;
    var (l, r) := LendFirstPlan(p.kids[i], p.kids[i+1]);
    var m := n.children[i+1];
    var ln, rn := Append(n.children[i], n.items[i], m), DropFirst(m);
    KidHolds(h, p, n, i + 1);
    HoldsRoot(h, p.kids[i+1], m);
    KidHolds(h, p, n, i);
    HoldsRoot(h, p.kids[i], n.children[i]);
    LendFirstRow(p.kids[i], p.kids[i+1], n.children[i], m, n.items[i]);
    UpdateTwo(n.children, i, ln, rn);
    PairStep(h, h[l.id := to][r.id := from][p.id := node], c, p, n, i, l, r, ln, rn, node.items, node.indices);
    assert StealRight(n, i) == Node(node.items, n.children[..i] + [ln, rn] + n.children[i+2..], node.indices);
  }

  // ---------- merging ----------

  /** The loop of btree.go:653-655. */
  method PushAllAt<T(!new)>(st: Store<T>, s: seq<int>, ids: seq<Id>, ghost ps: seq<Plan>, ghost ns: seq<Node<T>>) returns (r: seq<int>)
    requires AllHold(st.mem, ps, ns) && ids == Roots(ps)
    ensures r == PushAll(s, ns)
  {
    hide Holds, Ids, Length, Indices.Pushed;
    r := s;
    for i := 0 to |ids|
      invariant r == PushAll(s, ns[..i])
    {
      SameLength(st.mem, ps[i], ns[i]);
      assert ns[..i+1][..i] == ns[..i];
      r := Indices.Push(r, st.LengthAt(ids[i]));
    }
    assert ns[..|ids|] == ns;
  }

  /** Merge child `i` with its right neighbour (btree.go:646-657). */
  method MergeAt<T(!new)>(st: Store<T>, id: Id, i: nat, c: nat, ghost p: Plan, ghost n: Node<T>, ghost depth: nat, ghost d: nat) returns (ghost p': Plan)
    requires st.Ok() && c != 0 && p.id == id && Holds(st.mem, p, n) && st.mem[id].cow == c
    requires Wf(n, depth, d) && depth > 0 && i < |n.items|
    modifies st
    ensures st.Ok() && Local(n) && n.children != [] && Step(old(st.mem), st.mem, c, p, p', MergeWithRight(n, i))
  {
    hide Holds, Step, Roots, AllIds, Ids, AllHold, Frame, FreeOk, Wf, Apart, PushAll, Indices.MergedAt;
    ghost var h := st.mem;
    WfNow(n, depth, d);
    var child, p1 := st.MutableChild(id, i, c, p, n);
    ghost var h1, l, r := st.mem, p1.kids[i], p1.kids[i+1];
    StepHolds(h, h1, c, p, p1, n);
    HoldsRoot(h1, p1, n);
    KidHolds(h1, p1, n, i);
    KidHolds(h1, p1, n, i + 1);
    HoldsRoot(h1, l, n.children[i]);
    HoldsRoot(h1, r, n.children[i+1]);
    HoldsKids(h1, r, n.children[i+1]);
    KidDistinct(h1, p1, n, i, i + 1);
    RootsSlice(p1.kids, i + 1);
    var node, to := st.mem[id], st.mem[child];
    var mergeItem := node.items[i];
    node := node.(items := node.items[..i] + node.items[i+1..]);
    var mergeChild := node.children[i+1];
    node := node.(children := node.children[..i+1] + node.children[i+2..]);
    to := to.(items := to.items + [mergeItem] + st.mem[mergeChild].items);
    to := to.(children := to.children + st.mem[mergeChild].children);
    var grown := PushAllAt(st, to.indices, st.mem[mergeChild].children, r.kids, n.children[i+1].children);
    to := to.(indices := grown);
    var indices := Indices.Merge(node.indices, i);
    node := node.(indices := indices);
    WriteOk(st.mem, st.free, st.next, child, to);
    st.mem := st.mem[child := to];
    WriteOk(st.mem, st.free, st.next, id, node);
    st.mem := st.mem[id := node];
    var kind := st.FreeNode(c, mergeChild);
    p' := MergePlan(p1, i);
    RootsMerge(p1, i);
    MergeStep(h1, st.mem, c, p1, n, i, to, node);
    StepTrans(h, h1, st.mem, c, p, p1, p', n, MergeWithRight(n, i));
  }

  ghost function MergePlan(p: Plan, i: nat): Plan
    requires i + 1 < |p.kids|
  {
    Plan(p.id, p.kids[..i] + [Plan(p.kids[i].id, p.kids[i].kids + p.kids[i+1].kids)] + p.kids[i+2..])
  }

  lemma RootsMerge(p: Plan, i: nat)
    requires i + 1 < |p.kids|
    ensures |Roots(p.kids)| == |p.kids|
    ensures Roots(MergePlan(p, i).kids) == Roots(p.kids)[..i+1] + Roots(p.kids)[i+2..]
    ensures Roots(p.kids[i].kids + p.kids[i+1].kids) == Roots(p.kids[i].kids) + Roots(p.kids[i+1].kids)
  {
  }

  lemma MergeStep<T>(h: Mem<T>, h': Mem<T>, c: nat, p: Plan, n: Node<T>, i: nat, to: Rec<T>, node: Rec<T>)
    requires Holds(h, p, n) && h[p.id].cow == c && c != 0 && i + 1 < |p.kids| == |n.children| && Local(n)
    requires p.kids[i].id in h && h[p.kids[i].id].cow == c && p.kids[i+1].id in h
    requires to == Stored(Join(n.children[i], n.items[i], n.children[i+1]), p.kids[i].kids + p.kids[i+1].kids, c)
    requires node == Rec(MergeWithRight(n, i).items, Roots(MergePlan(p, i).kids), MergeWithRight(n, i).indices, c)
    requires var h1 := h[p.kids[i].id := to][p.id := node];
      h' == if h[p.kids[i+1].id].cow == c then h1[p.kids[i+1].id := Rec([], [], [], 0)] else h1
    ensures Step(h, h', c, p, MergePlan(p, i), MergeWithRight(n, i))
  {
    hide Repr, AllIds, Apart, PushAll, Indices.MergedAt, Roots;
    var a, b, an, bn := p.kids[i], p.kids[i+1], n.children[i], n.children[i+1];
    var k, m := Plan(a.id, a.kids + b.kids), Join(an, n.items[i], bn);
    HoldsRoot(h, p, n);
    KidHolds(h, p, n, i);
    KidHolds(h, p, n, i + 1);
    KidsApart(p, i, i + 2);
    assert p.kids[i..i+2] == [a, b];
    AllIdsTwo(a, b);
    SiblingsApart(p, i);
    HoldsLive(h, p, n, {});
    JoinHolds(h, h', c, a, b, an, bn, m);
    AllIdsOne(k);
    OneHolds(h', k, m);
    Rebuild(h, h', c, p, n, i, i + 2, [k], [m], node.items, node.indices);
  }

  lemma JoinHolds<T>(h: Mem<T>, h': Mem<T>, c: nat, a: Plan, b: Plan, an: Node<T>, bn: Node<T>, m: Node<T>)
    requires Holds(h, a, an) && Holds(h, b, bn) && Ids(a) !! Ids(b) && c != 0
    requires m.children == an.children + bn.children
    requires a.id in h' && h'[a.id] == Stored(m, a.kids + b.kids, c)
    requires forall x :: x in Ids(a) + Ids(b) && x != a.id && x != b.id && x in h ==> x in h' && h'[x] == h[x]
    ensures Holds(h', Plan(a.id, a.kids + b.kids), m) && Ids(Plan(a.id, a.kids + b.kids)) <= Ids(a) + Ids(b) - {b.id}
  {
    hide Repr, AllIds, Apart;
    HoldsRoot(h, a, an);
    HoldsRoot(h, b, bn);
    HoldsKids(h, a, an);
    HoldsKids(h, b, bn);
    AllIdsConcat(a.kids, b.kids);
    AllHoldConcat(h, a.kids, b.kids, an.children, bn.children);
    AllHoldFrame(h, h', a.kids + b.kids, m.children);
    HoldsNode(h', a.id, a.kids + b.kids, m);
  }

  // ---------- removing ----------

  /** The rebalancing of `growChildAndRemove` (btree.go:614-658). */
  method GrowAt<T(!new)>(st: Store<T>, id: Id, i: nat, d: nat, c: nat, ghost p: Plan, ghost n: Node<T>, ghost depth: nat) returns (ghost p': Plan)
    requires st.Ok() && c != 0 && p.id == id && Holds(st.mem, p, n) && st.mem[id].cow == c
    requires Wf(n, depth, d) && depth > 0 && i < |n.children| && |n.items| > 0 && d >= 2
    modifies st
    ensures st.Ok() && Step(old(st.mem), st.mem, c, p, p', Grow(n, i, d, depth))
  {
    hide Holds, Step, Roots, AllIds, Ids, AllHold, Frame, FreeOk, Wf, StealLeft, StealRight, MergeWithRight;
    WfNow(n, depth, d);
    HoldsRoot(st.mem, p, n);
    RootsSlice(p.kids, 0);
    ghost var h := st.mem;
    KidItems(h, p, n);
    if i > 0 && |st.mem[st.mem[id].children[i-1]].items| > d - 1 {
      p' := StealLeftAt(st, id, i, c, p, n, depth, d);
    } else if i < |st.mem[id].items| && |st.mem[st.mem[id].children[i+1]].items| > d - 1 {
      p' := StealRightAt(st, id, i, c, p, n, depth, d);
    } else {
      var j := i;
      if j >= |st.mem[id].items| {
        j := j - 1;
      }
      p' := MergeAt(st, id, j, c, p, n, depth, d);
    }
  }

  lemma KidItems<T>(h: Mem<T>, p: Plan, n: Node<T>)
    requires Holds(h, p, n)
    ensures p.id in h && |h[p.id].children| == |n.children|
    ensures forall i :: 0 <= i < |n.children| ==> h[p.id].children[i] in h && h[h[p.id].children[i]].items == n.children[i].items
  {
    hide Ids, Proper;
    assert forall i :: 0 <= i < |p.kids| ==> Repr(h, p.kids[i], n.children[i]);
  }

  ghost predicate TooSmall<T>(less: (T, T) -> bool, n: Node<T>, what: What<T>, d: nat) {
    var i := Position(less, n, what).0;
    i < |n.children| && |n.children[i].items| <= d - 1
  }

  /** `remove` (btree.go:542-592) in place. */
  method RemoveAt<T(!new)>(st: Store<T>, id: Id, what: What<T>, d: nat, c: nat, ghost p: Plan, ghost n: Node<T>, ghost depth: nat) returns (out: Option<T>, ghost p': Plan)
    requires st.Ok() && c != 0 && p.id == id && Holds(st.mem, p, n) && st.mem[id].cow == c
    requires StrictWeakOrder(st.less) && Sorted(st.less, Contents(n)) && Wf(n, depth, d) && CanRemove(n, d) && d >= 2
    modifies st
    ensures st.Ok() && Step(old(st.mem), st.mem, c, p, p', Remove(st.less, n, what, d, depth).0)
    ensures out == Remove(st.less, n, what, d, depth).1
    decreases depth, if TooSmall(st.less, n, what, d) then 3 else 1
  {
    hide Holds, Step, Roots, AllIds, Ids, AllHold, Frame, FreeOk, Wf, Find, Contents, Sorted, StrictWeakOrder, Grow, RemoveBelow;
    WfNow(n, depth, d);
    HoldsRoot(st.mem, p, n);
    RootsSlice(p.kids, 0);
    KidItems(st.mem, p, n);
    var i, found := 0, false;
    match what {
      case Max =>
        if |st.mem[id].children| == 0 {
          out := Some(st.mem[id].items[|st.mem[id].items|-1]);
          p' := RemoveItemAt(st, id, |st.mem[id].items| - 1, c, p, n);
          return;
        }
        i := |st.mem[id].items|;
      case Min =>
        if |st.mem[id].children| == 0 {
          out := Some(st.mem[id].items[0]);
          p' := RemoveItemAt(st, id, 0, c, p, n);
          return;
        }
        i := 0;
      case Item(x) =>
        FindRange(st.less, st.mem[id].items, x);
        var r := Find(st.less, st.mem[id].items, x);
        i, found := r.0, r.1;
        if |st.mem[id].children| == 0 {
          if found {
            out := Some(st.mem[id].items[i]);
            p' := RemoveItemAt(st, id, i, c, p, n);
            return;
          }
          StepRefl(st.mem, c, p, n);
          return None, p;
        }
    }
    if |st.mem[st.mem[id].children[i]].items| <= d - 1 {
      out, p' := GrowChildAndRemove(st, id, what, d, c, p, n, depth);
    } else {
      out, p' := RemoveChild(st, id, i, found, what, d, c, p, n, depth);
    }
  }

  /** `items.removeAt` on an owned leaf. */
  method RemoveItemAt<T(!new)>(st: Store<T>, id: Id, i: nat, c: nat, ghost p: Plan, ghost n: Node<T>) returns (ghost p': Plan)
    requires st.Ok() && p.id == id && Holds(st.mem, p, n) && st.mem[id].cow == c && i < |n.items|
    modifies st
    ensures st.Ok() && Step(old(st.mem), st.mem, c, p, p', Node(DelAt(n.items, i), n.children, n.indices))
  {
    hide Holds, Step, FreeOk;
    HoldsRoot(st.mem, p, n);
    var items := st.mem[id].items[..i] + st.mem[id].items[i+1..];
    WriteItems(st.mem, st.free, st.next, c, p, n, items);
    st.mem := st.mem[id := st.mem[id].(items := items)];
    p' := p;
  }

  /** `growChildAndRemove` (btree.go:613-660): grow, then search the same node again. */
  method GrowChildAndRemove<T(!new)>(st: Store<T>, id: Id, what: What<T>, d: nat, c: nat, ghost p: Plan, ghost n: Node<T>, ghost depth: nat) returns (out: Option<T>, ghost p': Plan)
    requires st.Ok() && c != 0 && p.id == id && Holds(st.mem, p, n) && st.mem[id].cow == c
    requires StrictWeakOrder(st.less) && Sorted(st.less, Contents(n)) && Wf(n, depth, d) && |n.items| > 0 && depth > 0 && d >= 2
    requires |n.children| == |n.items| + 1 && |n.children[Position(st.less, n, what).0].items| <= d - 1
    modifies st
    ensures st.Ok() && Step(old(st.mem), st.mem, c, p, p', Remove(st.less, n, what, d, depth).0)
    ensures out == Remove(st.less, n, what, d, depth).1
    decreases depth, 2
  {
    hide Holds, Step, Roots, AllIds, Ids, AllHold, Frame, FreeOk, Wf, Find, Contents, Sorted, StrictWeakOrder, Grow, Remove;
    ghost var h := st.mem;
    HoldsRoot(h, p, n);
    var i := PositionAt(st, id, what);
    var p1 := GrowAt(st, id, i, d, c, p, n, depth);
    ghost var h1, m := st.mem, Grow(n, i, d, depth);
    StepHolds(h, h1, c, p, p1, m);
    RemoveAfterGrow(st.less, n, what, depth, d);
    out, p' := RemoveAt(st, id, what, d, c, p1, m, depth);
    StepTrans(h, h1, st.mem, c, p, p1, p', m, Remove(st.less, m, what, d, depth).0);
  }

  function PositionAt<T(!new)>(st: Store<T>, id: Id, what: What<T>): nat
    requires id in st.mem
    reads st
  {
    match what
    case Max => |st.mem[id].items|
    case Min => 0
    case Item(x) => Find(st.less, st.mem[id].items, x).0
  }

  /** The rest of `remove`, below a child with items to spare (btree.go:571-591). */
  method RemoveChild<T(!new)>(st: Store<T>, id: Id, i: nat, found: bool, what: What<T>, d: nat, c: nat, ghost p: Plan, ghost n: Node<T>, ghost depth: nat) returns (out: Option<T>, ghost p': Plan)
    requires st.Ok() && c != 0 && p.id == id && Holds(st.mem, p, n) && st.mem[id].cow == c
    requires StrictWeakOrder(st.less) && Sorted(st.less, Contents(n)) && Wf(n, depth, d) && depth > 0 && d >= 2
    requires i < |n.children| && |n.children[i].items| > d - 1 && (found ==> i < |n.items|)
    modifies st
    ensures st.Ok() && Step(old(st.mem), st.mem, c, p, p', RemoveBelow(st.less, n, i, found, what, d, depth).0)
    ensures out == RemoveBelow(st.less, n, i, found, what, d, depth).1
    decreases depth, 0
  {
    hide Holds, Step, Roots, AllIds, Ids, AllHold, Frame, FreeOk, Wf, Contents, Sorted, StrictWeakOrder, Remove, WithChild;
    ghost var h := st.mem;
    WfNow(n, depth, d);
    WfChild(n, depth, d);
    ChildSorted(st.less, n, i);
    var child, p1 := st.MutableChild(id, i, c, p, n);
    ghost var h1, b := st.mem, n.children[i];
    StepHolds(h, h1, c, p, p1, n);
    HoldsRoot(h1, p1, n);
    KidHolds(h1, p1, n, i);
    ghost var k;
    if found {
      out := Some(st.mem[id].items[i]);
      var last;
      last, k := RemoveAt(st, child, Max, d, c, p1.kids[i], b, depth - 1);
      ghost var m := Remove(st.less, b, Max, d, depth - 1).0;
      RemoveOk(st.less, b, Max, depth - 1, d);
      LastTaken(st.less, b, depth - 1, d);
      ChildStep(h1, st.mem, c, p1, n, i, k, m, -1);
      ghost var h2 := st.mem;
      var indices := Indices.AddAt(st.mem[id].indices, i, -1);
      WriteOk(st.mem, st.free, st.next, id, st.mem[id].(indices := indices));
      st.mem := st.mem[id := st.mem[id].(indices := indices)];
      p' := Plan(id, p1.kids[..i] + [k] + p1.kids[i+1..]);
      ghost var w, h3 := WithChild(n, i, m, -1), st.mem;
      StepHolds(h1, h3, c, p1, p', w);
      WithChildItems(n, i, m, -1);
      HoldsRoot(h3, p', w);
      WriteItems(st.mem, st.free, st.next, c, p', w, st.mem[id].items[i := last.value]);
      st.mem := st.mem[id := st.mem[id].(items := st.mem[id].items[i := last.value])];
      StepTrans(h, h1, h3, c, p, p1, p', n, w);
      StepTrans(h, h3, st.mem, c, p, p', p', w, WithItem(w, i, last.value));
    } else {
      out, k := RemoveAt(st, child, what, d, c, p1.kids[i], b, depth - 1);
      ghost var m := Remove(st.less, b, what, d, depth - 1).0;
      ghost var delta := if out.None? then 0 else -1;
      ChildStep(h1, st.mem, c, p1, n, i, k, m, delta);
      if out.Some? {
        var indices := Indices.AddAt(st.mem[id].indices, i, -1);
        WriteOk(st.mem, st.free, st.next, id, st.mem[id].(indices := indices));
        st.mem := st.mem[id := st.mem[id].(indices := indices)];
      }
      p' := Plan(id, p1.kids[..i] + [k] + p1.kids[i+1..]);
      StepTrans(h, h1, st.mem, c, p, p1, p', n, WithChild(n, i, m, delta));
    }
  }

  lemma LastTaken<T(!new)>(less: (T, T) -> bool, n: Node<T>, depth: nat, d: nat)
    requires Wf(n, depth, d) && CanRemove(n, d) && d >= 2
    requires RemovedOk(less, n, Max, Remove(less, n, Max, d, depth), depth, d)
    ensures Remove(less, n, Max, d, depth).1.Some?
  {
    hide Contents, Wf, Remove;
  }

  /** Two neighbouring children have the same shape. */
  lemma SiblingShapes<T>(n: Node<T>, j: nat, depth: nat, d: nat)
    requires Wf(n, depth, d) && depth > 0 && j + 1 < |n.children|
    ensures Local(n) && Local(n.children[j]) && Local(n.children[j+1])
    ensures n.children[j].children == [] <==> n.children[j+1].children == []
  {
    hide Wf;
    WfNow(n, depth, d);
    WfChild(n, depth, d);
    WfNow(n.children[j], depth - 1, d);
    WfNow(n.children[j+1], depth - 1, d);
  }
}
