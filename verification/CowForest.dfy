/** Any number of B-trees over one store of nodes, as Clone leaves them (btree.go:784-915, 1043-1080):
    each behaves as if it were alone. */
module CowForest {
  import opened SortedSeq
  import opened BTreeNode
  import opened BTreeOps
  import opened BTreeInsert
  import opened BTreeGrow
  import opened BTreeRemove
  import opened BTreeHeap
  import opened CowStore
  import opened CowRemove
  import opened BTree
  import Indices

  /** The fields of a `BTree` struct. */
  datatype Handle = Handle(degree: nat, length: int, root: Option<Id>, cow: nat)

  ghost function Foot(hd: Handle, p: Plan): set<Id> {
    if hd.root.None? then {} else Ids(p)
  }

  /** The memory holds the value `t` for the handle `hd`. */
  ghost predicate TreeOk<T>(less: (T, T) -> bool, h: Mem<T>, hd: Handle, p: Plan, t: Tree<T>) {
    && Valid(less, t) && t.degree == hd.degree && t.length == hd.length
    && (hd.root.Some? <==> t.root.Some?)
    && (hd.root.Some? ==> p.id == hd.root.value && Holds(h, p, t.root.value))
  }

  /** What one operation of context `c` does to a tree that had the addresses `foot` and now has `foot'`. */
  ghost predicate TreeStep<T>(h: Mem<T>, h': Mem<T>, c: nat, foot: set<Id>, foot': set<Id>) {
    Frame(h, h', c, foot) && Unused(h, foot' - foot) && Owners(h, h', c, foot', foot)
  }

  lemma TreeStepTrans<T>(h: Mem<T>, h1: Mem<T>, h2: Mem<T>, c: nat, f: set<Id>, f1: set<Id>, f2: set<Id>)
    requires TreeStep(h, h1, c, f, f1) && TreeStep(h1, h2, c, f1, f2)
    ensures TreeStep(h, h2, c, f, f2)
  {
    FrameTrans(h, h1, h2, c, f, f, f1);
  }

  lemma StepTree<T>(h: Mem<T>, h': Mem<T>, c: nat, p: Plan, p': Plan, n: Node<T>)
    requires Step(h, h', c, p, p', n)
    ensures TreeStep(h, h', c, Ids(p), Ids(p')) && Holds(h', p', n) && p'.id == p.id && p.id in h' && h'[p.id].cow == c
  {
    hide Holds, Ids, Frame, Unused;
    StepHolds(h, h', c, p, p', n);
  }

  /** Each tree is held by the memory, with nodes of known contexts only. */
  ghost predicate TreesOk<T>(less: (T, T) -> bool, h: Mem<T>, trees: map<nat, Handle>, plans: map<nat, Plan>, vals: map<nat, Tree<T>>, nextCow: nat)
    requires plans.Keys == trees.Keys && vals.Keys == trees.Keys
  {
    forall k :: k in trees ==> TreeOk(less, h, trees[k], plans[k], vals[k]) && OwnedBelow(h, Foot(trees[k], plans[k]), nextCow)
  }

  ghost predicate ContextsOk(trees: map<nat, Handle>, nextCow: nat) {
    && nextCow > 0
    && (forall k :: k in trees ==> 0 < trees[k].cow < nextCow)
    && (forall j, k :: j in trees && k in trees && j != k ==> trees[j].cow != trees[k].cow)
  }

  /** No tree has a node that another one's context owns. */
  ghost predicate Isolated<T>(h: Mem<T>, trees: map<nat, Handle>, plans: map<nat, Plan>)
    requires plans.Keys == trees.Keys
  {
    forall j, k :: j in trees && k in trees && j != k ==> NotOwned(h, Foot(trees[j], plans[j]), trees[k].cow)
  }

  ghost predicate ForestOk<T>(less: (T, T) -> bool, h: Mem<T>, trees: map<nat, Handle>, plans: map<nat, Plan>, vals: map<nat, Tree<T>>, nextCow: nat) {
    && plans.Keys == trees.Keys && vals.Keys == trees.Keys
    && TreesOk(less, h, trees, plans, vals, nextCow)
    && ContextsOk(trees, nextCow)
    && Isolated(h, trees, plans)
  }

  ghost predicate NotOwned<T>(h: Mem<T>, s: set<Id>, c: nat) {
    forall x :: x in s ==> x in h && h[x].cow != c
  }

  ghost predicate OwnedBelow<T>(h: Mem<T>, s: set<Id>, c: nat) {
    forall x :: x in s ==> x in h && h[x].cow < c
  }

  /** A tree without nodes of the acting context does not notice. */
  lemma Unnoticed<T>(less: (T, T) -> bool, h: Mem<T>, h': Mem<T>, c: nat, foot: set<Id>, hd: Handle, p: Plan, t: Tree<T>)
    requires Frame(h, h', c, foot) && TreeOk(less, h, hd, p, t) && NotOwned(h, Foot(hd, p), c)
    ensures TreeOk(less, h', hd, p, t)
    ensures forall c' :: NotOwned(h, Foot(hd, p), c') ==> NotOwned(h', Foot(hd, p), c')
    ensures forall c' :: OwnedBelow(h, Foot(hd, p), c') ==> OwnedBelow(h', Foot(hd, p), c')
  {
    hide Repr, Ids, Valid;
    if hd.root.Some? {
      HoldsLive(h, p, t.root.value, {});
      ReprFrame(h, h', p, t.root.value);
    }
  }

  /** The acting tree gets no node of another context. */
  lemma OwnersKept<T>(h: Mem<T>, h': Mem<T>, c: nat, foot: set<Id>, foot': set<Id>)
    requires Owners(h, h', c, foot', foot)
    ensures forall c' :: c' != c && NotOwned(h, foot, c') ==> NotOwned(h', foot', c')
    ensures forall c' :: c < c' && OwnedBelow(h, foot, c') ==> OwnedBelow(h', foot', c')
  {
  }

  /** An operation on tree `k` leaves the forest in order, the other trees with the same values. */
  lemma KeepForest<T>(less: (T, T) -> bool, h: Mem<T>, h': Mem<T>, trees: map<nat, Handle>, plans: map<nat, Plan>, vals: map<nat, Tree<T>>, nextCow: nat,
                      k: nat, hd: Handle, p: Plan, t: Tree<T>)
    requires ForestOk(less, h, trees, plans, vals, nextCow) && k in trees
    requires TreeStep(h, h', trees[k].cow, Foot(trees[k], plans[k]), Foot(hd, p))
    requires TreeOk(less, h', hd, p, t) && hd.cow == trees[k].cow
    ensures ForestOk(less, h', trees[k := hd], plans[k := p], vals[k := t], nextCow)
  {
    hide TreeOk, Foot, TreeStep, TreesOk, Isolated;
    KeepTrees(less, h, h', trees, plans, vals, nextCow, k, hd, p, t);
    KeepIsolated(less, h, h', trees, plans, vals, nextCow, k, hd, p);
    KeepContexts(trees, nextCow, k, hd);
    assert plans[k := p].Keys == plans.Keys && vals[k := t].Keys == vals.Keys && trees[k := hd].Keys == trees.Keys;
  }

  lemma KeepContexts(trees: map<nat, Handle>, nextCow: nat, k: nat, hd: Handle)
    requires ContextsOk(trees, nextCow) && k in trees && hd.cow == trees[k].cow
    ensures ContextsOk(trees[k := hd], nextCow)
  {
  }

  lemma KeepTrees<T>(less: (T, T) -> bool, h: Mem<T>, h': Mem<T>, trees: map<nat, Handle>, plans: map<nat, Plan>, vals: map<nat, Tree<T>>, nextCow: nat,
                     k: nat, hd: Handle, p: Plan, t: Tree<T>)
    requires ForestOk(less, h, trees, plans, vals, nextCow) && k in trees
    requires TreeStep(h, h', trees[k].cow, Foot(trees[k], plans[k]), Foot(hd, p)) && TreeOk(less, h', hd, p, t)
    ensures trees[k := hd].Keys == plans[k := p].Keys == vals[k := t].Keys
    ensures TreesOk(less, h', trees[k := hd], plans[k := p], vals[k := t], nextCow)
  {
    hide TreeOk, Foot, Frame, NotOwned, OwnedBelow, Unused, Owners;
    var c := trees[k].cow;
    OwnersKept(h, h', c, Foot(trees[k], plans[k]), Foot(hd, p));
    var trees', plans', vals' := trees[k := hd], plans[k := p], vals[k := t];
    assert trees'.Keys == trees.Keys && plans'.Keys == trees.Keys && vals'.Keys == trees.Keys;
    forall j | j in trees' ensures TreeOk(less, h', trees'[j], plans'[j], vals'[j]) && OwnedBelow(h', Foot(trees'[j], plans'[j]), nextCow) {
      if j != k { Unnoticed(less, h, h', c, Foot(trees[k], plans[k]), trees[j], plans[j], vals[j]); }
    }
  }

  lemma KeepIsolated<T>(less: (T, T) -> bool, h: Mem<T>, h': Mem<T>, trees: map<nat, Handle>, plans: map<nat, Plan>, vals: map<nat, Tree<T>>, nextCow: nat,
                        k: nat, hd: Handle, p: Plan)
    requires ForestOk(less, h, trees, plans, vals, nextCow) && k in trees
    requires TreeStep(h, h', trees[k].cow, Foot(trees[k], plans[k]), Foot(hd, p)) && hd.cow == trees[k].cow
    ensures trees[k := hd].Keys == plans[k := p].Keys && Isolated(h', trees[k := hd], plans[k := p])
  {
    hide TreeOk, Foot, Frame, NotOwned, OwnedBelow, Unused, Owners;
    var c := trees[k].cow;
    OwnersKept(h, h', c, Foot(trees[k], plans[k]), Foot(hd, p));
    var trees', plans' := trees[k := hd], plans[k := p];
    assert trees'.Keys == trees.Keys && plans'.Keys == trees.Keys;
    forall i, j | i in trees' && j in trees' && i != j ensures NotOwned(h', Foot(trees'[i], plans'[i]), trees'[j].cow) {
      assert NotOwned(h, Foot(trees[i], plans[i]), trees[j].cow);
      if i != k { Unnoticed(less, h, h', c, Foot(trees[k], plans[k]), trees[i], plans[i], vals[i]); }
    }
  }

  // ---------- steps at the root ----------

  /** The root made writable. */
  lemma MutableRoot<T>(h: Mem<T>, h': Mem<T>, c: nat, p: Plan, n: Node<T>, out: Id)
    requires Holds(h, p, n) && c != 0 && p.id in h
    requires if h[p.id].cow == c then out == p.id && h' == h else Unused(h, {out}) && h' == h[out := h[p.id].(cow := c)]
    ensures Holds(h', Plan(out, p.kids), n) && out in h' && h'[out].cow == c
    ensures TreeStep(h, h', c, Ids(p), Ids(Plan(out, p.kids)))
  {
    hide Repr, AllIds, Apart;
    HoldsRoot(h, p, n);
    HoldsKids(h, p, n);
    HoldsLive(h, p, n, {out});
    AllHoldFrame(h, h', p.kids, n.children);
    HoldsNode(h', out, p.kids, n);
  }

  /** A full root split under a new one, at `top`. */
  lemma SplitRootStep<T>(h: Mem<T>, h1: Mem<T>, h': Mem<T>, c: nat, p: Plan, n: Node<T>, at: nat, second: Id, top: Id)
    requires Holds(h, p, n) && p.id in h && h[p.id].cow == c && c != 0 && Local(n) && at < |n.items|
    requires Unused(h, {second}) && Unused(h1, {top})
    requires h1 == h[second := Stored(SplitRight(n, at), CutPlan(p, at).1, c)][p.id := Stored(SplitLeft(n, at), CutPlan(p, at).0, c)]
    requires h' == h1[top := Rec([n.items[at]], [p.id, second], SplitRoot(n, at).indices, c)]
    ensures var q := Plan(top, [Plan(p.id, CutPlan(p, at).0), Plan(second, CutPlan(p, at).1)]);
      Holds(h', q, SplitRoot(n, at)) && TreeStep(h, h', c, Ids(p), Ids(q))
  {
    hide Repr, AllIds, Apart, SplitLeft, SplitRight, InitSize, CutPlan;
    var l, r := Plan(p.id, CutPlan(p, at).0), Plan(second, CutPlan(p, at).1);
    var ln, rn := SplitLeft(n, at), SplitRight(n, at);
    HoldsRoot(h, p, n);
    HoldsLive(h, p, n, {second});
    SplitHalves(h, h1, c, p, n, at, second);
    AllIdsTwo(l, r);
    UnusedApart(h1, [l, r], [ln, rn], {top});
    AllHoldFrame(h1, h', [l, r], [ln, rn]);
    HoldsNode(h', top, [l, r], SplitRoot(n, at));
  }

  /** `node.reset` (btree.go:1073-1080). */
  method Reset<T(!new)>(st: Store<T>, id: Id, c: nat, ghost p: Plan, ghost n: Node<T>) returns (go: bool)
    requires st.Ok() && c != 0 && p.id == id && Holds(st.mem, p, n)
    modifies st
    ensures st.Ok() && Frame(old(st.mem), st.mem, c, Ids(p))
    decreases p
  {
    hide Holds, AllIds, Ids, AllHold, FreeOk, Roots, Frame;
    ghost var h := st.mem;
    HoldsRoot(h, p, n);
    RootsSlice(p.kids, 0);
    var children := st.mem[id].children;
    FrameRefl(h, c, AllIds(p.kids[..0]));
    for i := 0 to |children|
      invariant st.Ok() && Frame(h, st.mem, c, AllIds(p.kids[..i]))
    {
      KidStillHolds(h, st.mem, c, p, n, i);
      ghost var h1 := st.mem;
      var more := Reset(st, children[i], c, p.kids[i], n.children[i]);
      ResetFrame(h, h1, st.mem, c, p, i);
      if !more {
        FrameUp(h, st.mem, c, p, i + 1);
        return false;
      }
    }
    FrameUp(h, st.mem, c, p, |children|);
    RootUntouched(h, st.mem, c, p, n, |children|);
    ghost var h2 := st.mem;
    var kind := st.FreeNode(c, id);
    FreedFrame(h, h2, st.mem, c, p, n);
    return kind != FreeListFull;
  }

  lemma FrameRefl<T>(h: Mem<T>, c: nat, s: set<Id>)
    ensures Frame(h, h, c, s)
  {
  }

  lemma KidStillHolds<T>(h: Mem<T>, h': Mem<T>, c: nat, p: Plan, n: Node<T>, i: nat)
    requires Holds(h, p, n) && i < |p.kids| == |n.children| && Frame(h, h', c, AllIds(p.kids[..i]))
    ensures Holds(h', p.kids[i], n.children[i]) && Roots(p.kids)[i] == p.kids[i].id
  {
    hide Repr, AllIds, Ids, Frame;
    HoldsRoot(h, p, n);
    KidHolds(h, p, n, i);
    KidsApart(p, i, i + 1);
    assert p.kids[i..i+1] == [p.kids[i]];
    AllIdsOne(p.kids[i]);
    FrameSameOn(h, h', c, AllIds(p.kids[..i]), p.kids[i], n.children[i]);
    ReprFrame(h, h', p.kids[i], n.children[i]);
  }

  lemma ResetFrame<T>(h: Mem<T>, h1: Mem<T>, h2: Mem<T>, c: nat, p: Plan, i: nat)
    requires i < |p.kids| && Frame(h, h1, c, AllIds(p.kids[..i])) && Frame(h1, h2, c, Ids(p.kids[i]))
    ensures Frame(h, h2, c, AllIds(p.kids[..i+1]))
  {
    hide AllIds, Ids;
    assert p.kids[..i+1] == p.kids[..i] + [p.kids[i]];
    AllIdsConcat(p.kids[..i], [p.kids[i]]);
    AllIdsOne(p.kids[i]);
    FrameTrans(h, h1, h2, c, AllIds(p.kids[..i+1]), AllIds(p.kids[..i]), Ids(p.kids[i]));
  }

  lemma FrameUp<T>(h: Mem<T>, h': Mem<T>, c: nat, p: Plan, i: nat)
    requires i <= |p.kids| && Frame(h, h', c, AllIds(p.kids[..i]))
    ensures Frame(h, h', c, Ids(p))
  {
    hide AllIds;
    assert p.kids == p.kids[..i] + p.kids[i..];
    AllIdsConcat(p.kids[..i], p.kids[i..]);
  }

  lemma RootUntouched<T>(h: Mem<T>, h': Mem<T>, c: nat, p: Plan, n: Node<T>, i: nat)
    requires Holds(h, p, n) && i == |p.kids| && Frame(h, h', c, AllIds(p.kids[..i]))
    ensures p.id in h && p.id in h' && h'[p.id] == h[p.id]
  {
    hide AllIds, Repr, Apart;
    HoldsRoot(h, p, n);
    assert p.kids[..i] == p.kids;
  }

  lemma FreedFrame<T>(h: Mem<T>, h1: Mem<T>, h2: Mem<T>, c: nat, p: Plan, n: Node<T>)
    requires Frame(h, h1, c, Ids(p)) && p.id in h && p.id in h1 && h1[p.id] == h[p.id]
    requires h2 == if h1[p.id].cow == c then h1[p.id := Rec([], [], [], 0)] else h1
    ensures Frame(h, h2, c, Ids(p))
  {
    hide AllIds;
  }

  // ---------- the forest ----------

  class Forest<T(!new)> {
    const st: Store<T>
    var trees: map<nat, Handle>
    var nextCow: nat
    ghost var plans: map<nat, Plan>
    ghost var vals: map<nat, Tree<T>>   // what each tree is, as a value

    ghost predicate Ok()
      reads this, st
    {
      st.Ok() && StrictWeakOrder(st.less) && ForestOk(st.less, st.mem, trees, plans, vals, nextCow)
    }

    constructor (less: (T, T) -> bool, cap: nat)
      requires StrictWeakOrder(less)
      ensures Ok() && fresh(st) && st.less == less && vals == map[]
    {
      st := new Store(less, cap);
      trees, nextCow, plans, vals := map[], 1, map[], map[];
    }

    /** `ReplaceOrInsert` (btree.go:856-880). */
    method Insert(k: nat, x: T) returns (out: Option<T>)
      requires Ok() && k in trees && k in vals && Valid(st.less, vals[k])
      modifies this, st
      ensures Ok() && trees.Keys == old(trees.Keys)
      ensures vals == old(vals)[k := ReplaceOrInsert(st.less, old(vals)[k], x).0]
      ensures out == ReplaceOrInsert(st.less, old(vals)[k], x).1
    {
      hide StrictWeakOrder, ForestOk, TreeOk, Foot, TreeStep, Valid, FreeOk, ReplaceOrInsert;
      ghost var t := vals[k];
      ForestTree(st.less, st.mem, trees, plans, vals, nextCow, k);
      var hd := trees[k];
      ghost var h, p' := st.mem, plans[k];
      ghost var t' := ReplaceOrInsert(st.less, t, x).0;
      out, hd, p' := InsertTree(st, hd, x, plans[k], t);
      KeepForest(st.less, h, st.mem, trees, plans, vals, nextCow, k, hd, p', t');
      trees, plans, vals := trees[k := hd], plans[k := p'], vals[k := t'];
    }

    /** `Delete`, `DeleteMin`, `DeleteMax` (btree.go:884-915). */
    method Delete(k: nat, what: What<T>) returns (out: Option<T>)
      requires Ok() && k in trees && k in vals && Valid(st.less, vals[k])
      modifies this, st
      ensures Ok() && trees.Keys == old(trees.Keys)
      ensures vals == old(vals)[k := DeleteItem(st.less, old(vals)[k], what).0]
      ensures out == DeleteItem(st.less, old(vals)[k], what).1
    {
      hide StrictWeakOrder, ForestOk, TreeOk, Foot, TreeStep, Valid, FreeOk, DeleteItem;
      ghost var t := vals[k];
      ForestTree(st.less, st.mem, trees, plans, vals, nextCow, k);
      var hd := trees[k];
      ghost var h, p' := st.mem, plans[k];
      ghost var t' := DeleteItem(st.less, t, what).0;
      out, hd, p' := DeleteTree(st, hd, what, plans[k], t);
      KeepForest(st.less, h, st.mem, trees, plans, vals, nextCow, k, hd, p', t');
      trees, plans, vals := trees[k := hd], plans[k := p'], vals[k := t'];
    }

    /** `Clear` (btree.go:1063-1068). */
    method Clear(k: nat, addNodesToFreelist: bool)
      requires Ok() && k in trees && k in vals
      modifies this, st
      ensures Ok() && trees.Keys == old(trees.Keys)
      ensures vals == old(vals)[k := New(old(vals)[k].degree)]
    {
      hide StrictWeakOrder, ForestOk, FreeOk, TreeStep;
      ForestTree(st.less, st.mem, trees, plans, vals, nextCow, k);
      var hd := trees[k];
      ghost var h, p, t := st.mem, plans[k], vals[k];
      if hd.root.Some? && addNodesToFreelist {
        var _ := Reset(st, hd.root.value, hd.cow, p, t.root.value);
      } else {
        FrameRefl(h, hd.cow, Foot(hd, p));
      }
      hd := hd.(root := None, length := 0);
      ClearStep(h, st.mem, trees[k].cow, Foot(trees[k], p));
      KeepForest(st.less, h, st.mem, trees, plans, vals, nextCow, k, hd, p, New(t.degree));
      trees, plans, vals := trees[k := hd], plans[k := p], vals[k := New(t.degree)];
    }

    /** `Clone` (btree.go:795-806): two new contexts, the nodes shared. */
    method Clone(k: nat, k2: nat)
      requires Ok() && k in trees && k in vals && k2 !in trees
      modifies this
      ensures Ok() && trees.Keys == old(trees.Keys) + {k2}
      ensures vals == old(vals)[k2 := old(vals)[k]]
    {
      hide StrictWeakOrder, ForestOk, FreeOk;
      ForestTree(st.less, st.mem, trees, plans, vals, nextCow, k);
      CloneOk(st.less, st.mem, trees, plans, vals, nextCow, k, k2);
      var cow1, cow2 := nextCow, nextCow + 1;
      nextCow := nextCow + 2;
      var out := trees[k];
      trees := trees[k := trees[k].(cow := cow1)][k2 := out.(cow := cow2)];
      plans, vals := plans[k2 := plans[k]], vals[k2 := vals[k]];
    }

    /** `New` (btree.go:133-146) with the shared free list. */
    method Create(k: nat, degree: nat)
      requires Ok() && k !in trees && degree >= 2
      modifies this
      ensures Ok() && trees.Keys == old(trees.Keys) + {k}
      ensures vals == old(vals)[k := New(degree)]
    {
      hide StrictWeakOrder, ForestOk, FreeOk;
      CreateOk(st.less, st.mem, trees, plans, vals, nextCow, k, degree);
      trees := trees[k := Handle(degree, 0, None, nextCow)];
      plans, vals := plans[k := Plan(0, [])], vals[k := New(degree)];
      nextCow := nextCow + 1;
    }
  }

  lemma ForestTree<T>(less: (T, T) -> bool, h: Mem<T>, trees: map<nat, Handle>, plans: map<nat, Plan>, vals: map<nat, Tree<T>>, nextCow: nat, k: nat)
    requires ForestOk(less, h, trees, plans, vals, nextCow) && k in trees
    ensures k in plans && k in vals && TreeOk(less, h, trees[k], plans[k], vals[k]) && 0 < trees[k].cow < nextCow && Valid(less, vals[k])
  {
    hide Valid;
  }

  method InsertTree<T(!new)>(st: Store<T>, hd: Handle, x: T, ghost p: Plan, ghost t: Tree<T>) returns (out: Option<T>, hd': Handle, ghost p': Plan)
    requires st.Ok() && StrictWeakOrder(st.less) && hd.cow != 0 && TreeOk(st.less, st.mem, hd, p, t) && Valid(st.less, t)
    modifies st
    ensures st.Ok() && hd'.cow == hd.cow
    ensures TreeOk(st.less, st.mem, hd', p', ReplaceOrInsert(st.less, t, x).0)
    ensures TreeStep(old(st.mem), st.mem, hd.cow, Foot(hd, p), Foot(hd', p'))
    ensures out == ReplaceOrInsert(st.less, t, x).1
  {
    hide StrictWeakOrder, Holds, Ids, FreeOk, BTreeHeap.Step, TreeStep, Wf, Contents, Sorted, BTreeInsert.Insert, SplitRoot, SplitLeft, SplitRight, CutPlan, Stored, Height;
    var c, maxItems := hd.cow, 2 * hd.degree - 1;
    ghost var h := st.mem;
    ReplaceOrInsertOk(st.less, t, x);
    if hd.root.None? {
      var top := st.NewNode(c);
      var node := st.mem[top];
      assert node.items + [x] == [x];
      WriteOk(st.mem, st.free, st.next, top, node.(items := node.items + [x]));
      st.mem := st.mem[top := node.(items := node.items + [x])];
      NewLeaf(h, st.mem, c, top, x);
      return None, hd.(length := hd.length + 1, root := Some(top)), Plan(top, []);
    }
    ghost var n := t.root.value;
    HoldsRoot(h, p, n);
    var root := st.MutableFor(hd.root.value, c);
    MutableRoot(h, st.mem, c, p, n, root);
    ghost var q, m, depth := Plan(root, p.kids), n, Height(n);
    HoldsRoot(st.mem, q, n);
    WfNow(n, depth, hd.degree);
    if |st.mem[root].items| >= maxItems {
      ghost var h1, q1 := st.mem, q;
      root, q := SplitRootAt(st, root, maxItems, c, q1, n, depth, hd.degree);
      TreeStepTrans(h, h1, st.mem, c, Ids(p), Ids(q1), Ids(q));
      SplitRootOk(n, depth, hd.degree);
      m, depth := SplitRoot(n, maxItems / 2), depth + 1;
      WfNow(m, depth, hd.degree);
    }
    ghost var h3 := st.mem;
    out, p' := st.InsertAt(root, x, maxItems, c, q, m, depth);
    StepTree(h3, st.mem, c, q, p', BTreeInsert.Insert(st.less, m, x, maxItems, depth).0);
    TreeStepTrans(h, h3, st.mem, c, Ids(p), Ids(q), Ids(p'));
    hd' := hd.(root := Some(root));
    if out.None? {
      hd' := hd'.(length := hd'.length + 1);
    }
  }

  /** The splitting of a full root (btree.go:867-874). */
  method SplitRootAt<T(!new)>(st: Store<T>, root: Id, maxItems: nat, c: nat, ghost q: Plan, ghost n: Node<T>, ghost depth: nat, ghost d: nat) returns (top: Id, ghost q': Plan)
    requires st.Ok() && c != 0 && q.id == root && Holds(st.mem, q, n) && root in st.mem && st.mem[root].cow == c
    requires Wf(n, depth, d) && d >= 2 && |n.items| == 2 * d - 1 == maxItems
    modifies st
    ensures st.Ok() && Local(n) && Holds(st.mem, q', SplitRoot(n, maxItems / 2)) && q'.id == top && top in st.mem && st.mem[top].cow == c
    ensures TreeStep(old(st.mem), st.mem, c, Ids(q), Ids(q'))
  {
    hide Holds, Ids, FreeOk, TreeStep, Wf, Contents, SplitRoot, SplitLeft, SplitRight, CutPlan, Stored;
    ghost var h := st.mem;
    WfNow(n, depth, d);
    var item2, second := st.Split(root, maxItems / 2, q, n);
    ghost var h1 := st.mem;
    top := st.NewNode(c);
    SplitRootSizes(h, h1, st.mem, c, q, n, maxItems / 2, second, top);
    var sizes := [st.LengthAt(root), st.LengthAt(root) + 1 + st.LengthAt(second)];
    var node := st.mem[top].(items := [item2], children := [root, second], indices := sizes);
    WriteOk(st.mem, st.free, st.next, top, node);
    st.mem := st.mem[top := node];
    assert st.mem == h1[top := node];
    SplitRootStep(h, h1, st.mem, c, q, n, maxItems / 2, second, top);
    q' := Plan(top, [Plan(root, CutPlan(q, maxItems / 2).0), Plan(second, CutPlan(q, maxItems / 2).1)]);
  }

  lemma NewLeaf<T>(h: Mem<T>, h': Mem<T>, c: nat, top: Id, x: T)
    requires Unused(h, {top}) && c != 0 && h' == h[top := Rec([x], [], [], c)]
    ensures Holds(h', Plan(top, []), Node([x], [], [])) && TreeStep(h, h', c, {}, Ids(Plan(top, [])))
  {
    hide Repr;
    NoIds();
    RootsEmpty([]);
    var none: seq<Node<T>> := [];
    NothingHolds(h', none);
    HoldsNode(h', top, [], Node([x], [], []));
  }

  lemma SplitRootSizes<T>(h: Mem<T>, h1: Mem<T>, h2: Mem<T>, c: nat, p: Plan, n: Node<T>, at: nat, second: Id, top: Id)
    requires Holds(h, p, n) && p.id in h && Local(n) && at < |n.items| && c != 0 && Unused(h, {second}) && Unused(h1, {top})
    requires h1 == h[second := Stored(SplitRight(n, at), CutPlan(p, at).1, c)][p.id := Stored(SplitLeft(n, at), CutPlan(p, at).0, c)]
    requires h2 == h1[top := Rec([], [], [], c)]
    ensures second != p.id && top != p.id && top != second && p.id in h2 && second in h2
    ensures var a := if |h2[p.id].indices| == 0 then |h2[p.id].items| else h2[p.id].indices[|h2[p.id].indices| - 1];
      var b := if |h2[second].indices| == 0 then |h2[second].items| else h2[second].indices[|h2[second].indices| - 1];
      SplitRoot(n, at).indices == [a, a + 1 + b]
  {
    hide Repr, SplitLeft, SplitRight, CutPlan, Length;
    HoldsLive(h, p, n, {second});
    RootIn(p);
    StoredLength(SplitLeft(n, at), CutPlan(p, at).0, c);
    StoredLength(SplitRight(n, at), CutPlan(p, at).1, c);
    var l, r := SplitLeft(n, at), SplitRight(n, at);
    assert [l, r][..1] == [l] && [l][..0] == [];
    assert InitSize([l]) == [Length(l)];
  }

  lemma ClearStep<T>(h: Mem<T>, h': Mem<T>, c: nat, foot: set<Id>)
    requires Frame(h, h', c, foot)
    ensures TreeStep(h, h', c, foot, {})
  {
  }

  lemma EmptyTree<T>(less: (T, T) -> bool, h: Mem<T>, degree: nat, c: nat, p: Plan)
    requires degree >= 2
    ensures var hd := Handle(degree, 0, None, c);
      TreeOk(less, h, hd, p, New(degree)) && (forall c' :: NotOwned(h, Foot(hd, p), c')) && (forall c' :: OwnedBelow(h, Foot(hd, p), c'))
  {
  }

  /** Contexts that nothing was made with own nothing. */
  lemma NewContexts<T>(h: Mem<T>, s: set<Id>, c: nat)
    requires OwnedBelow(h, s, c)
    ensures forall c' :: c' >= c ==> NotOwned(h, s, c') && OwnedBelow(h, s, c')
  {
  }

  lemma OtherContext<T>(less: (T, T) -> bool, h: Mem<T>, hd: Handle, p: Plan, t: Tree<T>, c: nat)
    ensures TreeOk(less, h, hd, p, t) ==> TreeOk(less, h, hd.(cow := c), p, t)
    ensures Foot(hd.(cow := c), p) == Foot(hd, p)
  {
  }

  /** A tree put in under a context never used before, over nodes of no other tree's context. */
  lemma PutTree<T>(less: (T, T) -> bool, h: Mem<T>, trees: map<nat, Handle>, plans: map<nat, Plan>, vals: map<nat, Tree<T>>, nextCow: nat, k: nat, hd: Handle, p: Plan, t: Tree<T>)
    requires ForestOk(less, h, trees, plans, vals, nextCow) && hd.cow == nextCow
    requires TreeOk(less, h, hd, p, t) && OwnedBelow(h, Foot(hd, p), nextCow)
    requires forall j :: j in trees && j != k ==> NotOwned(h, Foot(hd, p), trees[j].cow)
    ensures ForestOk(less, h, trees[k := hd], plans[k := p], vals[k := t], nextCow + 1)
  {
    hide TreeOk, Foot, NotOwned, OwnedBelow, TreesOk, Isolated, ContextsOk;
    var trees', plans', vals' := trees[k := hd], plans[k := p], vals[k := t];
    assert trees'.Keys == trees.Keys + {k} && plans'.Keys == trees.Keys + {k} && vals'.Keys == trees.Keys + {k};
    PutTreesOk(less, h, trees, plans, vals, nextCow, k, hd, p, t);
    PutIsolated(less, h, trees, plans, vals, nextCow, k, hd, p);
    PutContexts(trees, nextCow, k, hd);
  }

  lemma PutContexts(trees: map<nat, Handle>, nextCow: nat, k: nat, hd: Handle)
    requires ContextsOk(trees, nextCow) && hd.cow == nextCow
    ensures ContextsOk(trees[k := hd], nextCow + 1)
  {
  }

  lemma PutTreesOk<T>(less: (T, T) -> bool, h: Mem<T>, trees: map<nat, Handle>, plans: map<nat, Plan>, vals: map<nat, Tree<T>>, nextCow: nat, k: nat, hd: Handle, p: Plan, t: Tree<T>)
    requires plans.Keys == trees.Keys && vals.Keys == trees.Keys && TreesOk(less, h, trees, plans, vals, nextCow)
    requires TreeOk(less, h, hd, p, t) && OwnedBelow(h, Foot(hd, p), nextCow)
    ensures trees[k := hd].Keys == plans[k := p].Keys == vals[k := t].Keys
    ensures TreesOk(less, h, trees[k := hd], plans[k := p], vals[k := t], nextCow + 1)
  {
    hide TreeOk, Foot, NotOwned, OwnedBelow;
    var trees', plans', vals' := trees[k := hd], plans[k := p], vals[k := t];
    assert trees'.Keys == trees.Keys + {k} && plans'.Keys == trees.Keys + {k} && vals'.Keys == trees.Keys + {k};
    forall j | j in trees' ensures TreeOk(less, h, trees'[j], plans'[j], vals'[j]) && OwnedBelow(h, Foot(trees'[j], plans'[j]), nextCow + 1) {
      NewContexts(h, Foot(trees'[j], plans'[j]), nextCow);
    }
  }

  lemma PutIsolated<T>(less: (T, T) -> bool, h: Mem<T>, trees: map<nat, Handle>, plans: map<nat, Plan>, vals: map<nat, Tree<T>>, nextCow: nat, k: nat, hd: Handle, p: Plan)
    requires ForestOk(less, h, trees, plans, vals, nextCow) && hd.cow == nextCow
    requires forall j :: j in trees && j != k ==> NotOwned(h, Foot(hd, p), trees[j].cow)
    ensures trees[k := hd].Keys == plans[k := p].Keys && Isolated(h, trees[k := hd], plans[k := p])
  {
    hide TreeOk, Foot, NotOwned, OwnedBelow;
    var trees', plans' := trees[k := hd], plans[k := p];
    assert trees'.Keys == trees.Keys + {k} && plans'.Keys == trees.Keys + {k};
    forall i, j | i in trees' && j in trees' && i != j ensures NotOwned(h, Foot(trees'[i], plans'[i]), trees'[j].cow) {
      if i != k { NewContexts(h, Foot(trees[i], plans[i]), nextCow); }
    }
  }

  lemma CreateOk<T>(less: (T, T) -> bool, h: Mem<T>, trees: map<nat, Handle>, plans: map<nat, Plan>, vals: map<nat, Tree<T>>, nextCow: nat, k: nat, degree: nat)
    requires ForestOk(less, h, trees, plans, vals, nextCow) && k !in trees && degree >= 2
    ensures ForestOk(less, h, trees[k := Handle(degree, 0, None, nextCow)], plans[k := Plan(0, [])], vals[k := New(degree)], nextCow + 1)
  {
    hide TreeOk, Foot, NotOwned, OwnedBelow, ForestOk;
    EmptyTree(less, h, degree, nextCow, Plan(0, []));
    PutTree(less, h, trees, plans, vals, nextCow, k, Handle(degree, 0, None, nextCow), Plan(0, []), New(degree));
  }

  function Cloned(trees: map<nat, Handle>, k: nat, k2: nat, nextCow: nat): map<nat, Handle>
    requires k in trees
  {
    trees[k := trees[k].(cow := nextCow)][k2 := trees[k].(cow := nextCow + 1)]
  }

  /** The shared nodes belong to neither of the two new contexts. */
  lemma CloneOk<T>(less: (T, T) -> bool, h: Mem<T>, trees: map<nat, Handle>, plans: map<nat, Plan>, vals: map<nat, Tree<T>>, nextCow: nat, k: nat, k2: nat)
    requires k in trees && k2 !in trees && k in plans && k in vals
    requires ForestOk(less, h, trees, plans, vals, nextCow)
    ensures ForestOk(less, h, Cloned(trees, k, k2, nextCow), plans[k2 := plans[k]], vals[k2 := vals[k]], nextCow + 2)
  {
    hide TreeOk, Foot, NotOwned, OwnedBelow, ForestOk;
    var hd, p, t := trees[k], plans[k], vals[k];
    OtherContext(less, h, hd, p, t, nextCow);
    OtherContext(less, h, hd, p, t, nextCow + 1);
    SharedNodes(less, h, trees, plans, vals, nextCow, k);
    PutTree(less, h, trees, plans, vals, nextCow, k, hd.(cow := nextCow), p, t);
    assert plans[k := p] == plans && vals[k := t] == vals;
    PutTree(less, h, trees[k := hd.(cow := nextCow)], plans, vals, nextCow + 1, k2, hd.(cow := nextCow + 1), p, t);
  }

  lemma SharedNodes<T>(less: (T, T) -> bool, h: Mem<T>, trees: map<nat, Handle>, plans: map<nat, Plan>, vals: map<nat, Tree<T>>, nextCow: nat, k: nat)
    requires ForestOk(less, h, trees, plans, vals, nextCow) && k in trees
    ensures k in plans && k in vals && TreeOk(less, h, trees[k], plans[k], vals[k])
    ensures OwnedBelow(h, Foot(trees[k], plans[k]), nextCow) && OwnedBelow(h, Foot(trees[k], plans[k]), nextCow + 1)
    ensures NotOwned(h, Foot(trees[k], plans[k]), nextCow)
    ensures forall j :: j in trees && j != k ==> NotOwned(h, Foot(trees[k], plans[k]), trees[j].cow)
  {
    hide TreeOk, Foot, NotOwned, OwnedBelow;
    NewContexts(h, Foot(trees[k], plans[k]), nextCow);
  }

  method DeleteTree<T(!new)>(st: Store<T>, hd: Handle, what: What<T>, ghost p: Plan, ghost t: Tree<T>) returns (out: Option<T>, hd': Handle, ghost p': Plan)
    requires st.Ok() && StrictWeakOrder(st.less) && hd.cow != 0 && TreeOk(st.less, st.mem, hd, p, t) && Valid(st.less, t)
    modifies st
    ensures st.Ok() && hd'.cow == hd.cow
    ensures TreeOk(st.less, st.mem, hd', p', DeleteItem(st.less, t, what).0)
    ensures TreeStep(old(st.mem), st.mem, hd.cow, Foot(hd, p), Foot(hd', p'))
    ensures out == DeleteItem(st.less, t, what).1
  {
    hide StrictWeakOrder, Holds, Ids, FreeOk, BTreeHeap.Step, TreeStep, Wf, Contents, Sorted, Remove, Height, Roots;
    var c := hd.cow;
    ghost var h := st.mem;
    DeleteItemOk(st.less, t, what);
    TreeStepRefl(st.less, h, c, hd, p, t);
    if hd.root.None? {
      return None, hd, p;
    }
    ghost var n := t.root.value;
    HoldsRoot(h, p, n);
    if |st.mem[hd.root.value].items| == 0 {
      return None, hd, p;
    }
    var root := st.MutableFor(hd.root.value, c);
    MutableRoot(h, st.mem, c, p, n, root);
    ghost var q, h1, depth := Plan(root, p.kids), st.mem, Height(n);
    out, p' := RemoveAt(st, root, what, hd.degree, c, q, n, depth);
    ghost var m, h2 := Remove(st.less, n, what, hd.degree, depth).0, st.mem;
    StepTree(h1, h2, c, q, p', m);
    TreeStepTrans(h, h1, h2, c, Ids(p), Ids(q), Ids(p'));
    HoldsRoot(h2, p', m);
    RootsSlice(p'.kids, 0);
    hd' := hd.(root := Some(root));
    if |st.mem[root].items| == 0 && |st.mem[root].children| > 0 {
      var oldroot := root;
      root := st.mem[root].children[0];
      hd' := hd.(root := Some(root));
      var kind := st.FreeNode(c, oldroot);
      ShrinkStep(h2, st.mem, c, p', m);
      TreeStepTrans(h, h2, st.mem, c, Ids(p), Ids(p'), Ids(p'.kids[0]));
      p' := p'.kids[0];
    }
    if out.Some? {
      hd' := hd'.(length := hd'.length - 1);
    }
  }

  lemma TreeStepRefl<T>(less: (T, T) -> bool, h: Mem<T>, c: nat, hd: Handle, p: Plan, t: Tree<T>)
    requires TreeOk(less, h, hd, p, t)
    ensures TreeStep(h, h, c, Foot(hd, p), Foot(hd, p))
  {
    hide Holds, Ids, Valid;
    if hd.root.Some? { HoldsLive(h, p, t.root.value, {}); }
  }

  /** An empty root, owned by `c`, given up for its first child. */
  lemma ShrinkStep<T>(h: Mem<T>, h': Mem<T>, c: nat, p: Plan, n: Node<T>)
    requires Holds(h, p, n) && p.id in h && h[p.id].cow == c && |p.kids| == |n.children| > 0
    requires h' == h[p.id := Rec([], [], [], 0)]
    ensures Roots(p.kids)[0] == p.kids[0].id && Holds(h', p.kids[0], n.children[0])
    ensures TreeStep(h, h', c, Ids(p), Ids(p.kids[0]))
  {
    hide Repr, AllIds;
    HoldsRoot(h, p, n);
    KidHolds(h, p, n, 0);
    AllIdsMember(p.kids, 0);
    HoldsLive(h, p, n, {});
    ReprFrame(h, h', p.kids[0], n.children[0]);
  }
}
