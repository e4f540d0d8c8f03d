/** The in-place, copy-on-write form of the B-tree (btree.go:83-122, 342-455, 542-660, 766-849).
    Every method is proved to compute the corresponding operation on values, and to change only nodes
    that its own copy-on-write context owns. */
module CowStore {
  import opened SortedSeq
  import opened BTreeNode
  import opened BTreeOps
  import opened BTreeInsert
  import opened BTreeHeap
  import Indices

  datatype FreeType = FreeListFull | InFreeList | NotOwned

  class Store<T(!new)> {
    const less: (T, T) -> bool
    const cap: nat         // capacity of the free list
    var mem: Mem<T>
    var free: seq<Id>      // the free list shared by all contexts
    var next: Id           // addresses from here on have never been used

    constructor (less: (T, T) -> bool, cap: nat)
      ensures Ok() && this.less == less && this.cap == cap && mem == map[]
    {
      this.less, this.cap := less, cap;
      mem, free, next := map[], [], 0;
    }

    ghost predicate Ok()
      reads this
    {
      FreeOk(mem, free, next)
    }

    /** `copyOnWriteContext.newNode` (btree.go:98-110, 819-823). */
    method NewNode(c: nat) returns (id: Id)
      requires Ok() && c != 0
      modifies this
      ensures Ok()
      ensures Unused(old(mem), {id}) && mem == old(mem)[id := Rec([], [], [], c)]
    {
      var index := |free| - 1;
      if index < 0 {
        id := next;
        next := next + 1;
        mem := mem[id := Rec([], [], [], c)];
      } else {
        id := free[index];
        free := free[..index];
        mem := mem[id := mem[id].(cow := c)];
      }
    }

    /** `mutableFor` (btree.go:358-384): the node itself if `c` owns it, else a copy that `c` owns. */
    method MutableFor(id: Id, c: nat) returns (out: Id)
      requires Ok() && c != 0 && id in mem && mem[id].cow != 0
      modifies this
      ensures Ok()
      ensures old(mem[id].cow) == c ==> out == id && mem == old(mem)
      ensures old(mem[id].cow) != c ==> Unused(old(mem), {out}) && mem == old(mem)[out := old(mem)[id].(cow := c)]
    {
      if mem[id].cow == c {
        return id;
      }
      out := NewNode(c);
      mem := mem[out := mem[out].(items := mem[id].items)];
      mem := mem[out := mem[out].(children := mem[id].children)];
      mem := mem[out := mem[out].(indices := mem[id].indices)];
    }

    /** `mutableChild` (btree.go:386-390). */
    method MutableChild(id: Id, i: nat, c: nat, ghost p: Plan, ghost n: Node<T>) returns (child: Id, ghost p': Plan)
      requires Ok() && c != 0 && p.id == id && Holds(mem, p, n) && mem[id].cow == c && i < |n.children|
      modifies this
      ensures Ok() && Step(old(mem), mem, c, p, p', n)
      ensures |p'.kids| == |n.children| && p'.kids[i].id == child && child in mem && mem[child].cow == c
      ensures mem[id].items == old(mem[id].items) && mem[id].indices == old(mem[id].indices)
      ensures |p.kids| == |n.children| && p'.kids == p.kids[i := Plan(child, p.kids[i].kids)]
      ensures forall x :: x in old(mem) && x != id && old(mem)[x].cow != 0 ==> x in mem && mem[x] == old(mem)[x]
    {
      hide Holds, Step, Roots, AllIds, Ids, AllHold, Frame, FreeOk;
      HoldsRoot(mem, p, n);
      HoldsKids(mem, p, n);
      ghost var h, k := mem, p.kids[i];
      KidHolds(mem, p, n, i);
      HoldsRoot(mem, k, n.children[i]);
      child := MutableFor(mem[id].children[i], c);
      ghost var h1 := mem;
      HoldsLive(h, p, n, {child});
      RootIn(p);
      WriteOk(mem, free, next, id, mem[id].(children := mem[id].children[i := child]));
      mem := mem[id := mem[id].(children := mem[id].children[i := child])];
      p' := Plan(id, p.kids[..i] + [Plan(child, k.kids)] + p.kids[i+1..]);
      MutableChildStep(h, h1, mem, c, p, n, i, child);
    }

    /** `node.length` on a stored node. */
    function LengthAt(id: Id): int
      requires id in mem
      reads this
    {
      if |mem[id].indices| == 0 then |mem[id].items| else mem[id].indices[|mem[id].indices| - 1]
    }

    /** `initSize` (btree.go:342-356). */
    method InitSizeAt(ids: seq<Id>, ghost ps: seq<Plan>, ghost ns: seq<Node<T>>) returns (r: seq<int>)
      requires AllHold(mem, ps, ns) && ids == Roots(ps)
      ensures r == InitSize(ns)
    {
      hide Holds, Ids, Length;
      r := [];
      for i := 0 to |ids|
        invariant r == InitSize(ns[..i])
      {
        SameLength(mem, ps[i], ns[i]);
        assert ns[..i+1][..i] == ns[..i];
        if i == 0 {
          r := [LengthAt(ids[i])];
        } else {
          r := r + [r[i-1] + 1 + LengthAt(ids[i])];
        }
      }
      assert ns[..|ids|] == ns;
    }

    /** `split` (btree.go:395-407). */
    method Split(id: Id, i: nat, ghost p: Plan, ghost n: Node<T>) returns (item: T, second: Id)
      requires Ok() && p.id == id && Holds(mem, p, n) && Local(n) && i < |n.items|
      modifies this
      ensures Ok() && Unused(old(mem), {second}) && item == n.items[i] && id in old(mem)
      ensures var c := old(mem[id].cow); var kids := CutPlan(p, i);
        mem == old(mem)[second := Stored(SplitRight(n, i), kids.1, c)][id := Stored(SplitLeft(n, i), kids.0, c)]
    {
      hide Holds, Ids, AllIds, AllHold, InitSize, Roots, FreeOk;
      HoldsRoot(mem, p, n);
      RootsSlice(p.kids, i + 1);
      ghost var h := mem;
      var c := mem[id].cow;
      item := mem[id].items[i];
      second := NewNode(c);
      HoldsLive(h, p, n, {second});
      RootIn(p);
      var left, right := mem[id], mem[second];
      right := right.(items := left.items[i+1..]);
      left := left.(items := left.items[..i]);
      if |left.children| > 0 {
        right := right.(children := left.children[i+1..]);
        OtherKidsSame(h, mem, p, n, id, second, i + 1);
        var sizes := InitSizeAt(right.children, p.kids[i+1..], n.children[i+1..]);
        right := right.(indices := sizes);
        left := left.(children := left.children[..i+1]);
        left := left.(indices := left.indices[..i+1]);
      } else {
        RootsEmpty(p.kids);
      }
      WriteOk(mem, free, next, second, right);
      mem := mem[second := right];
      assert mem == h[second := right];
      WriteOk(mem, free, next, id, left);
      mem := mem[id := left];
    }

    /** `maybeSplitChild` (btree.go:411-421). */
    method MaybeSplitChild(id: Id, i: nat, maxItems: nat, c: nat, ghost p: Plan, ghost n: Node<T>) returns (did: bool, ghost p': Plan)
      requires Ok() && c != 0 && p.id == id && Holds(mem, p, n) && mem[id].cow == c && maxItems > 0
      requires i < |n.children| && Local(n) && Local(n.children[i])
      modifies this
      ensures Ok() && did == (|n.children[i].items| >= maxItems)
      ensures !did ==> Step(old(mem), mem, c, p, p', n)
      ensures did ==> Step(old(mem), mem, c, p, p', SplitChild(n, i, maxItems / 2))
    {
      hide Holds, Step, Roots, AllIds, Ids, AllHold, Frame, FreeOk, SplitLeft, SplitRight, Length;
      HoldsRoot(mem, p, n);
      RootsSlice(p.kids, i);
      KidHolds(mem, p, n, i);
      HoldsRoot(mem, p.kids[i], n.children[i]);
      if |mem[mem[id].children[i]].items| < maxItems {
        StepRefl(mem, c, p, n);
        return false, p;
      }
      ghost var h := mem;
      var first, p1 := MutableChild(id, i, c, p, n);
      ghost var h1, at := mem, maxItems / 2;
      StepHolds(h, mem, c, p, p1, n);
      KidHolds(mem, p1, n, i);
      HoldsRoot(mem, p1, n);
      var item, second := Split(first, maxItems / 2, p1.kids[i], n.children[i]);
      SplitDistinct(h1, p1, n, i, second);
      var rec := mem[id];
      rec := rec.(items := rec.items[..i] + [item] + rec.items[i..]);
      rec := rec.(children := rec.children[..i+1] + [second] + rec.children[i+1..]);
      StoredLength(SplitRight(n.children[i], at), CutPlan(p1.kids[i], at).1, c);
      var indices := Indices.Split(rec.indices, i, LengthAt(second));
      rec := rec.(indices := indices);
      WriteOk(mem, free, next, id, rec);
      mem := mem[id := rec];
      p' := SplitPlan(p1, i, at, second);
      SplitStep(h1, mem, c, p1, n, i, at, second);
      StepTrans(h, h1, mem, c, p, p1, p', n, SplitChild(n, i, at));
      did := true;
    }

    /** `insert` (btree.go:426-455) in place. */
    method InsertAt(id: Id, x: T, maxItems: nat, c: nat, ghost p: Plan, ghost n: Node<T>, ghost depth: nat) returns (out: Option<T>, ghost p': Plan)
      requires Ok() && c != 0 && p.id == id && Holds(mem, p, n) && mem[id].cow == c
      requires Shape(n, depth) && maxItems > 0
      modifies this
      ensures Ok() && Step(old(mem), mem, c, p, p', Insert(less, n, x, maxItems, depth).0)
      ensures out == Insert(less, n, x, maxItems, depth).1
      decreases depth, 1
    {
      hide Holds, Step, Roots, AllIds, Ids, AllHold, Frame, FreeOk, Find, SplitChild, InsertBelow;
      HoldsRoot(mem, p, n);
      RootsSlice(p.kids, 0);
      var (i, found) := Find(less, mem[id].items, x);
      FindRange(less, mem[id].items, x);
      if found {
        out := Some(mem[id].items[i]);
        WriteItems(mem, free, next, c, p, n, mem[id].items[i := x]);
        mem := mem[id := mem[id].(items := mem[id].items[i := x])];
        return out, p;
      }
      if |mem[id].children| == 0 {
        var items := mem[id].items[..i] + [x] + mem[id].items[i..];
        WriteItems(mem, free, next, c, p, n, items);
        mem := mem[id := mem[id].(items := items)];
        return None, p;
      }
      ShapeLocal(n, i, depth);
      ghost var h := mem;
      var did, p1 := MaybeSplitChild(id, i, maxItems, c, p, n);
      ghost var h1, n1 := mem, n;
      if did {
        n1 := SplitChild(n, i, maxItems / 2);
        SplitChildShape(n, i, maxItems / 2, depth);
        SplitChildSize(n, i, maxItems / 2);
        StepHolds(h, mem, c, p, p1, n1);
        HoldsRoot(mem, p1, n1);
        var inTree := mem[id].items[i];
        if less(x, inTree) {
        } else if less(inTree, x) {
          i := i + 1;
        } else {
          out := Some(mem[id].items[i]);
          WriteItems(mem, free, next, c, p1, n1, mem[id].items[i := x]);
          mem := mem[id := mem[id].(items := mem[id].items[i := x])];
          StepTrans(h, h1, mem, c, p, p1, p1, n1, WithItem(n1, i, x));
          return out, p1;
        }
      } else {
        StepHolds(h, mem, c, p, p1, n1);
      }
      out, p' := InsertChild(id, i, x, maxItems, c, p1, n1, depth);
      StepTrans(h, h1, mem, c, p, p1, p', n1, InsertBelow(less, n1, i, x, maxItems, depth).0);
    }

    method InsertChild(id: Id, i: nat, x: T, maxItems: nat, c: nat, ghost p: Plan, ghost n: Node<T>, ghost depth: nat) returns (out: Option<T>, ghost p': Plan)
      requires Ok() && c != 0 && p.id == id && Holds(mem, p, n) && mem[id].cow == c
      requires Shape(n, depth) && depth > 0 && maxItems > 0 && i < |n.children|
      modifies this
      ensures Ok() && Step(old(mem), mem, c, p, p', InsertBelow(less, n, i, x, maxItems, depth).0)
      ensures out == InsertBelow(less, n, i, x, maxItems, depth).1
      decreases depth, 0
    {
      hide Holds, Step, Roots, AllIds, Ids, AllHold, Frame, FreeOk, Insert, WithChild;
      ghost var h := mem;
      var child, p1 := MutableChild(id, i, c, p, n);
      ghost var h1 := mem;
      StepHolds(h, h1, c, p, p1, n);
      HoldsRoot(h1, p1, n);
      KidHolds(h1, p1, n, i);
      ghost var k;
      out, k := InsertAt(child, x, maxItems, c, p1.kids[i], n.children[i], depth - 1);
      ghost var h2, m := mem, Insert(less, n.children[i], x, maxItems, depth - 1).0;
      ghost var delta := if out.None? then 1 else 0;
      ChildStep(h1, h2, c, p1, n, i, k, m, delta);
      if out.None? {
        var indices := Indices.AddAt(mem[id].indices, i, 1);
        WriteOk(mem, free, next, id, mem[id].(indices := indices));
        mem := mem[id := mem[id].(indices := indices)];
      }
      p' := Plan(id, p1.kids[..i] + [k] + p1.kids[i+1..]);
      StepTrans(h, h1, mem, c, p, p1, p', n, WithChild(n, i, m, delta));
    }

    /** `copyOnWriteContext.freeNode` (btree.go:114-122, 836-849): only an owned node is emptied, and it
        goes to the free list while that has room. */
    method FreeNode(c: nat, id: Id) returns (kind: FreeType)
      requires Ok() && c != 0 && id in mem
      modifies this
      ensures Ok()
      ensures old(mem[id].cow) == c ==> mem == old(mem)[id := Rec([], [], [], 0)]
      ensures old(mem[id].cow) != c ==> mem == old(mem) && free == old(free)
      ensures kind == if old(mem[id].cow) != c then NotOwned else if |old(free)| < cap then InFreeList else FreeListFull
      ensures |old(free)| <= cap ==> |free| <= cap
    {
      if mem[id].cow == c {
        mem := mem[id := Rec([], [], [], 0)];
        if |free| < cap {
          free := free + [id];
          return InFreeList;
        }
        return FreeListFull;
      }
      return NotOwned;
    }
  }

  lemma RootIn(p: Plan)
    ensures p.id in Ids(p)
  {
  }

  lemma KidHolds<T>(h: Mem<T>, p: Plan, n: Node<T>, i: nat)
    requires Holds(h, p, n) && i < |p.kids| == |n.children|
    ensures h[p.id].children[i] == p.kids[i].id && Holds(h, p.kids[i], n.children[i])
  {
  }

  lemma MutableChildStep<T>(h: Mem<T>, h1: Mem<T>, h2: Mem<T>, c: nat, p: Plan, n: Node<T>, i: nat, child: Id)
    requires Holds(h, p, n) && h[p.id].cow == c && i < |p.kids| == |n.children|
    requires p.kids[i].id in h && (if h[p.kids[i].id].cow == c then child == p.kids[i].id && h1 == h
      else Unused(h, {child}) && h1 == h[child := h[p.kids[i].id].(cow := c)])
    requires p.id in h1 && i < |h1[p.id].children| && h2 == h1[p.id := h1[p.id].(children := h1[p.id].children[i := child])]
    ensures Step(h, h2, c, p, Plan(p.id, p.kids[..i] + [Plan(child, p.kids[i].kids)] + p.kids[i+1..]), n)
    ensures child in h2 && h2[child].cow == c
  {
    hide Repr, AllIds;
    var k, m := p.kids[i], n.children[i];
    var k' := Plan(child, k.kids);
    HoldsRoot(h, p, n);
    KidHolds(h, p, n, i);
    HoldsRoot(h, k, m);
    HoldsKids(h, k, m);
    HoldsLive(h, p, n, {child});
    KidsApart(p, i, i + 1);
    assert p.kids[i..i+1] == [k];
    AllIdsOne(k);
    AllIdsOne(k');
    AllHoldFrame(h, h2, k.kids, m.children);
    HoldsNode(h2, child, k.kids, m);
    Rebuild(h, h2, c, p, n, i, i + 1, [k'], [m], n.items, n.indices);
    assert n.children[..i] + [m] + n.children[i+1..] == n.children;
    assert Node(n.items, n.children, n.indices) == n;
  }

  ghost function Stored<T>(n: Node<T>, kids: seq<Plan>, c: nat): Rec<T> {
    Rec(n.items, Roots(kids), n.indices, c)
  }

  /** The addresses of the children on either side of a split at item `i`. */
  ghost function CutPlan(p: Plan, i: nat): (seq<Plan>, seq<Plan>) {
    if i + 1 <= |p.kids| then (p.kids[..i+1], p.kids[i+1..]) else (p.kids, [])
  }

  lemma SameLength<T>(h: Mem<T>, p: Plan, n: Node<T>)
    requires Holds(h, p, n)
    ensures p.id in h && Length(n) == if |h[p.id].indices| == 0 then |h[p.id].items| else h[p.id].indices[|h[p.id].indices| - 1]
  {
  }

  lemma RootsSlice(ps: seq<Plan>, k: nat)
    ensures k <= |ps| ==> Roots(ps)[k..] == Roots(ps[k..]) && Roots(ps)[..k] == Roots(ps[..k])
    ensures |Roots(ps)| == |ps|
  {
  }

  lemma RootsEmpty(ps: seq<Plan>)
    ensures |Roots(ps)| == |ps| && Roots([]) == []
  {
  }

  lemma OtherKidsSame<T>(h: Mem<T>, h': Mem<T>, p: Plan, n: Node<T>, id: Id, second: Id, k: nat)
    requires Holds(h, p, n) && p.id == id && second !in Ids(p) && k <= |p.kids| == |n.children|
    requires forall x :: x in h && x != id && x != second ==> x in h' && h'[x] == h[x]
    ensures AllHold(h', p.kids[k..], n.children[k..])
  {
    hide AllIds, Repr, Apart;
    HoldsKids(h, p, n);
    HoldsRoot(h, p, n);
    KidsApart(p, k, k);
    AllHoldFrame(h, h', p.kids, n.children);
    AllHoldSlice(h', p.kids, n.children, k, |p.kids|);
    assert p.kids[k..|p.kids|] == p.kids[k..] && n.children[k..|n.children|] == n.children[k..];
  }

  lemma StepHolds<T>(h: Mem<T>, h': Mem<T>, c: nat, p: Plan, p': Plan, n: Node<T>)
    requires Step(h, h', c, p, p', n)
    ensures p'.id == p.id && p.id in h' && Holds(h', p', n) && h'[p.id].cow == c
  {
  }

  lemma StoredLength<T>(n: Node<T>, kids: seq<Plan>, c: nat)
    ensures var r := Stored(n, kids, c);
      Length(n) == if |r.indices| == 0 then |r.items| else r.indices[|r.indices| - 1]
  {
  }

  lemma SplitDistinct<T>(h: Mem<T>, p: Plan, n: Node<T>, i: nat, second: Id)
    requires Holds(h, p, n) && i < |p.kids| && Unused(h, {second})
    ensures second != p.id && second != p.kids[i].id && p.id != p.kids[i].id
  {
    hide Repr;
    HoldsLive(h, p, n, {second});
    AllIdsMember(p.kids, i);
  }

  ghost function SplitPlan(p: Plan, i: nat, at: nat, second: Id): Plan
    requires i < |p.kids|
  {
    var k := p.kids[i];
    Plan(p.id, p.kids[..i] + [Plan(k.id, CutPlan(k, at).0), Plan(second, CutPlan(k, at).1)] + p.kids[i+1..])
  }

  /** Splitting child `i`, which `c` owns, with the new sibling at `second`. */
  lemma SplitStep<T>(h: Mem<T>, h': Mem<T>, c: nat, p: Plan, n: Node<T>, i: nat, at: nat, second: Id)
    requires Holds(h, p, n) && h[p.id].cow == c && i < |p.kids| == |n.children| && c != 0
    requires Local(n) && Local(n.children[i]) && at < |n.children[i].items|
    requires p.kids[i].id in h && h[p.kids[i].id].cow == c && Unused(h, {second})
    requires var (k, m) := (p.kids[i], n.children[i]); var cut := CutPlan(k, at); var s := SplitChild(n, i, at);
      h' == h[second := Stored(SplitRight(m, at), cut.1, c)][k.id := Stored(SplitLeft(m, at), cut.0, c)]
             [p.id := Rec(s.items, Roots(p.kids)[..i+1] + [second] + Roots(p.kids)[i+1..], s.indices, c)]
    ensures Step(h, h', c, p, SplitPlan(p, i, at, second), SplitChild(n, i, at))
  {
    hide Repr, AllIds, SplitLeft, SplitRight, Apart;
    var k, m := p.kids[i], n.children[i];
    var cut := CutPlan(k, at);
    var l, r := Plan(k.id, cut.0), Plan(second, cut.1);
    var ln, rn := SplitLeft(m, at), SplitRight(m, at);
    HoldsRoot(h, p, n);
    KidHolds(h, p, n, i);
    HoldsRoot(h, k, m);
    HoldsLive(h, p, n, {second});
    SplitDistinct(h, p, n, i, second);
    KidsApart(p, i, i + 1);
    assert p.kids[i..i+1] == [k];
    AllIdsOne(k);
    SplitHalves(h, h', c, k, m, at, second);
    AllIdsTwo(l, r);
    RootsSplice(p.kids, i, l, r);
    Rebuild(h, h', c, p, n, i, i + 1, [l, r], [ln, rn], SplitChild(n, i, at).items, SplitChild(n, i, at).indices);
  }

  lemma RootsSplice(ps: seq<Plan>, i: nat, l: Plan, r: Plan)
    requires i < |ps| && l.id == ps[i].id
    ensures Roots(ps[..i] + [l, r] + ps[i+1..]) == Roots(ps)[..i+1] + [r.id] + Roots(ps)[i+1..]
  {
  }

  /** The two halves of a split node hold, at its own address and at a new one. */
  lemma SplitHalves<T>(h: Mem<T>, h': Mem<T>, c: nat, k: Plan, m: Node<T>, at: nat, second: Id)
    requires Holds(h, k, m) && Local(m) && at < |m.items| && c != 0
    requires second !in Ids(k) && second in h' && k.id in h'
    requires h'[second] == Stored(SplitRight(m, at), CutPlan(k, at).1, c)
    requires h'[k.id] == Stored(SplitLeft(m, at), CutPlan(k, at).0, c)
    requires SameOn(h, h', AllIds(k.kids))
    ensures var cut := CutPlan(k, at); var (l, r) := (Plan(k.id, cut.0), Plan(second, cut.1));
      && AllHold(h', [l, r], [SplitLeft(m, at), SplitRight(m, at)])
      && Ids(l) + Ids(r) == Ids(k) + {second}
  {
    hide Repr, AllIds, Apart, InitSize;
    var cut := CutPlan(k, at);
    var l, r := Plan(k.id, cut.0), Plan(second, cut.1);
    HoldsRoot(h, k, m);
    HoldsKids(h, k, m);
    AllHoldFrame(h, h', k.kids, m.children);
    var a := |cut.0|;
    AllHoldSlice(h', k.kids, m.children, 0, a);
    AllHoldSlice(h', k.kids, m.children, a, |k.kids|);
    KidsApart(k, a, a);
    assert k.kids[0..a] == cut.0 && k.kids[a..|k.kids|] == cut.1 == k.kids[a..] && k.kids[..a] == cut.0;
    assert m.children[0..a] == SplitLeft(m, at).children && m.children[a..|k.kids|] == SplitRight(m, at).children;
    NoIds();
    assert k.kids[a..a] == [];
    HoldsNode(h', k.id, cut.0, SplitLeft(m, at));
    HoldsNode(h', second, cut.1, SplitRight(m, at));
    ApartTwo(l, r);
  }

  lemma NoIds()
    ensures AllIds([]) == {}
  {
  }

  lemma ApartTwo(l: Plan, r: Plan)
    requires Ids(l) !! Ids(r)
    ensures Apart([l, r])
  {
  }

  lemma FindRange<T>(less: (T, T) -> bool, s: seq<T>, x: T)
    ensures Find(less, s, x).0 <= |s| && (Find(less, s, x).1 ==> Find(less, s, x).0 < |s|)
  {
  }

  lemma ShapeLocal<T>(n: Node<T>, i: nat, depth: nat)
    requires Shape(n, depth) && i < |n.children|
    ensures depth > 0 && Local(n) && Local(n.children[i])
  {
    assert Shape(n.children[i], depth - 1);
  }

  lemma SplitChildSize<T>(n: Node<T>, i: nat, at: nat)
    requires i < |n.children| && Local(n) && Local(n.children[i]) && at < |n.children[i].items|
    ensures |SplitChild(n, i, at).items| == |n.items| + 1 && |SplitChild(n, i, at).children| == |n.children| + 1
  {
  }

  /** Overwriting the items of a node that `c` owns. */
  lemma WriteItems<T>(h: Mem<T>, free: seq<Id>, next: Id, c: nat, p: Plan, n: Node<T>, items: seq<T>)
    requires FreeOk(h, free, next) && Holds(h, p, n) && h[p.id].cow == c
    ensures p.id in h
    ensures var h' := h[p.id := h[p.id].(items := items)];
      FreeOk(h', free, next) && Step(h, h', c, p, p, Node(items, n.children, n.indices))
  {
    hide Repr, AllIds, Roots, Apart, FreeOk;
    HoldsRoot(h, p, n);
    WriteOk(h, free, next, p.id, h[p.id].(items := items));
    WriteSame(h, c, p, n, items, n.indices);
  }

  /** Overwriting items and indices, keeping the children. */
  lemma WriteSame<T>(h: Mem<T>, c: nat, p: Plan, n: Node<T>, items: seq<T>, indices: seq<int>)
    requires Holds(h, p, n) && h[p.id].cow == c
    ensures Step(h, h[p.id := Rec(items, h[p.id].children, indices, c)], c, p, p, Node(items, n.children, indices))
  {
    hide Repr, AllIds, Roots, Apart;
    HoldsRoot(h, p, n);
    var h' := h[p.id := Rec(items, h[p.id].children, indices, c)];
    NoIds();
    assert p.kids[..0] + [] + p.kids[0..] == p.kids && n.children[..0] + [] + n.children[0..] == n.children;
    var none: seq<Node<T>> := [];
    NothingHolds(h', none);
    Rebuild(h, h', c, p, n, 0, 0, [], none, items, indices);
  }

  lemma OneHolds<T>(h: Mem<T>, p: Plan, n: Node<T>)
    requires Holds(h, p, n)
    ensures AllHold(h, [p], [n])
  {
  }

  lemma NothingHolds<T>(h: Mem<T>, none: seq<Node<T>>)
    requires none == []
    ensures AllHold(h, [], none)
  {
  }

  /** After an operation on child `i`, the node holds the changed child; the indices may follow. */
  lemma ChildStep<T>(h: Mem<T>, h': Mem<T>, c: nat, p: Plan, n: Node<T>, i: nat, k: Plan, m: Node<T>, delta: int)
    requires Holds(h, p, n) && h[p.id].cow == c && c != 0 && i < |p.kids| == |n.children| && i <= |n.indices|
    requires Step(h, h', c, p.kids[i], k, m)
    ensures p.id in h' && h'[p.id] == h[p.id]
    ensures var h2 := if delta == 0 then h' else h'[p.id := h'[p.id].(indices := Indices.AddedAt(h'[p.id].indices, i, delta))];
      Step(h, h2, c, p, Plan(p.id, p.kids[..i] + [k] + p.kids[i+1..]), WithChild(n, i, m, delta))
  {
    hide Repr, AllIds, Apart, Indices.AddedAt;
    HoldsRoot(h, p, n);
    KidsApart(p, i, i + 1);
    assert p.kids[i..i+1] == [p.kids[i]];
    AllIdsOne(p.kids[i]);
    AllIdsOne(k);
    var w := WithChild(n, i, m, delta);
    var h2 := if delta == 0 then h' else h'[p.id := h'[p.id].(indices := Indices.AddedAt(h'[p.id].indices, i, delta))];
    HoldsLive(h, p, n, Ids(k) - Ids(p.kids[i]));
    OneHolds(h', k, m);
    AllHoldFrame(h', h2, [k], [m]);
    assert Roots(p.kids[..i] + [k] + p.kids[i+1..]) == Roots(p.kids);
    Rebuild(h, h2, c, p, n, i, i + 1, [k], [m], n.items, w.indices);
    assert n.children[..i] + [m] + n.children[i+1..] == n.children[i := m];
    assert w == Node(n.items, n.children[..i] + [m] + n.children[i+1..], w.indices);
  }
}
