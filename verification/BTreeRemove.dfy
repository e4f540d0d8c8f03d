/** Removal (btree.go:532-660) on values. */
module BTreeRemove {
  import opened SortedSeq
  import opened BTreeNode
  import opened BTreeOps
  import opened BTreeInsert
  import opened BTreeGrow
  import Indices

  /** What to remove: an item equivalent to `x`, the smallest or the largest. */
  datatype What<T> = Item(x: T) | Min | Max

  // ---------- growing a child that is too small ----------

  /** The first part of `growChildAndRemove` (btree.go:614-658) in a tree of degree `d`. */
  function Grow<T>(n: Node<T>, i: nat, d: nat, ghost depth: nat): Node<T>
    requires Wf(n, depth, d) && depth > 0 && i < |n.children| && |n.items| > 0 && d >= 2
  {
    WfNow(n, depth, d);
    ChildrenLocal(n, depth, d);
    if i > 0 && |n.children[i-1].items| > d - 1 then StealLeft(n, i)
    else if i < |n.items| && |n.children[i+1].items| > d - 1 then StealRight(n, i)
    else MergeWithRight(n, if i >= |n.items| then i - 1 else i)
  }

  /** Where the grown child is afterwards. */
  function GrownAt<T>(n: Node<T>, i: nat, d: nat): nat
    requires i < |n.children| <= |n.items| + 1 && |n.items| > 0
  {
    if i > 0 && |n.children[i-1].items| > d - 1 then i
    else if i >= |n.items| then i - 1
    else i
  }

  lemma ChildrenLocal<T>(n: Node<T>, depth: nat, d: nat)
    requires Wf(n, depth, d) && depth > 0
    ensures forall i :: 0 <= i < |n.children| ==> Local(n.children[i])
  {
    hide Contents, Wf;
    WfChild(n, depth, d);
    forall i | 0 <= i < |n.children| ensures Local(n.children[i]) {
      WfNow(n.children[i], depth - 1, d);
    }
  }

  /** Growing keeps the invariant and the contents, costs at most one item of the node, and leaves
      more than the minimum in the grown child. */
  lemma GrowOk<T>(n: Node<T>, i: nat, depth: nat, d: nat)
    requires Wf(n, depth, d) && depth > 0 && i < |n.children| && |n.items| > 0 && d >= 2
    requires |n.children[i].items| <= d - 1
    ensures Local(n)
    ensures var m := Grow(n, i, d, depth);
      && Wf(m, depth, d)
      && Contents(m) == Contents(n)
      && |m.items| >= |n.items| - 1
      && GrownAt(n, i, d) < |m.children| == |m.items| + 1 && |m.children[GrownAt(n, i, d)].items| > d - 1
  {
    hide Contents, Wf, StealLeft, StealRight, MergeWithRight;
    WfNow(n, depth, d);
    WfChild(n, depth, d);
    ChildrenLocal(n, depth, d);
    var m := Grow(n, i, d, depth);
    if i > 0 && |n.children[i-1].items| > d - 1 {
      StealLeftOk(n, i, depth, d);
    } else if i < |n.items| && |n.children[i+1].items| > d - 1 {
      StealRightOk(n, i, depth, d);
    } else {
      var j := if i >= |n.items| then i - 1 else i;
      MergeContents(n, j, depth, d);
      MergeWf(n, j, depth, d);
      MergeItems(n, j);
    }
    WfNow(m, depth, d);
  }

  lemma MergeItems<T>(n: Node<T>, i: nat)
    requires i < |n.items| && Local(n) && n.children != []
    ensures MergeWithRight(n, i).items == DelAt(n.items, i)
  {
  }

  lemma StealLeftOk<T>(n: Node<T>, i: nat, depth: nat, d: nat)
    requires Wf(n, depth, d) && depth > 0 && 0 < i < |n.children| && d >= 2
    requires |n.children[i].items| <= d - 1 && |n.children[i-1].items| > d - 1
    ensures Local(n) && Local(n.children[i-1])
    ensures var m := StealLeft(n, i);
      && Wf(m, depth, d)
      && Contents(m) == Contents(n)
      && m.items == n.items[i-1 := n.children[i-1].items[|n.children[i-1].items|-1]]
      && |m.children| == |n.children| && |m.children[i].items| > d - 1
  {
    hide Contents, Wf, DropLast, LastSize;
    WfNow(n, depth, d);
    WfChild(n, depth, d);
    ChildrenLocal(n, depth, d);
    var l, c, y := n.children[i-1], n.children[i], n.items[i-1];
    LendLast(l, y, c, depth - 1, d);
    WithPairContents(n, i - 1, DropLast(l), l.items[|l.items|-1], Prepend(c, y, l), 1 + LastSize(l));
    WithPairWf(n, i - 1, DropLast(l), l.items[|l.items|-1], Prepend(c, y, l), 1 + LastSize(l), depth, d);
  }

  lemma StealRightOk<T>(n: Node<T>, i: nat, depth: nat, d: nat)
    requires Wf(n, depth, d) && depth > 0 && i < |n.items| && |n.children| == |n.items| + 1 && d >= 2
    requires |n.children[i].items| <= d - 1 && |n.children[i+1].items| > d - 1
    ensures Local(n) && Local(n.children[i+1])
    ensures var m := StealRight(n, i);
      && Wf(m, depth, d)
      && Contents(m) == Contents(n)
      && m.items == n.items[i := n.children[i+1].items[0]]
      && |m.children| == |n.children| && |m.children[i].items| > d - 1
  {
    hide Contents, Wf, DropFirst, FirstSize;
    WfNow(n, depth, d);
    WfChild(n, depth, d);
    ChildrenLocal(n, depth, d);
    var c, y, r := n.children[i], n.items[i], n.children[i+1];
    LendFirst(c, y, r, depth - 1, d);
    WithPairContents(n, i, Append(c, y, r), r.items[0], DropFirst(r), -1 - FirstSize(r));
    WithPairWf(n, i, Append(c, y, r), r.items[0], DropFirst(r), -1 - FirstSize(r), depth, d);
  }

  // ---------- remove ----------

  function Position<T>(less: (T, T) -> bool, n: Node<T>, what: What<T>): (r: (nat, bool))
    ensures r.0 <= |n.items| && (r.1 ==> r.0 < |n.items|)
  {
    match what
    case Max => (|n.items|, false)
    case Min => (0, false)
    case Item(x) => Find(less, n.items, x)
  }

  function RemoveFromLeaf<T>(less: (T, T) -> bool, n: Node<T>, what: What<T>): (r: (Node<T>, Option<T>))
    requires |n.items| > 0
  {
    match what
    case Max => (Node(DelAt(n.items, |n.items| - 1), n.children, n.indices), Some(n.items[|n.items| - 1]))
    case Min => (Node(DelAt(n.items, 0), n.children, n.indices), Some(n.items[0]))
    case Item(x) =>
      var (i, found) := Find(less, n.items, x);
      if found then (Node(DelAt(n.items, i), n.children, n.indices), Some(n.items[i])) else (n, None)
  }

  /** There is an item to take, here or in the only child. */
  predicate CanRemove<T>(n: Node<T>, d: nat) {
    |n.items| > 0 || (|n.children| > 0 && |n.children[0].items| > d - 1)
  }

  /** `node.remove` in a tree of degree `d`.  When the child is too small it is grown and the search
      is done again; `GrowMakesRoom` says that the second time the child is large enough. */
  function Remove<T>(less: (T, T) -> bool, n: Node<T>, what: What<T>, d: nat, ghost depth: nat): (r: (Node<T>, Option<T>))
    requires Wf(n, depth, d) && CanRemove(n, d) && d >= 2
    decreases depth, 1
  {
    WfNow(n, depth, d);
    var (i, found) := Position(less, n, what);
    if n.children == [] then RemoveFromLeaf(less, n, what)
    else if |n.children[i].items| > d - 1 then RemoveBelow(less, n, i, found, what, d, depth)
    else
      GrowOk(n, i, depth, d);
      var m := Grow(n, i, d, depth);
      var (j, again) := Position(less, m, what);
      if |m.children[j].items| > d - 1 then RemoveBelow(less, m, j, again, what, d, depth) else (m, None)
  }

  /** The rest of `node.remove`, once child `i` can spare an item (btree.go:571-592). */
  function RemoveBelow<T>(less: (T, T) -> bool, n: Node<T>, i: nat, found: bool, what: What<T>, d: nat, ghost depth: nat): (r: (Node<T>, Option<T>))
    requires Wf(n, depth, d) && depth > 0 && d >= 2
    requires i < |n.children| && |n.children[i].items| > d - 1 && (found ==> i < |n.items|)
    decreases depth, 0
  {
    WfNow(n, depth, d);
    WfChild(n, depth, d);
    if found then
      var (c, last) := Remove(less, n.children[i], Max, d, depth - 1);
      (match last
       case Some(y) => WithItem(WithChild(n, i, c, -1), i, y)
       case None => n, Some(n.items[i]))
    else
      var (c, out) := Remove(less, n.children[i], what, d, depth - 1);
      (WithChild(n, i, c, if out.None? then 0 else -1), out)
  }

  // ---------- what it does ----------

  /** The removal as seen on the contents. */
  ghost function Removed<T>(less: (T, T) -> bool, s: seq<T>, what: What<T>): (seq<T>, Option<T>)
    requires |s| > 0
  {
    match what
    case Min => (DelAt(s, 0), Some(s[0]))
    case Max => (DelAt(s, |s| - 1), Some(s[|s| - 1]))
    case Item(x) => (Del(less, s, x), Get(less, s, x))
  }

  ghost predicate RemovedOk<T>(less: (T, T) -> bool, n: Node<T>, what: What<T>, r: (Node<T>, Option<T>), depth: nat, d: nat) {
    && Wf(r.0, depth, d)
    && |r.0.items| >= |n.items| - 1
    && |Contents(n)| > 0
    && (Contents(r.0), r.1) == Removed(less, Contents(n), what)
  }

  lemma {:induction false} NonEmpty<T>(n: Node<T>, depth: nat, d: nat)
    requires Wf(n, depth, d) && CanRemove(n, d)
    ensures |Contents(n)| > 0
  {
    hide Wf, Contents, Before, After;
    WfNow(n, depth, d);
    if depth == 0 {
      LeafContents(n);
    } else {
      Decompose(n, 0);
      if |n.items| == 0 {
        WfChild(n, depth, d);
        NonEmpty(n.children[0], depth - 1, d);
      }
    }
  }

  /** Removing after the child was grown is removing before it was. */
  lemma RemoveAfterGrow<T(!new)>(less: (T, T) -> bool, n: Node<T>, what: What<T>, depth: nat, d: nat)
    requires StrictWeakOrder(less) && Sorted(less, Contents(n))
    requires Wf(n, depth, d) && depth > 0 && |n.items| > 0 && d >= 2 && |n.children| == |n.items| + 1
    requires |n.children[Position(less, n, what).0].items| <= d - 1
    ensures var m := Grow(n, Position(less, n, what).0, d, depth);
      && Wf(m, depth, d) && CanRemove(m, d) && |m.children| == |m.items| + 1 && Contents(m) == Contents(n)
      && |m.children[Position(less, m, what).0].items| > d - 1
      && Remove(less, n, what, d, depth) == Remove(less, m, what, d, depth)
  {
    hide Contents, StrictWeakOrder, Sorted, Find, Wf, Grow, RemoveBelow;
    WfNow(n, depth, d);
    GrowOk(n, Position(less, n, what).0, depth, d);
    GrowMakesRoom(less, n, what, depth, d);
    var m := Grow(n, Position(less, n, what).0, d, depth);
    WfNow(m, depth, d);
    assert |m.items| == 0 ==> Position(less, m, what).0 == 0;
  }

  /** Removing keeps the invariant and changes the contents by exactly the one removal. */
  lemma {:induction false} RemoveOk<T(!new)>(less: (T, T) -> bool, n: Node<T>, what: What<T>, depth: nat, d: nat)
    requires StrictWeakOrder(less) && Sorted(less, Contents(n))
    requires Wf(n, depth, d) && CanRemove(n, d) && d >= 2
    ensures RemovedOk(less, n, what, Remove(less, n, what, d, depth), depth, d)
    decreases depth, 1
  {
    hide Contents, StrictWeakOrder, Sorted, Find, Wf, Grow, Removed, RemoveFromLeaf, RemoveBelow;
    WfNow(n, depth, d);
    NonEmpty(n, depth, d);
    var (i, found) := Position(less, n, what);
    if n.children == [] {
      RemoveLeafOk(less, n, what, depth, d);
    } else if |n.children[i].items| > d - 1 {
      RemoveBelowOk(less, n, what, depth, d);
    } else {
      GrowOk(n, i, depth, d);
      GrowMakesRoom(less, n, what, depth, d);
      RemoveBelowOk(less, Grow(n, i, d, depth), what, depth, d);
    }
  }

  lemma RemoveLeafOk<T(!new)>(less: (T, T) -> bool, n: Node<T>, what: What<T>, depth: nat, d: nat)
    requires Wf(n, depth, d) && n.children == [] && |n.items| > 0
    ensures RemovedOk(less, n, what, RemoveFromLeaf(less, n, what), depth, d)
  {
    hide Contents, Find, Wf;
    WfNow(n, depth, d);
    var r := RemoveFromLeaf(less, n, what);
    LeafContents(n);
    LeafContents(r.0);
    WfLeaf(r.0, d);
  }

  /** After growing, the search leads to the grown child. */
  lemma GrowMakesRoom<T(!new)>(less: (T, T) -> bool, n: Node<T>, what: What<T>, depth: nat, d: nat)
    requires StrictWeakOrder(less) && Sorted(less, Contents(n))
    requires Wf(n, depth, d) && depth > 0 && |n.items| > 0 && d >= 2 && |n.children| == |n.items| + 1
    requires |n.children[Position(less, n, what).0].items| <= d - 1
    ensures Position(less, Grow(n, Position(less, n, what).0, d, depth), what).0 == GrownAt(n, Position(less, n, what).0, d)
  {
    hide Contents, StrictWeakOrder, Sorted, Find, Wf, StealLeft, StealRight, MergeWithRight;
    var i := Position(less, n, what).0;
    GrowOk(n, i, depth, d);
    GrowItems(n, i, depth, d);
    if what.Item? {
      GrowFind(less, n, what.x, depth, d);
    }
  }

  /** What growing does to the node's own items. */
  lemma GrowItems<T>(n: Node<T>, i: nat, depth: nat, d: nat)
    requires Wf(n, depth, d) && depth > 0 && i < |n.children| && |n.items| > 0 && d >= 2
    requires |n.children[i].items| <= d - 1
    ensures Local(n)
    ensures var m := Grow(n, i, d, depth);
      if i > 0 && |n.children[i-1].items| > d - 1 then
        m.items == n.items[i-1 := n.children[i-1].items[|n.children[i-1].items|-1]]
      else if i < |n.items| && |n.children[i+1].items| > d - 1 then
        m.items == n.items[i := n.children[i+1].items[0]]
      else
        m.items == DelAt(n.items, GrownAt(n, i, d))
  {
    hide Contents, Wf, StealLeft, StealRight, MergeWithRight;
    WfNow(n, depth, d);
    ChildrenLocal(n, depth, d);
    if i > 0 && |n.children[i-1].items| > d - 1 {
      StealLeftOk(n, i, depth, d);
    } else if i < |n.items| && |n.children[i+1].items| > d - 1 {
      StealRightOk(n, i, depth, d);
    } else {
      MergeItems(n, if i >= |n.items| then i - 1 else i);
    }
  }

  // ---------- the search after growing ----------

  lemma FindAfterLower<T(!new)>(less: (T, T) -> bool, s: seq<T>, x: T, r: (nat, bool), z: T)
    requires StrictWeakOrder(less) && IsFind(less, s, x, r) && r.0 > 0 && less(z, s[r.0-1])
    ensures IsFind(less, s[r.0-1 := z], x, r)
  {
    assert less(s[r.0-1], x);
  }

  lemma FindAfterRaise<T(!new)>(less: (T, T) -> bool, s: seq<T>, x: T, r: (nat, bool), z: T)
    requires StrictWeakOrder(less) && IsFind(less, s, x, r) && r.0 < |s| && less(s[r.0], z)
    ensures IsFind(less, s[r.0 := z], x, (r.0, false))
  {
    assert !less(s[r.0], x);
    assert less(x, z);
  }

  lemma FindAfterDrop<T(!new)>(less: (T, T) -> bool, s: seq<T>, x: T, r: (nat, bool))
    requires IsFind(less, s, x, r) && |s| > 0
    ensures r.0 < |s| ==> IsFind(less, DelAt(s, r.0), x, (r.0, false))
    ensures r.0 == |s| ==> IsFind(less, DelAt(s, r.0 - 1), x, (r.0 - 1, false))
  {
  }

  lemma ItemIn<T>(n: Node<T>, i: nat, depth: nat, d: nat) returns (p: nat)
    requires Wf(n, depth, d) && i < |n.items|
    ensures p < |Contents(n)| && Contents(n)[p] == n.items[i]
  {
    hide Contents, Wf;
    WfNow(n, depth, d);
    if depth == 0 {
      LeafContents(n);
      p := i;
    } else {
      WfChild(n, depth, d);
      ItemAt(n, i);
      p := n.indices[i];
    }
  }

  lemma SiblingOrder<T>(less: (T, T) -> bool, b: seq<T>, l: seq<T>, y: T, r: seq<T>, a: seq<T>, p: nat)
    requires Sorted(less, b + (l + [y] + r) + a)
    ensures p < |l| ==> less(l[p], y)
    ensures p < |r| ==> less(y, r[p])
  {
    var s := b + (l + [y] + r) + a;
    assert s[|b| + |l|] == y;
    assert p < |l| ==> s[|b| + p] == l[p];
    assert p < |r| ==> s[|b| + |l| + 1 + p] == r[p];
  }

  lemma GrowFind<T(!new)>(less: (T, T) -> bool, n: Node<T>, x: T, depth: nat, d: nat)
    requires StrictWeakOrder(less) && Sorted(less, Contents(n))
    requires Wf(n, depth, d) && depth > 0 && |n.items| > 0 && d >= 2 && |n.children| == |n.items| + 1
    requires |n.children[Find(less, n.items, x).0].items| <= d - 1
    ensures Find(less, Grow(n, Find(less, n.items, x).0, d, depth).items, x).0 == GrownAt(n, Find(less, n.items, x).0, d)
  {
    hide Contents, StrictWeakOrder, Sorted, Find, Wf, Grow, DelAt, IsFind, Before, After;
    var r := Find(less, n.items, x);
    var i := r.0;
    GrowOk(n, i, depth, d);
    GrowItems(n, i, depth, d);
    var m := Grow(n, i, d, depth);
    WfChild(n, depth, d);
    WfChild(m, depth, d);
    ItemsSorted(less, n);
    ItemsSorted(less, m);
    FindIsFind(less, n.items, x);
    if i > 0 && |n.children[i-1].items| > d - 1 {
      var l := n.children[i-1];
      PairContents(n, i - 1);
      var p := ItemIn(l, |l.items| - 1, depth - 1, d);
      SiblingOrder(less, Before(n, i - 1), Contents(l), n.items[i-1], Contents(n.children[i]), After(n, i), p);
      FindAfterLower(less, n.items, x, r, l.items[|l.items|-1]);
      FindUnique(less, m.items, x, r);
    } else if i < |n.items| && |n.children[i+1].items| > d - 1 {
      var h := n.children[i+1];
      PairContents(n, i);
      var p := ItemIn(h, 0, depth - 1, d);
      SiblingOrder(less, Before(n, i), Contents(n.children[i]), n.items[i], Contents(h), After(n, i + 1), p);
      FindAfterRaise(less, n.items, x, r, h.items[0]);
      FindUnique(less, m.items, x, (i, false));
    } else {
      FindAfterDrop(less, n.items, x, r);
      FindUnique(less, m.items, x, (GrownAt(n, i, d), false));
    }
  }

  // ---------- removing below a child that can spare an item ----------

  lemma {:induction false} RemoveBelowOk<T(!new)>(less: (T, T) -> bool, n: Node<T>, what: What<T>, depth: nat, d: nat)
    requires StrictWeakOrder(less) && Sorted(less, Contents(n))
    requires Wf(n, depth, d) && depth > 0 && d >= 2 && |n.children| == |n.items| + 1
    requires |n.children[Position(less, n, what).0].items| > d - 1
    ensures var (i, found) := Position(less, n, what);
      && RemovedOk(less, n, what, RemoveBelow(less, n, i, found, what, d, depth), depth, d)
      && |RemoveBelow(less, n, i, found, what, d, depth).0.items| == |n.items|
    decreases depth, 0
  {
    hide Contents, StrictWeakOrder, Sorted, Find, Wf, Before, After, Remove, WithChild, WithItem, AllLess, AllMore, Del, Get;
    WfNow(n, depth, d);
    WfChild(n, depth, d);
    var (i, found) := Position(less, n, what);
    var b := n.children[i];
    NonEmpty(b, depth - 1, d);
    Decompose(n, i);
    SortedMiddle(less, Before(n, i), Contents(b), After(n, i));
    if found {
      RemoveOk(less, b, Max, depth - 1, d);
      ReplaceByPredecessor(less, n, i, what.x, Remove(less, b, Max, d, depth - 1), depth, d);
    } else {
      RemoveOk(less, b, what, depth - 1, d);
      var (c, out) := Remove(less, b, what, d, depth - 1);
      RemovedAround(less, n, what, depth, d);
      var delta := if out.None? then 0 else -1;
      RemovedLength(less, Contents(b), what);
      WithChildContents(n, i, c, delta);
      WithChildWf(n, i, c, delta, depth, d);
      WithChildItems(n, i, c, delta);
    }
  }

  lemma RemovedLength<T(!new)>(less: (T, T) -> bool, s: seq<T>, what: What<T>)
    requires |s| > 0 && StrictWeakOrder(less) && Sorted(less, s)
    ensures var (t, out) := Removed(less, s, what); |t| == |s| + if out.None? then 0 else -1
  {
    hide StrictWeakOrder, Sorted, Find;
    if what.Item? { DelSorted(less, s, what.x); }
  }

  /** If the item sought is not among the node's own, removing from the contents is removing from
      those of the child the search leads to. */
  lemma RemovedAround<T(!new)>(less: (T, T) -> bool, n: Node<T>, what: What<T>, depth: nat, d: nat)
    requires StrictWeakOrder(less) && Sorted(less, Contents(n))
    requires Wf(n, depth, d) && depth > 0 && |n.children| == |n.items| + 1
    requires !Position(less, n, what).1 && |Contents(n.children[Position(less, n, what).0])| > 0
    ensures var i := Position(less, n, what).0;
      && |Contents(n)| > 0
      && var (t, out) := Removed(less, Contents(n.children[i]), what);
         Removed(less, Contents(n), what) == (Before(n, i) + t + After(n, i), out)
  {
    hide Contents, StrictWeakOrder, Sorted, Find, Wf, Before, After, AllLess, AllMore, Del, Get, DelAt;
    WfChild(n, depth, d);
    var i := Position(less, n, what).0;
    Decompose(n, i);
    var s := Contents(n.children[i]);
    match what
    case Item(x) =>
      NodeFind(less, n, x);
      EditInMiddle(less, Before(n, i), s, After(n, i), x);
    case Min =>
      BeforeFirst(n);
      SpliceMiddle(Before(n, i), s, After(n, i), s[0], 0, true);
      assert (Before(n, i) + s + After(n, i))[0] == s[0];
    case Max =>
      BeforeFirst(n);
      SpliceMiddle(Before(n, i), s, After(n, i), s[0], |s| - 1, true);
      assert (Before(n, i) + s + After(n, i))[|Before(n, i)| + |s| - 1] == s[|s| - 1];
  }

  /** The item found in the node is replaced by its predecessor, taken out of the child before it. */
  lemma ReplaceByPredecessor<T(!new)>(less: (T, T) -> bool, n: Node<T>, i: nat, x: T, r: (Node<T>, Option<T>), depth: nat, d: nat)
    requires StrictWeakOrder(less) && Sorted(less, Contents(n))
    requires Wf(n, depth, d) && depth > 0 && |n.children| == |n.items| + 1 && Local(n) && d >= 2
    requires Find(less, n.items, x) == (i, true) && |n.children[i].items| > d - 1
    requires RemovedOk(less, n.children[i], Max, r, depth - 1, d)
    ensures r.1.Some? && |WithChild(n, i, r.0, -1).items| == |n.items|
    ensures RemovedOk(less, n, Item(x), (WithItem(WithChild(n, i, r.0, -1), i, r.1.value), Some(n.items[i])), depth, d)
    ensures |WithItem(WithChild(n, i, r.0, -1), i, r.1.value).items| == |n.items|
  {
    hide Contents, StrictWeakOrder, Sorted, Find, Wf, Before, After, WithChild, WithItem, AllLess, AllMore, Del, Get;
    WfNow(n, depth, d);
    WfChild(n, depth, d);
    NodeFind(less, n, x);
    AroundItem(less, n, i, x);
    var b, c, y, z := n.children[i], r.0, n.items[i], r.1.value;
    var lo, hi := Before(n, i), Contents(n.children[i+1]) + After(n, i + 1);
    EditInMiddle(less, lo + Contents(b), [y], hi, x);
    SingleFound(less, y, x);
    WithChildWf(n, i, c, -1, depth, d);
    var w := WithChild(n, i, c, -1);
    WithChildParts(n, i, c, -1);
    WithItemWf(w, i, z, depth, d);
    WithItemContents(w, i, z);
    WithItemItems(w, i, z);
    assert Contents(b) == Contents(c) + [z];
    assert lo + (Contents(c) + [z]) + [] + hi == (lo + Contents(c)) + [z] + hi;
  }

  lemma WithItemItems<T>(n: Node<T>, i: nat, x: T)
    requires i < |n.items|
    ensures |WithItem(n, i, x).items| == |n.items|
  {
  }

  lemma WithChildParts<T>(n: Node<T>, i: nat, c: Node<T>, delta: int)
    requires |n.children| == |n.items| + 1 && i < |n.items| && i <= |n.indices|
    ensures var w := WithChild(n, i, c, delta);
      && w.items == n.items && |w.children| == |n.children| && w.children[i] == c && w.children[i+1] == n.children[i+1]
      && Before(w, i) == Before(n, i) && After(w, i + 1) == After(n, i + 1)
  {
    hide Contents, Before, After, Indices.AddedAt;
    var w := WithChild(n, i, c, delta);
    assert w.children[..i] == n.children[..i] && w.children[i+2..] == n.children[i+2..];
    SameBefore(w, i, n);
    SameAfter(w, i + 1, n, i + 1);
  }
}
