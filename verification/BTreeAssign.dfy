/** Overwriting a stored item through a pointer to it, as `regionSubTree.update` does (server/core/region.go:470-476):
    the tree keeps its shape, and the row of items changes in that one place. */
module BTreeAssign {
  import opened SortedSeq
  import opened BTree
  import opened BTreeNode
  import opened BTreeOps
  import opened BTreeInsert
  import opened BTreeQuery
  import Indices

  /** The node with its `k`-th item, counted in order, overwritten. */
  function NodeAssign<T>(n: Node<T>, k: nat, x: T, ghost depth: nat): (m: Node<T>)
    requires Shape(n, depth)
    ensures Shape(m, depth) && |m.items| == |n.items|
    decreases depth
  {
    if n.children == [] then (if k < |n.items| then WithItem(n, k, x) else n)
    else
      var i := SearchInts(n.indices, k);
      if i == |n.indices| then n
      else if n.indices[i] == k then (if i < |n.items| then WithItem(n, i, x) else n)
      else
        var j := k - Indices.Base(n.indices, i);
        if j < 0 then n else WithChild(n, i, NodeAssign(n.children[i], j, x, depth - 1), 0)
  }

  lemma {:induction false} NodeAssignOk<T>(n: Node<T>, k: nat, x: T, depth: nat, d: nat)
    requires Wf(n, depth, d) && k < |Contents(n)|
    ensures var m := NodeAssign(n, k, x, depth);
      Wf(m, depth, d) && Contents(m) == Contents(n)[k := x]
    decreases depth
  {
    hide Contents, Wf, SearchInts, Before, After, Length;
    WfNow(n, depth, d);
    LengthIsSize(n, depth, d);
    if depth == 0 {
      LeafContents(n);
      LeafContents(WithItem(n, k, x));
      WithItemWf(n, k, x, depth, d);
    } else {
      WfChild(n, depth, d);
      SelectChild(n, k, depth, d);
      var i := SearchInts(n.indices, k);
      if n.indices[i] == k {
        AssignItem(n, i, x, depth, d);
      } else {
        var j := k - Indices.Base(n.indices, i);
        NodeAssignOk(n.children[i], j, x, depth - 1, d);
        var c := NodeAssign(n.children[i], j, x, depth - 1);
        Decompose(n, i);
        WithChildContents(n, i, c, 0);
        WithChildWf(n, i, c, 0, depth, d);
        UpdateMiddle(Before(n, i), Contents(n.children[i]), After(n, i), j, x);
      }
    }
  }

  lemma AssignItem<T>(n: Node<T>, i: nat, x: T, depth: nat, d: nat)
    requires Wf(n, depth, d) && depth > 0 && i < |n.items| && |n.children| == |n.items| + 1 && Indexed(n)
    ensures Wf(WithItem(n, i, x), depth, d)
    ensures 0 <= n.indices[i] < |Contents(n)|
    ensures Contents(WithItem(n, i, x)) == Contents(n)[n.indices[i] := x]
  {
    hide Contents, Wf, Before, After;
    WithItemWf(n, i, x, depth, d);
    WithItemContents(n, i, x);
    IndexClosed(n, i);
    Decompose(n, i);
    Regroup(Before(n, i), Contents(n.children[i]), [n.items[i]], Contents(n.children[i+1]), After(n, i + 1));
    var a, b := Before(n, i) + Contents(n.children[i]), Contents(n.children[i+1]) + After(n, i + 1);
    UpdateMiddle(a, [n.items[i]], b, 0, x);
    assert [n.items[i]][0 := x] == [x];
  }

  lemma UpdateMiddle<T>(a: seq<T>, b: seq<T>, c: seq<T>, j: nat, x: T)
    requires j < |b|
    ensures (a + b + c)[|a| + j := x] == a + b[j := x] + c
  {
  }

  function Assign<T>(t: Tree<T>, k: nat, x: T): Tree<T>
    requires t.root.Some? ==> Shape(t.root.value, Height(t.root.value))
  {
    if t.root.None? then t else t.(root := Some(NodeAssign(t.root.value, k, x, Height(t.root.value))))
  }

  /** Whatever the new item, if it belongs where it is put the tree stays valid. */
  lemma AssignOk<T>(less: (T, T) -> bool, t: Tree<T>, k: nat, x: T)
    requires Valid(less, t) && k < |Items(t)| && Sorted(less, Items(t)[k := x])
    ensures t.root.Some? && Shape(t.root.value, Height(t.root.value))
    ensures Valid(less, Assign(t, k, x)) && Items(Assign(t, k, x)) == Items(t)[k := x]
  {
    hide Contents, Wf, Sorted, Height, Shape;
    var n := t.root.value;
    WfNow(n, Height(n), t.degree);
    NodeAssignOk(n, k, x, Height(n), t.degree);
    var m := NodeAssign(n, k, x, Height(n));
    WfNow(m, Height(n), t.degree);
    HeightIsDepth(m, Height(n));
    ChildrenKept(n, k, x, Height(n));
  }

  lemma ChildrenKept<T>(n: Node<T>, k: nat, x: T, depth: nat)
    requires Shape(n, depth)
    ensures n.children == [] <==> NodeAssign(n, k, x, depth).children == []
    ensures |NodeAssign(n, k, x, depth).items| == |n.items|
  {
  }
}
