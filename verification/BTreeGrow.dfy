/** Making room before a removal (btree.go:613-660): steal from the left sibling, steal from the
    right sibling, or merge two siblings.  None of the three changes the contents. */
module BTreeGrow {
  import opened SortedSeq
  import opened BTreeNode
  import opened BTreeOps
  import opened BTreeInsert
  import Indices

  lemma ContentsSame<T>(n: Node<T>, m: Node<T>)
    requires n.items == m.items && n.children == m.children
    ensures Contents(n) == Contents(m)
  {
  }

  // ---------- lending and borrowing at the ends of a node ----------

  /** A node without its last item and last child. */
  function DropLast<T>(l: Node<T>): Node<T>
    requires |l.items| > 0 && Local(l)
  {
    var k := |l.items| - 1;
    if l.children == [] then Node(l.items[..k], l.children, l.indices)
    else Node(l.items[..k], l.children[..k+1], Indices.RemovedAt(l.indices, k + 1))
  }

  /** The size of the last child, 0 in a leaf. */
  function LastSize<T>(l: Node<T>): int
    requires Local(l)
  {
    if l.children == [] then 0 else Indices.SizeAt(l.indices, |l.indices| - 1)
  }

  /** `c` with `y` and the last child of `l` put in front. */
  function Prepend<T>(c: Node<T>, y: T, l: Node<T>): Node<T>
    requires Local(l)
  {
    if l.children == [] then Node([y] + c.items, c.children, c.indices)
    else Node([y] + c.items, [l.children[|l.children|-1]] + c.children, Indices.InsertedAt(c.indices, 0, LastSize(l)))
  }

  function DropFirst<T>(r: Node<T>): Node<T>
    requires |r.items| > 0 && Local(r)
  {
    if r.children == [] then Node(r.items[1..], r.children, r.indices)
    else Node(r.items[1..], r.children[1..], Indices.RemovedAt(r.indices, 0))
  }

  function FirstSize<T>(r: Node<T>): int
    requires Local(r)
  {
    if r.children == [] then 0 else Indices.SizeAt(r.indices, 0)
  }

  /** `c` with `y` and the first child of `r` put behind. */
  function Append<T>(c: Node<T>, y: T, r: Node<T>): Node<T>
    requires Local(r)
  {
    if r.children == [] then Node(c.items + [y], c.children, c.indices)
    else Node(c.items + [y], c.children + [r.children[0]], Indices.Pushed(c.indices, FirstSize(r)))
  }

  /** Moving the end of `l` through `y` to the front of `c`: the contents stay in order. */
  lemma LendLast<T>(l: Node<T>, y: T, c: Node<T>, depth: nat, d: nat)
    requires Wf(l, depth, d) && Wf(c, depth, d) && |l.items| > d - 1 >= 1 && |c.items| <= d - 1
    ensures Local(l) && 0 <= LastSize(l)
    ensures Contents(DropLast(l)) + [l.items[|l.items|-1]] + Contents(Prepend(c, y, l)) == Contents(l) + [y] + Contents(c)
    ensures |Contents(DropLast(l))| == |Contents(l)| - 1 - LastSize(l)
    ensures |Contents(Prepend(c, y, l))| == |Contents(c)| + 1 + LastSize(l)
    ensures GoodChild(DropLast(l), depth, d) && Wf(Prepend(c, y, l), depth, d)
  {
    hide Contents, Wf, Indices.RemovedAt, Indices.InsertedAt, Indices.SizeAt, SplitLeft, SplitRight;
    WfNow(l, depth, d);
    WfNow(c, depth, d);
    var k := |l.items| - 1;
    var l', c', q := DropLast(l), Prepend(c, y, l), SplitRight(l, k);
    LastSizeIs(l, depth, d);
    DropLastWf(l, depth, d);
    PrependWf(c, y, l, depth, d);
    WfNow(c', depth, d);
    SplitContents(l, k);
    SplitContents(c', 0);
    SplitParts(l, k);
    SplitParts(c', 0);
    ContentsSame(l', SplitLeft(l, k));
    ContentsSame(q, SplitLeft(c', 0));
    ContentsSame(c, SplitRight(c', 0));
    assert Contents(l') + [l.items[k]] + (Contents(q) + [y] + Contents(c)) == (Contents(l') + [l.items[k]] + Contents(q)) + [y] + Contents(c);
  }

  lemma LastSizeIs<T>(l: Node<T>, depth: nat, d: nat)
    requires Wf(l, depth, d) && |l.items| > 0 && Local(l)
    ensures LastSize(l) == |Contents(SplitRight(l, |l.items| - 1))|
    ensures depth > 0 ==> LastSize(l) == |Contents(l.children[|l.items|])|
  {
    hide Contents, Wf, InitSize;
    WfNow(l, depth, d);
    var q := SplitRight(l, |l.items| - 1);
    if depth == 0 {
      LeafContents(q);
    } else {
      WfChild(l, depth, d);
      Indices.RemovedAtMeans(l.indices, |l.items|, Sizes(l.children));
      SingleChild(q);
    }
  }

  lemma SingleChild<T>(q: Node<T>)
    requires q.items == [] && |q.children| == 1
    ensures Contents(q) == Contents(q.children[0])
  {
  }

  lemma DropLastWf<T>(l: Node<T>, depth: nat, d: nat)
    requires Wf(l, depth, d) && |l.items| > 0 && Local(l)
    ensures Wf(DropLast(l), depth, d)
  {
    hide Contents, Wf, Indices.RemovedAt, Sizes;
    WfNow(l, depth, d);
    if depth == 0 {
      WfLeaf(DropLast(l), d);
    } else {
      WfChild(l, depth, d);
      var k := |l.items| - 1;
      Indices.FormulaLength(l.indices, Sizes(l.children));
      Indices.RemovedAtMeans(l.indices, k + 1, Sizes(l.children));
      assert Sizes(l.children)[..k+1] + Sizes(l.children)[k+2..] == Sizes(l.children)[..k+1];
      SizesSlice(l.children, 0, k + 1);
      WfNode(DropLast(l), depth, d);
    }
  }

  lemma PrependWf<T>(c: Node<T>, y: T, l: Node<T>, depth: nat, d: nat)
    requires Wf(l, depth, d) && Wf(c, depth, d) && |l.items| > 0 && |c.items| <= d - 1 && d >= 2 && Local(l)
    ensures Wf(Prepend(c, y, l), depth, d)
  {
    hide Contents, Wf, Indices.InsertedAt, Sizes, LastSize;
    WfNow(l, depth, d);
    WfNow(c, depth, d);
    var c' := Prepend(c, y, l);
    if depth == 0 {
      WfLeaf(c', d);
    } else {
      WfChild(l, depth, d);
      WfChild(c, depth, d);
      LastSizeIs(l, depth, d);
      var last := l.children[|l.items|];
      Indices.InsertedAtMeans(c.indices, 0, LastSize(l), Sizes(c.children));
      SizesReplace(c.children, 0, 0, [last]);
      SizesSingle(last);
      assert c.children[..0] + [last] + c.children[0..] == [last] + c.children;
      forall j | 0 <= j < |c'.children| ensures GoodChild(c'.children[j], depth - 1, d) {
        if j > 0 { assert c'.children[j] == c.children[j-1]; }
      }
      WfNode(c', depth, d);
    }
  }

  lemma SizesSingle<T>(c: Node<T>)
    ensures Sizes([c]) == [|Contents(c)|]
  {
  }

  /** Moving the front of `r` through `y` to the end of `c`. */
  lemma LendFirst<T>(c: Node<T>, y: T, r: Node<T>, depth: nat, d: nat)
    requires Wf(r, depth, d) && Wf(c, depth, d) && |r.items| > d - 1 >= 1 && |c.items| <= d - 1
    ensures Local(r) && 0 <= FirstSize(r)
    ensures Contents(Append(c, y, r)) + [r.items[0]] + Contents(DropFirst(r)) == Contents(c) + [y] + Contents(r)
    ensures |Contents(DropFirst(r))| == |Contents(r)| - 1 - FirstSize(r)
    ensures |Contents(Append(c, y, r))| == |Contents(c)| + 1 + FirstSize(r)
    ensures GoodChild(DropFirst(r), depth, d) && Wf(Append(c, y, r), depth, d)
  {
    hide Contents, Wf, Indices.RemovedAt, Indices.Pushed, Indices.SizeAt, SplitLeft, SplitRight;
    WfNow(r, depth, d);
    WfNow(c, depth, d);
    var k := |c.items|;
    var r', c', q := DropFirst(r), Append(c, y, r), SplitLeft(r, 0);
    FirstSizeIs(r, depth, d);
    DropFirstWf(r, depth, d);
    AppendWf(c, y, r, depth, d);
    WfNow(c', depth, d);
    SplitContents(r, 0);
    SplitContents(c', k);
    SplitParts(r, 0);
    SplitParts(c', k);
    ContentsSame(r', SplitRight(r, 0));
    ContentsSame(q, SplitRight(c', k));
    ContentsSame(c, SplitLeft(c', k));
    assert (Contents(c) + [y] + Contents(q)) + [r.items[0]] + Contents(r') == Contents(c) + [y] + (Contents(q) + [r.items[0]] + Contents(r'));
  }

  lemma FirstSizeIs<T>(r: Node<T>, depth: nat, d: nat)
    requires Wf(r, depth, d) && |r.items| > 0 && Local(r)
    ensures FirstSize(r) == |Contents(SplitLeft(r, 0))|
    ensures depth > 0 ==> FirstSize(r) == |Contents(r.children[0])|
  {
    hide Contents, Wf;
    WfNow(r, depth, d);
    var q := SplitLeft(r, 0);
    if depth == 0 {
      LeafContents(q);
    } else {
      WfChild(r, depth, d);
      Indices.RemovedAtMeans(r.indices, 0, Sizes(r.children));
      SingleChild(q);
    }
  }

  lemma DropFirstWf<T>(r: Node<T>, depth: nat, d: nat)
    requires Wf(r, depth, d) && |r.items| > 0 && Local(r)
    ensures Wf(DropFirst(r), depth, d)
  {
    hide Contents, Wf, Indices.RemovedAt, Sizes;
    WfNow(r, depth, d);
    if depth == 0 {
      WfLeaf(DropFirst(r), d);
    } else {
      WfChild(r, depth, d);
      Indices.FormulaLength(r.indices, Sizes(r.children));
      Indices.RemovedAtMeans(r.indices, 0, Sizes(r.children));
      assert Sizes(r.children)[..0] + Sizes(r.children)[1..] == Sizes(r.children)[1..];
      SizesSlice(r.children, 1, |r.children|);
      assert r.children[1..|r.children|] == r.children[1..];
      WfNode(DropFirst(r), depth, d);
    }
  }

  lemma AppendWf<T>(c: Node<T>, y: T, r: Node<T>, depth: nat, d: nat)
    requires Wf(r, depth, d) && Wf(c, depth, d) && |r.items| > 0 && |c.items| <= d - 1 && d >= 2 && Local(r)
    ensures Wf(Append(c, y, r), depth, d)
  {
    hide Contents, Wf, Indices.Pushed, Sizes, FirstSize;
    WfNow(r, depth, d);
    WfNow(c, depth, d);
    var c' := Append(c, y, r);
    if depth == 0 {
      WfLeaf(c', d);
    } else {
      WfChild(r, depth, d);
      WfChild(c, depth, d);
      FirstSizeIs(r, depth, d);
      Indices.PushedMeans(c.indices, FirstSize(r), Sizes(c.children));
      SizesConcat(c.children, [r.children[0]]);
      SizesSingle(r.children[0]);
      forall j | 0 <= j < |c'.children| ensures GoodChild(c'.children[j], depth - 1, d) {
        if j < |c.children| { assert c'.children[j] == c.children[j]; }
      }
      WfNode(c', depth, d);
    }
  }

  lemma SizesConcat<T>(a: seq<Node<T>>, b: seq<Node<T>>)
    ensures Sizes(a + b) == Sizes(a) + Sizes(b)
  {
    hide Contents;
  }

  // ---------- merging two nodes ----------

  /** `indices` extended by the sizes of the children `cs` (btree.go:653-655). */
  function PushAll<T>(s: seq<int>, cs: seq<Node<T>>): (r: seq<int>)
    ensures |r| == |s| + |cs|
  {
    if cs == [] then s else Indices.Pushed(PushAll(s, cs[..|cs|-1]), Length(cs[|cs|-1]))
  }

  function Join<T>(c: Node<T>, y: T, r: Node<T>): Node<T> {
    Node(c.items + [y] + r.items, c.children + r.children, PushAll(c.indices, r.children))
  }

  lemma {:induction false} PushAllFormula<T>(s: seq<int>, sizes: seq<int>, cs: seq<Node<T>>)
    requires Indices.Formula(s, sizes)
    requires forall i :: 0 <= i < |cs| ==> Length(cs[i]) == |Contents(cs[i])|
    ensures Indices.Formula(PushAll(s, cs), sizes + Sizes(cs))
  {
    hide Contents, Length, Indices.Pushed, Indices.Formula;
    if cs == [] {
      assert sizes + Sizes(cs) == sizes;
    } else {
      var k := |cs| - 1;
      PushAllFormula(s, sizes, cs[..k]);
      Indices.PushedMeans(PushAll(s, cs[..k]), Length(cs[k]), sizes + Sizes(cs[..k]));
      assert sizes + Sizes(cs) == sizes + Sizes(cs[..k]) + [Length(cs[k])];
    }
  }

  lemma JoinOk<T>(c: Node<T>, y: T, r: Node<T>, depth: nat, d: nat)
    requires Wf(r, depth, d) && Wf(c, depth, d) && |r.items| <= d - 1 && |c.items| <= d - 1
    ensures Contents(Join(c, y, r)) == Contents(c) + [y] + Contents(r)
    ensures Wf(Join(c, y, r), depth, d)
  {
    hide Contents, Wf, SplitLeft, SplitRight, Join;
    JoinWf(c, y, r, depth, d);
    WfNow(r, depth, d);
    WfNow(c, depth, d);
    var m, k := Join(c, y, r), |c.items|;
    WfNow(m, depth, d);
    JoinParts(c, y, r);
    SplitContents(m, k);
    SplitParts(m, k);
    ContentsSame(c, SplitLeft(m, k));
    ContentsSame(r, SplitRight(m, k));
  }

  lemma JoinParts<T>(c: Node<T>, y: T, r: Node<T>)
    ensures var m, k := Join(c, y, r), |c.items|;
      && |m.items| == k + 1 + |r.items|
      && m.items[..k] == c.items && m.items[k] == y && m.items[k+1..] == r.items
      && m.children == c.children + r.children && m.children[..|c.children|] == c.children && m.children[|c.children|..] == r.children
  {
    hide PushAll;
  }

  lemma JoinWf<T>(c: Node<T>, y: T, r: Node<T>, depth: nat, d: nat)
    requires Wf(r, depth, d) && Wf(c, depth, d) && |r.items| <= d - 1 && |c.items| <= d - 1
    ensures Wf(Join(c, y, r), depth, d)
  {
    hide Contents, Wf, Length, Sizes;
    WfNow(r, depth, d);
    WfNow(c, depth, d);
    var m := Join(c, y, r);
    if depth == 0 {
      WfLeaf(m, d);
    } else {
      WfChild(r, depth, d);
      WfChild(c, depth, d);
      forall j | 0 <= j < |r.children| ensures Length(r.children[j]) == |Contents(r.children[j])| {
        LengthIsSize(r.children[j], depth - 1, d);
      }
      PushAllFormula(c.indices, Sizes(c.children), r.children);
      SizesConcat(c.children, r.children);
      forall j | 0 <= j < |m.children| ensures GoodChild(m.children[j], depth - 1, d) {
        if j < |c.children| { assert m.children[j] == c.children[j]; } else { assert m.children[j] == r.children[j - |c.children|]; }
      }
      WfNode(m, depth, d);
    }
  }

  // ---------- two neighbouring children and the item between them ----------

  /** Children `j` and `j + 1` and item `j` replaced, moving `moved` items from left to right. */
  function WithPair<T>(n: Node<T>, j: nat, l: Node<T>, y: T, r: Node<T>, moved: int): Node<T>
    requires j < |n.items| && Local(n) && n.children != []
  {
    Node(n.items[j := y], n.children[j := l][j+1 := r], n.indices[j := n.indices[j] - moved])
  }

  lemma PairContents<T>(n: Node<T>, j: nat)
    requires j < |n.items| && |n.children| == |n.items| + 1
    ensures Contents(n) == Before(n, j) + (Contents(n.children[j]) + [n.items[j]] + Contents(n.children[j+1])) + After(n, j + 1)
  {
    hide Contents, Before, After;
    Decompose(n, j);
    var a, l, y, r, b := Before(n, j), Contents(n.children[j]), [n.items[j]], Contents(n.children[j+1]), After(n, j + 1);
    assert a + l + (y + r + b) == a + (l + y + r) + b;
  }

  lemma WithPairContents<T>(n: Node<T>, j: nat, l: Node<T>, y: T, r: Node<T>, moved: int)
    requires j < |n.items| && Local(n) && n.children != []
    requires Contents(l) + [y] + Contents(r) == Contents(n.children[j]) + [n.items[j]] + Contents(n.children[j+1])
    ensures Contents(WithPair(n, j, l, y, r, moved)) == Contents(n)
  {
    hide Contents, Before, After;
    var m := WithPair(n, j, l, y, r, moved);
    assert m.children[..j] == n.children[..j] && m.children[j+2..] == n.children[j+2..];
    SameBefore(m, j, n);
    SameAfter(m, j + 1, n, j + 1);
    PairContents(m, j);
    PairContents(n, j);
  }

  lemma WithPairWf<T>(n: Node<T>, j: nat, l: Node<T>, y: T, r: Node<T>, moved: int, depth: nat, d: nat)
    requires Wf(n, depth, d) && depth > 0 && j < |n.items| && Local(n) && n.children != []
    requires GoodChild(l, depth - 1, d) && GoodChild(r, depth - 1, d)
    requires |Contents(l)| == |Contents(n.children[j])| - moved && |Contents(r)| == |Contents(n.children[j+1])| + moved
    ensures Wf(WithPair(n, j, l, y, r, moved), depth, d)
  {
    hide Contents, Wf, Sizes;
    WfNow(n, depth, d);
    WfChild(n, depth, d);
    var m := WithPair(n, j, l, y, r, moved);
    SizesUpdate(n.children, j, l);
    SizesUpdate(n.children, j + 1, r);
    SizesUpdate(n.children[j := l], j + 1, r);
    Indices.MovedMeans(n.indices, j, moved, Sizes(n.children));
    forall i | 0 <= i < |m.children| ensures GoodChild(m.children[i], depth - 1, d) {
    }
    WfNode(m, depth, d);
  }

  // ---------- the three ways of growing child i ----------

  function StealLeft<T>(n: Node<T>, i: nat): Node<T>
    requires 0 < i < |n.children| && Local(n) && Local(n.children[i-1]) && |n.children[i-1].items| > 0
  {
    var l := n.children[i-1];
    WithPair(n, i - 1, DropLast(l), l.items[|l.items|-1], Prepend(n.children[i], n.items[i-1], l), 1 + LastSize(l))
  }

  function StealRight<T>(n: Node<T>, i: nat): Node<T>
    requires i < |n.items| && Local(n) && n.children != [] && Local(n.children[i+1]) && |n.children[i+1].items| > 0
  {
    var r := n.children[i+1];
    WithPair(n, i, Append(n.children[i], n.items[i], r), r.items[0], DropFirst(r), -1 - FirstSize(r))
  }

  function MergeWithRight<T>(n: Node<T>, i: nat): Node<T>
    requires i < |n.items| && Local(n) && n.children != []
  {
    Node(DelAt(n.items, i),
         n.children[..i] + [Join(n.children[i], n.items[i], n.children[i+1])] + n.children[i+2..],
         Indices.MergedAt(n.indices, i))
  }

  lemma MergeContents<T>(n: Node<T>, i: nat, depth: nat, d: nat)
    requires Wf(n, depth, d) && depth > 0 && i < |n.items| && Local(n) && n.children != []
    requires |n.children[i].items| <= d - 1 && |n.children[i+1].items| <= d - 1
    ensures Contents(MergeWithRight(n, i)) == Contents(n)
  {
    hide Contents, Before, After, Wf, Join, Indices.MergedAt;
    WfChild(n, depth, d);
    JoinOk(n.children[i], n.items[i], n.children[i+1], depth - 1, d);
    var m := MergeWithRight(n, i);
    assert m.children[..i] == n.children[..i] && m.items[..i] == n.items[..i];
    assert m.children[i+1..] == n.children[i+2..] && m.items[i..] == n.items[i+1..];
    SameBefore(m, i, n);
    SameAfter(m, i, n, i + 1);
    Decompose(m, i);
    PairContents(n, i);
  }

  lemma MergeWf<T>(n: Node<T>, i: nat, depth: nat, d: nat)
    requires Wf(n, depth, d) && depth > 0 && i < |n.items| && Local(n) && n.children != [] && d >= 2
    requires |n.children[i].items| <= d - 1 && |n.children[i+1].items| <= d - 1
    ensures Wf(MergeWithRight(n, i), depth, d)
    ensures |MergeWithRight(n, i).children[i].items| == |n.children[i].items| + 1 + |n.children[i+1].items|
  {
    hide Contents, Wf, Sizes, Indices.MergedAt, PushAll;
    WfNow(n, depth, d);
    WfChild(n, depth, d);
    var c := Join(n.children[i], n.items[i], n.children[i+1]);
    JoinOk(n.children[i], n.items[i], n.children[i+1], depth - 1, d);
    var m := MergeWithRight(n, i);
    SizesReplace(n.children, i, i + 2, [c]);
    SizesSingle(c);
    SizesUpdate(n.children, i, c);
    SizesUpdate(n.children, i + 1, c);
    Indices.MergedAtMeans(n.indices, i, Sizes(n.children));
    forall j | 0 <= j < |m.children| ensures GoodChild(m.children[j], depth - 1, d) {
      if j < i { assert m.children[j] == n.children[j]; } else if j > i { assert m.children[j] == n.children[j+1]; }
    }
    WfNode(m, depth, d);
  }
}
