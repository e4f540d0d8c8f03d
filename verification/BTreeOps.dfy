/** Node operations of pkg/btree/btree.go on values: splitting, stealing, merging, inserting and
    removing.  Each keeps the structural invariant, and its effect is stated on the contents. */
module BTreeOps {
  import opened SortedSeq
  import opened BTreeNode
  import Indices

  // ---------- introducing and eliminating the invariant ----------

  ghost predicate GoodChild<T>(c: Node<T>, depth: nat, d: nat) {
    |c.items| >= d - 1 && Wf(c, depth, d)
  }

  lemma WfChild<T>(n: Node<T>, depth: nat, d: nat)
    requires Wf(n, depth, d) && depth > 0
    ensures Indexed(n)
    ensures forall i :: 0 <= i < |n.children| ==> GoodChild(n.children[i], depth - 1, d)
  {
  }

  lemma WfNode<T>(n: Node<T>, depth: nat, d: nat)
    requires depth > 0 && |n.items| < 2 * d && |n.children| == |n.items| + 1 && Indexed(n)
    requires forall i :: 0 <= i < |n.children| ==> GoodChild(n.children[i], depth - 1, d)
    ensures Wf(n, depth, d)
  {
  }

  /** What the invariant says about one node alone. */
  lemma WfNow<T>(n: Node<T>, depth: nat, d: nat)
    requires Wf(n, depth, d)
    ensures Shape(n, depth) && Local(n) && |n.items| < 2 * d
    ensures if depth == 0 then n.children == [] && n.indices == [] else |n.children| == |n.items| + 1
  {
  }

  lemma WfLeaf<T>(n: Node<T>, d: nat)
    requires n.children == [] && n.indices == [] && |n.items| < 2 * d
    ensures Wf(n, 0, d)
  {
  }

  // ---------- initSize and split ----------

  /** `node.initSize` (btree.go:342-356). */
  function InitSize<T>(cs: seq<Node<T>>): (r: seq<int>)
    ensures |r| == |cs|
  {
    if cs == [] then [] else Indices.Pushed(InitSize(cs[..|cs|-1]), Length(cs[|cs|-1]))
  }

  lemma {:induction false} InitSizeFormula<T>(cs: seq<Node<T>>)
    requires forall i :: 0 <= i < |cs| ==> Length(cs[i]) == |Contents(cs[i])|
    ensures Indices.Formula(InitSize(cs), Sizes(cs))
  {
    hide Contents, Length, Indices.Pushed;
    if cs != [] {
      var k := |cs| - 1;
      InitSizeFormula(cs[..k]);
      Indices.PushedMeans(InitSize(cs[..k]), Length(cs[k]), Sizes(cs[..k]));
      assert Sizes(cs) == Sizes(cs[..k]) + [Length(cs[k])];
    }
  }

  ghost predicate Local<T>(n: Node<T>) {
    n.children == [] || (|n.children| == |n.items| + 1 && |n.indices| == |n.children|)
  }

  /** `node.split` (btree.go:395-407): what stays in the node, and the new right sibling. */
  function SplitLeft<T>(n: Node<T>, i: nat): Node<T>
    requires i < |n.items| && Local(n)
  {
    if n.children == [] then Node(n.items[..i], n.children, n.indices)
    else Node(n.items[..i], n.children[..i+1], n.indices[..i+1])
  }

  function SplitRight<T>(n: Node<T>, i: nat): Node<T>
    requires i < |n.items| && Local(n)
  {
    if n.children == [] then Node(n.items[i+1..], [], [])
    else Node(n.items[i+1..], n.children[i+1..], InitSize(n.children[i+1..]))
  }

  lemma SplitParts<T>(n: Node<T>, i: nat)
    requires i < |n.items| && Local(n)
    ensures SplitLeft(n, i).items == n.items[..i] && SplitRight(n, i).items == n.items[i+1..]
    ensures n.children == [] ==> SplitLeft(n, i).children == [] && SplitRight(n, i).children == []
    ensures n.children != [] ==> SplitLeft(n, i).children == n.children[..i+1] && SplitRight(n, i).children == n.children[i+1..]
  {
  }

  lemma SplitContents<T>(n: Node<T>, i: nat)
    requires i < |n.items| && Local(n)
    ensures Contents(n) == Contents(SplitLeft(n, i)) + [n.items[i]] + Contents(SplitRight(n, i))
  {
    hide Contents, Before, After, InitSize;
    var l, r := SplitLeft(n, i), SplitRight(n, i);
    if n.children == [] {
      LeafContents(n);
      LeafContents(l);
      LeafContents(r);
    } else {
      assert l.children[..i] == n.children[..i] && l.items[..i] == n.items[..i];
      SameBefore(l, i, n);
      SameAfter(r, 0, n, i + 1);
      Decompose(n, i);
      Decompose(l, i);
      Decompose(r, 0);
      BeforeFirst(l);
      BeforeFirst(r);
      Decompose(n, i + 1);
    }
  }

  lemma SplitWf<T>(n: Node<T>, i: nat, depth: nat, d: nat)
    requires Wf(n, depth, d) && i < |n.items|
    ensures Local(n) && Wf(SplitLeft(n, i), depth, d) && Wf(SplitRight(n, i), depth, d)
  {
    hide Contents, Wf, Length, InitSize, Sizes;
    WfNow(n, depth, d);
    var l, r := SplitLeft(n, i), SplitRight(n, i);
    if depth == 0 {
      WfLeaf(l, d);
      WfLeaf(r, d);
    } else {
      WfChild(n, depth, d);
      SizesSlice(n.children, 0, i + 1);
      Indices.FormulaPrefix(n.indices, Sizes(n.children), i + 1);
      WfNode(l, depth, d);
      forall j | 0 <= j < |r.children| ensures Length(r.children[j]) == |Contents(r.children[j])| {
        LengthIsSize(r.children[j], depth - 1, d);
      }
      InitSizeFormula(r.children);
      WfNode(r, depth, d);
    }
  }

  /** The effect of `maybeSplitChild` when it splits (btree.go:411-421). */
  function SplitChild<T>(n: Node<T>, i: nat, at: nat): Node<T>
    requires i < |n.children| && Local(n) && Local(n.children[i]) && at < |n.children[i].items|
  {
    var c := n.children[i];
    var right := SplitRight(c, at);
    Node(n.items[..i] + [c.items[at]] + n.items[i..],
         n.children[..i] + [SplitLeft(c, at), right] + n.children[i+1..],
         Indices.SplitAt(n.indices, i, Length(right)))
  }

  lemma SplitChildContents<T>(n: Node<T>, i: nat, at: nat)
    requires i < |n.children| && Local(n) && Local(n.children[i]) && at < |n.children[i].items|
    ensures Contents(SplitChild(n, i, at)) == Contents(n)
  {
    hide Contents, Before, After, SplitLeft, SplitRight, Indices.SplitAt;
    var m := SplitChild(n, i, at);
    assert m.children[..i] == n.children[..i] && m.items[..i] == n.items[..i];
    assert m.children[i+2..] == n.children[i+1..] && m.items[i+1..] == n.items[i..];
    SameBefore(m, i, n);
    SameAfter(m, i + 1, n, i);
    SplitContents(n.children[i], at);
    Decompose(n, i);
    Decompose(m, i);
  }

  lemma SplitChildWf<T>(n: Node<T>, i: nat, depth: nat, d: nat)
    requires Wf(n, depth, d) && depth > 0 && d >= 2 && |n.items| < 2 * d - 1
    requires i < |n.children| && |n.children[i].items| == 2 * d - 1
    ensures Local(n) && Local(n.children[i])
    ensures Wf(SplitChild(n, i, d - 1), depth, d)
  {
    hide Contents, Wf, SplitLeft, SplitRight, Length, Indices.SplitAt;
    WfNow(n, depth, d);
    WfChild(n, depth, d);
    var c := n.children[i];
    WfNow(c, depth - 1, d);
    SplitWf(c, d - 1, depth - 1, d);
    SplitParts(c, d - 1);
    var m := SplitChild(n, i, d - 1);
    var l, r := SplitLeft(c, d - 1), SplitRight(c, d - 1);
    SplitContents(c, d - 1);
    LengthIsSize(r, depth - 1, d);
    Indices.SplitAtMeans(n.indices, i, Length(r), Sizes(n.children));
    SizesReplace(n.children, i, i + 1, [l, r]);
    assert Sizes([l, r]) == [|Contents(c)| - 1 - Length(r), Length(r)];
    forall j | 0 <= j < |m.children| ensures GoodChild(m.children[j], depth - 1, d) {
      if j < i {
        assert m.children[j] == n.children[j];
      } else if j > i + 1 {
        assert m.children[j] == n.children[j-1];
      }
    }
    WfNode(m, depth, d);
  }
}
