/** The B-tree of pkg/btree/btree.go as a value: nodes, their in-order contents, and the
    invariants every operation keeps. */
module BTreeNode {
  import opened SortedSeq
  import Indices

  /** `indices[i]` counts the items of the subtree that come before `items[i]`; the last entry
      is the size of the whole subtree.  Leaves keep it empty. */
  datatype Node<T> = Node(items: seq<T>, children: seq<Node<T>>, indices: seq<int>)

  // ---------- contents ----------

  function Contents<T>(n: Node<T>): seq<T>
    decreases n
  {
    if |n.children| != |n.items| + 1 then n.items
    else Pairs(n.children[..|n.items|], n.items) + Contents(n.children[|n.items|])
  }

  /** Each child's contents followed by the item to its right. */
  function Pairs<T>(cs: seq<Node<T>>, its: seq<T>): seq<T>
    requires |cs| == |its|
    decreases cs
  {
    if cs == [] then []
    else var k := |cs| - 1; Pairs(cs[..k], its[..k]) + Contents(cs[k]) + [its[k]]
  }

  /** Each item followed by the contents of the child to its right. */
  function Riaps<T>(its: seq<T>, cs: seq<Node<T>>): seq<T>
    requires |cs| == |its|
    decreases cs
  {
    if cs == [] then [] else [its[0]] + Contents(cs[0]) + Riaps(its[1..], cs[1..])
  }

  // ---------- shape ----------

  /** All leaves at the same depth, one more child than items in inner nodes, one index per child. */
  ghost predicate Shape<T>(n: Node<T>, depth: nat)
    decreases depth
  {
    if depth == 0 then n.children == [] && n.indices == []
    else
      && |n.children| == |n.items| + 1
      && |n.indices| == |n.children|
      && forall i :: 0 <= i < |n.children| ==> Shape(n.children[i], depth - 1)
  }

  /** What comes before and after child `i`. */
  ghost function Before<T>(n: Node<T>, i: nat): seq<T>
    requires i <= |n.items| && |n.children| == |n.items| + 1
  {
    Pairs(n.children[..i], n.items[..i])
  }

  ghost function After<T>(n: Node<T>, i: nat): seq<T>
    requires i <= |n.items| && |n.children| == |n.items| + 1
  {
    Riaps(n.items[i..], n.children[i+1..])
  }

  lemma PairsLast<T>(cs: seq<Node<T>>, its: seq<T>, i: nat)
    requires i < |its| && i < |cs|
    ensures Pairs(cs[..i+1], its[..i+1]) == Pairs(cs[..i], its[..i]) + Contents(cs[i]) + [its[i]]
  {
    hide Contents;
    assert cs[..i+1][..i] == cs[..i] && its[..i+1][..i] == its[..i];
  }

  lemma RiapsFirst<T>(its: seq<T>, cs: seq<Node<T>>, i: nat)
    requires i < |its| && |cs| == |its| + 1
    ensures Riaps(its[i..], cs[i+1..]) == [its[i]] + Contents(cs[i+1]) + Riaps(its[i+1..], cs[i+2..])
  {
    hide Contents;
    assert its[i..][1..] == its[i+1..] && cs[i+1..][1..] == cs[i+2..];
  }

  lemma {:induction false} PairsRiaps<T>(cs: seq<Node<T>>, its: seq<T>, i: nat)
    requires i <= |its| && |cs| == |its| + 1
    ensures Pairs(cs[..|its|], its) + Contents(cs[|its|])
         == Pairs(cs[..i], its[..i]) + Contents(cs[i]) + Riaps(its[i..], cs[i+1..])
    decreases |its| - i
  {
    hide Contents;
    if i == |its| {
      assert its[..i] == its;
    } else {
      hide Pairs, Riaps;
      PairsRiaps(cs, its, i + 1);
      PairsLast(cs, its, i);
      RiapsFirst(its, cs, i);
      Regroup(Pairs(cs[..i], its[..i]), Contents(cs[i]), [its[i]], Contents(cs[i+1]), Riaps(its[i+1..], cs[i+2..]));
    }
  }

  lemma Regroup<T>(a: seq<T>, b: seq<T>, c: seq<T>, d: seq<T>, e: seq<T>)
    ensures (a + b + c) + d + e == a + b + (c + d + e)
  {
  }

  /** The contents around child `i`, and around item `i`. */
  lemma Decompose<T>(n: Node<T>, i: nat)
    requires i <= |n.items| && |n.children| == |n.items| + 1
    ensures Contents(n) == Before(n, i) + Contents(n.children[i]) + After(n, i)
    ensures i < |n.items| ==> Before(n, i + 1) == Before(n, i) + Contents(n.children[i]) + [n.items[i]]
    ensures i < |n.items| ==> After(n, i) == [n.items[i]] + Contents(n.children[i+1]) + After(n, i + 1)
  {
    hide Pairs, Riaps;
    PairsRiaps(n.children, n.items, i);
    if i < |n.items| {
      PairsLast(n.children, n.items, i);
      RiapsFirst(n.items, n.children, i);
    }
  }

  lemma LeafContents<T>(n: Node<T>)
    requires n.children == []
    ensures Contents(n) == n.items
  {
  }

  /** Nodes that agree to the left of child `i` (to the right of it) agree on what comes before (after). */
  lemma SameBefore<T>(n: Node<T>, i: nat, m: Node<T>)
    requires i <= |n.items| && |n.children| == |n.items| + 1
    requires i <= |m.items| && |m.children| == |m.items| + 1
    requires n.children[..i] == m.children[..i] && n.items[..i] == m.items[..i]
    ensures Before(n, i) == Before(m, i)
  {
  }

  lemma SameAfter<T>(n: Node<T>, i: nat, m: Node<T>, j: nat)
    requires i <= |n.items| && |n.children| == |n.items| + 1
    requires j <= |m.items| && |m.children| == |m.items| + 1
    requires n.children[i+1..] == m.children[j+1..] && n.items[i..] == m.items[j..]
    ensures After(n, i) == After(m, j)
  {
  }

  lemma BeforeFirst<T>(n: Node<T>)
    requires |n.children| == |n.items| + 1
    ensures Before(n, 0) == [] && After(n, |n.items|) == []
  {
  }

  // ---------- the indices array ----------

  ghost function Sizes<T>(cs: seq<Node<T>>): (r: seq<int>)
    ensures |r| == |cs|
    ensures forall i :: 0 <= i < |cs| ==> r[i] == |Contents(cs[i])|
  {
    seq(|cs|, i requires 0 <= i < |cs| => |Contents(cs[i])|)
  }

  lemma SizesSlice<T>(cs: seq<Node<T>>, i: nat, j: nat)
    requires i <= j <= |cs|
    ensures Sizes(cs[i..j]) == Sizes(cs)[i..j]
  {
    hide Contents;
  }

  lemma SizesReplace<T>(cs: seq<Node<T>>, i: nat, j: nat, mid: seq<Node<T>>)
    requires i <= j <= |cs|
    ensures Sizes(cs[..i] + mid + cs[j..]) == Sizes(cs)[..i] + Sizes(mid) + Sizes(cs)[j..]
  {
    hide Contents;
  }

  /** The formula of btree.go:245-251, with the children's real sizes. */
  ghost predicate Indexed<T>(n: Node<T>) {
    Indices.Formula(n.indices, Sizes(n.children))
  }

  lemma {:induction false} IndexClosed<T>(n: Node<T>, i: nat)
    requires i <= |n.items| && |n.children| == |n.items| + 1 && Indexed(n)
    ensures n.indices[i] == |Before(n, i)| + |Contents(n.children[i])|
  {
    hide Contents, Pairs;
    if i > 0 {
      IndexClosed(n, i - 1);
      Decompose(n, i - 1);
    } else {
      BeforeFirst(n);
    }
  }

  /** `indices[i]` is the position of `items[i]` in the contents. */
  lemma ItemAt<T>(n: Node<T>, i: nat)
    requires i < |n.items| && |n.children| == |n.items| + 1 && Indexed(n)
    ensures 0 <= n.indices[i] < |Contents(n)| && Contents(n)[n.indices[i]] == n.items[i]
  {
    IndexClosed(n, i);
    Decompose(n, i);
    Decompose(n, i + 1);
  }

  // ---------- the invariant ----------

  /** At most 2d - 1 items in every node, and at least d - 1 in every node but the topmost. */
  ghost predicate Filled<T>(n: Node<T>, depth: nat, d: nat)
    decreases depth
  {
    && |n.items| < 2 * d
    && (depth > 0 ==> forall i :: 0 <= i < |n.children| ==>
          |n.children[i].items| >= d - 1 && Filled(n.children[i], depth - 1, d))
  }

  /** The indices formula in every node. */
  ghost predicate AllIndexed<T>(n: Node<T>, depth: nat)
    decreases depth
  {
    depth > 0 ==> Indexed(n) && forall i :: 0 <= i < |n.children| ==> AllIndexed(n.children[i], depth - 1)
  }

  /** The structural invariant of a tree of degree `d`. */
  ghost predicate Wf<T>(n: Node<T>, depth: nat, d: nat) {
    Shape(n, depth) && Filled(n, depth, d) && AllIndexed(n, depth)
  }

  /** `node.length` (btree.go:335-340). */
  function Length<T>(n: Node<T>): int {
    if |n.indices| == 0 then |n.items| else n.indices[|n.indices| - 1]
  }

  lemma LengthIsSize<T>(n: Node<T>, depth: nat, d: nat)
    requires Wf(n, depth, d)
    ensures Length(n) == |Contents(n)|
  {
    if depth > 0 {
      IndexClosed(n, |n.items|);
      Decompose(n, |n.items|);
    }
  }
}
