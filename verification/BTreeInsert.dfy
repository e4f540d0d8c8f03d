/** Insertion (btree.go:423-455) on values. */
module BTreeInsert {
  import opened SortedSeq
  import opened BTreeNode
  import opened BTreeOps
  import Indices

  // ---------- an update below child i, and of item i ----------

  /** Child `i` replaced by `c`, whose size differs by `delta`. */
  function WithChild<T>(n: Node<T>, i: nat, c: Node<T>, delta: int): Node<T>
    requires i < |n.children| && i <= |n.indices|
  {
    Node(n.items, n.children[i := c], if delta == 0 then n.indices else Indices.AddedAt(n.indices, i, delta))
  }

  lemma WithChildContents<T>(n: Node<T>, i: nat, c: Node<T>, delta: int)
    requires |n.children| == |n.items| + 1 && i < |n.children| && i <= |n.indices|
    ensures Contents(WithChild(n, i, c, delta)) == Before(n, i) + Contents(c) + After(n, i)
  {
    hide Contents, Before, After, Indices.AddedAt;
    var m := WithChild(n, i, c, delta);
    assert m.children[..i] == n.children[..i] && m.children[i+1..] == n.children[i+1..];
    SameBefore(m, i, n);
    SameAfter(m, i, n, i);
    Decompose(m, i);
  }

  lemma WithChildWf<T>(n: Node<T>, i: nat, c: Node<T>, delta: int, depth: nat, d: nat)
    requires Wf(n, depth, d) && depth > 0 && i < |n.children|
    requires GoodChild(c, depth - 1, d) && |Contents(c)| == |Contents(n.children[i])| + delta
    ensures Local(n) && Wf(WithChild(n, i, c, delta), depth, d)
  {
    hide Contents, Wf, Sizes, Indices.AddedAt, Indices.Formula;
    WfNow(n, depth, d);
    WfChild(n, depth, d);
    var m := WithChild(n, i, c, delta);
    SizesUpdate(n.children, i, c);
    if delta != 0 {
      Indices.FormulaLength(n.indices, Sizes(n.children));
      Indices.AddedAtMeans(n.indices, i, delta, Sizes(n.children));
    } else {
      assert Sizes(m.children) == Sizes(n.children);
    }
    forall j | 0 <= j < |m.children| ensures GoodChild(m.children[j], depth - 1, d) {
    }
    WfNode(m, depth, d);
  }

  lemma SizesUpdate<T>(cs: seq<Node<T>>, i: nat, c: Node<T>)
    requires i < |cs|
    ensures i < |Sizes(cs)| && Sizes(cs)[i] == |Contents(cs[i])|
    ensures Sizes(cs[i := c]) == Sizes(cs)[i := |Contents(c)|]
  {
    hide Contents;
  }

  function WithItem<T>(n: Node<T>, i: nat, x: T): Node<T>
    requires i < |n.items|
  {
    Node(n.items[i := x], n.children, n.indices)
  }

  lemma WithItemContents<T>(n: Node<T>, i: nat, x: T)
    requires |n.children| == |n.items| + 1 && i < |n.items|
    ensures Contents(WithItem(n, i, x))
         == (Before(n, i) + Contents(n.children[i])) + [x] + (Contents(n.children[i+1]) + After(n, i + 1))
  {
    hide Contents, Before, After;
    var m := WithItem(n, i, x);
    SameBefore(m, i, n);
    SameAfter(m, i + 1, n, i + 1);
    Decompose(m, i);
  }

  lemma WithItemWf<T>(n: Node<T>, i: nat, x: T, depth: nat, d: nat)
    requires Wf(n, depth, d) && i < |n.items|
    ensures Wf(WithItem(n, i, x), depth, d)
  {
    hide Contents, Wf, Sizes, Indices.Formula;
    WfNow(n, depth, d);
    if depth == 0 {
      WfLeaf(WithItem(n, i, x), d);
    } else {
      WfChild(n, depth, d);
      WfNode(WithItem(n, i, x), depth, d);
    }
  }

  // ---------- searching among a node's items narrows the contents down ----------

  lemma Around<T(!new)>(less: (T, T) -> bool, a: seq<T>, y: T, b: seq<T>, x: T)
    requires StrictWeakOrder(less) && Sorted(less, a + [y] + b)
    ensures less(y, x) ==> AllLess(less, a + [y], x)
    ensures less(x, y) ==> AllMore(less, x, [y] + b)
    ensures Same(less, x, y) ==> AllLess(less, a, x) && AllMore(less, x, b)
  {
    var s := a + [y] + b;
    assert s[|a|] == y;
    assert forall i :: 0 <= i < |a| ==> less(s[i], s[|a|]) && s[i] == a[i];
    assert forall i :: 0 <= i < |b| ==> less(s[|a|], s[|a| + 1 + i]) && s[|a| + 1 + i] == b[i];
  }

  /** The contents around item `i`. */
  lemma AroundItem<T(!new)>(less: (T, T) -> bool, n: Node<T>, i: nat, x: T)
    requires StrictWeakOrder(less) && Sorted(less, Contents(n))
    requires |n.children| == |n.items| + 1 && i < |n.items|
    ensures Contents(n) == (Before(n, i) + Contents(n.children[i])) + [n.items[i]] + (Contents(n.children[i+1]) + After(n, i + 1))
    ensures less(n.items[i], x) ==> AllLess(less, Before(n, i + 1), x)
    ensures less(x, n.items[i]) ==> AllMore(less, x, After(n, i))
    ensures Same(less, x, n.items[i]) ==>
      AllLess(less, Before(n, i) + Contents(n.children[i]), x) && AllMore(less, x, Contents(n.children[i+1]) + After(n, i + 1))
  {
    hide Contents, Before, After, StrictWeakOrder, Sorted, AllLess, AllMore;
    Decompose(n, i);
    Regroup(Before(n, i), Contents(n.children[i]), [n.items[i]], Contents(n.children[i+1]), After(n, i + 1));
    var a, b := Before(n, i) + Contents(n.children[i]), Contents(n.children[i+1]) + After(n, i + 1);
    assert Contents(n) == a + [n.items[i]] + b;
    assert After(n, i) == [n.items[i]] + b;
    Around(less, a, n.items[i], b, x);
  }

  lemma {:induction false} ItemsSorted<T(!new)>(less: (T, T) -> bool, n: Node<T>)
    requires Sorted(less, Contents(n))
    requires |n.children| == |n.items| + 1 && Indexed(n)
    ensures Sorted(less, n.items)
  {
    hide Contents;
    forall i, j | 0 <= i < j < |n.items| ensures less(n.items[i], n.items[j]) {
      ItemAt(n, i);
      ItemAt(n, j);
      IndexGrows(n, i, j);
    }
  }

  lemma {:induction false} IndexGrows<T>(n: Node<T>, i: nat, j: nat)
    requires |n.children| == |n.items| + 1 && Indexed(n) && i < j < |n.indices|
    ensures n.indices[i] < n.indices[j]
  {
    hide Contents;
    if i < j - 1 { IndexGrows(n, i, j - 1); }
    assert n.indices[j] == Indices.Base(n.indices, j) + Sizes(n.children)[j];
  }

  /** Where the search among the items ends, everything before child `i` is smaller than `x` and
      everything after it greater; or item `i` is the match. */
  lemma NodeFind<T(!new)>(less: (T, T) -> bool, n: Node<T>, x: T)
    requires StrictWeakOrder(less) && Sorted(less, Contents(n))
    requires |n.children| == |n.items| + 1 && Indexed(n)
    ensures var (i, found) := Find(less, n.items, x);
      if found then
        && Same(less, x, n.items[i])
      else
        && AllLess(less, Before(n, i), x) && AllMore(less, x, After(n, i))
  {
    hide Contents, Before, After, StrictWeakOrder, Sorted, AllLess, AllMore, Find, Indexed;
    ItemsSorted(less, n);
    FindIsFind(less, n.items, x);
    var (i, found) := Find(less, n.items, x);
    if !found {
      NothingAround(less, n, x);
      if i > 0 { AroundItem(less, n, i - 1, x); }
      if i < |n.items| { AroundItem(less, n, i, x); }
    }
  }

  lemma NothingAround<T>(less: (T, T) -> bool, n: Node<T>, x: T)
    requires |n.children| == |n.items| + 1
    ensures AllLess(less, Before(n, 0), x) && AllMore(less, x, After(n, |n.items|))
  {
    BeforeFirst(n);
  }

  // ---------- insert ----------

  /** `node.insert`.  `depth` only bounds the recursion. */
  function Insert<T>(less: (T, T) -> bool, n: Node<T>, x: T, maxItems: nat, ghost depth: nat): (r: (Node<T>, Option<T>))
    requires Shape(n, depth) && maxItems > 0
    ensures Shape(r.0, depth)
    decreases depth, 1
  {
    var (i, found) := Find(less, n.items, x);
    if found then (WithItem(n, i, x), Some(n.items[i]))
    else if n.children == [] then (Node(PutAt(n.items, i, false, x), n.children, n.indices), None)
    else if |n.children[i].items| < maxItems then InsertBelow(less, n, i, x, maxItems, depth)
    else
      SplitChildShape(n, i, maxItems / 2, depth);
      InsertAfterSplit(less, SplitChild(n, i, maxItems / 2), i, x, maxItems, depth)
  }

  /** The three ways on after the child was split. */
  function InsertAfterSplit<T>(less: (T, T) -> bool, m: Node<T>, i: nat, x: T, maxItems: nat, ghost depth: nat): (r: (Node<T>, Option<T>))
    requires Shape(m, depth) && depth > 0 && maxItems > 0 && i < |m.items|
    ensures Shape(r.0, depth)
    decreases depth, 0, 1
  {
    if less(x, m.items[i]) then InsertBelow(less, m, i, x, maxItems, depth)
    else if less(m.items[i], x) then InsertBelow(less, m, i + 1, x, maxItems, depth)
    else (WithItem(m, i, x), Some(m.items[i]))
  }

  function InsertBelow<T>(less: (T, T) -> bool, n: Node<T>, i: nat, x: T, maxItems: nat, ghost depth: nat): (r: (Node<T>, Option<T>))
    requires Shape(n, depth) && depth > 0 && maxItems > 0 && i < |n.children|
    ensures Shape(r.0, depth)
    decreases depth, 0, 0
  {
    var (c, out) := Insert(less, n.children[i], x, maxItems, depth - 1);
    (WithChild(n, i, c, if out.None? then 1 else 0), out)
  }

  lemma SplitChildShape<T>(n: Node<T>, i: nat, at: nat, depth: nat)
    requires Shape(n, depth) && depth > 0 && i < |n.children| && at < |n.children[i].items|
    ensures Local(n) && Local(n.children[i])
    ensures Shape(SplitChild(n, i, at), depth)
  {
    var c := n.children[i];
    assert Shape(c, depth - 1);
    var m := SplitChild(n, i, at);
    forall j | 0 <= j < |m.children| ensures Shape(m.children[j], depth - 1) {
      if j < i {
        assert m.children[j] == n.children[j];
      } else if j == i {
        assert m.children[j] == SplitLeft(c, at);
      } else if j == i + 1 {
        assert m.children[j] == SplitRight(c, at);
      } else {
        assert m.children[j] == n.children[j-1];
      }
    }
  }

  ghost predicate Inserted<T>(less: (T, T) -> bool, n: Node<T>, x: T, r: (Node<T>, Option<T>), depth: nat, d: nat) {
    && Wf(r.0, depth, d)
    && |r.0.items| >= |n.items|
    && Contents(r.0) == Put(less, Contents(n), x)
    && r.1 == Get(less, Contents(n), x)
  }

  /** Inserting keeps the invariant and changes the contents by exactly the one insertion. */
  lemma {:induction false} InsertOk<T(!new)>(less: (T, T) -> bool, n: Node<T>, x: T, depth: nat, d: nat)
    requires StrictWeakOrder(less) && Sorted(less, Contents(n))
    requires Wf(n, depth, d) && d >= 2 && |n.items| < 2 * d - 1
    ensures Inserted(less, n, x, Insert(less, n, x, 2 * d - 1, depth), depth, d)
    decreases depth, 1
  {
    hide Contents, Before, After, StrictWeakOrder, Sorted, AllLess, AllMore, Find, Wf, Put, Get, WithItem, SplitChild, InsertBelow, Inserted, IsFind;
    WfNow(n, depth, d);
    var (i, found) := Find(less, n.items, x);
    if n.children == [] {
      InsertLeaf(less, n, x, depth, d);
    } else {
      WfChild(n, depth, d);
      NodeFind(less, n, x);
      if found {
        InsertHere(less, n, i, x, depth, d);
      } else if |n.children[i].items| < 2 * d - 1 {
        InsertBelowOk(less, n, i, x, depth, d);
      } else {
        WfNow(n.children[i], depth - 1, d);
        SplitInsertOk(less, n, i, x, depth, d);
      }
    }
  }

  lemma InsertLeaf<T(!new)>(less: (T, T) -> bool, n: Node<T>, x: T, depth: nat, d: nat)
    requires StrictWeakOrder(less) && Sorted(less, Contents(n))
    requires Wf(n, depth, d) && n.children == [] && |n.items| < 2 * d - 1
    ensures Inserted(less, n, x, Insert(less, n, x, 2 * d - 1, depth), depth, d)
  {
    hide Contents, StrictWeakOrder, Sorted, Find, Wf;
    WfNow(n, depth, d);
    var r := Insert(less, n, x, 2 * d - 1, depth);
    LeafContents(n);
    LeafContents(r.0);
    WfLeaf(r.0, d);
  }

  lemma InsertHere<T(!new)>(less: (T, T) -> bool, n: Node<T>, i: nat, x: T, depth: nat, d: nat)
    requires StrictWeakOrder(less) && Sorted(less, Contents(n))
    requires Wf(n, depth, d) && |n.children| == |n.items| + 1 && i < |n.items| && Same(less, x, n.items[i])
    ensures Inserted(less, n, x, (WithItem(n, i, x), Some(n.items[i])), depth, d)
  {
    hide Contents, Before, After, StrictWeakOrder, Sorted, AllLess, AllMore, Wf, Put, Get;
    AroundItem(less, n, i, x);
    WithItemContents(n, i, x);
    WithItemWf(n, i, x, depth, d);
    EditInMiddle(less, Before(n, i) + Contents(n.children[i]), [n.items[i]], Contents(n.children[i+1]) + After(n, i + 1), x);
    SingleFound(less, n.items[i], x);
  }

  lemma ChildSorted<T>(less: (T, T) -> bool, n: Node<T>, i: nat)
    requires Sorted(less, Contents(n)) && |n.children| == |n.items| + 1 && i < |n.children|
    ensures Sorted(less, Contents(n.children[i]))
  {
    hide Contents, Before, After, Sorted;
    Decompose(n, i);
    SortedMiddle(less, Before(n, i), Contents(n.children[i]), After(n, i));
  }

  lemma SingleFound<T>(less: (T, T) -> bool, y: T, x: T)
    requires Same(less, x, y)
    ensures Find(less, [y], x) == (0, true)
    ensures Put(less, [y], x) == [x] && Get(less, [y], x) == Some(y) && Del(less, [y], x) == []
  {
    assert UpperBound(less, [y], x) == 1;
  }

  lemma {:induction false} InsertBelowOk<T(!new)>(less: (T, T) -> bool, n: Node<T>, i: nat, x: T, depth: nat, d: nat)
    requires StrictWeakOrder(less) && Sorted(less, Contents(n))
    requires Wf(n, depth, d) && d >= 2 && depth > 0
    requires i < |n.children| && |n.children[i].items| < 2 * d - 1 && |n.children| == |n.items| + 1
    requires AllLess(less, Before(n, i), x) && AllMore(less, x, After(n, i))
    ensures Inserted(less, n, x, InsertBelow(less, n, i, x, 2 * d - 1, depth), depth, d)
    decreases depth, 0, 0
  {
    hide Contents, Before, After, StrictWeakOrder, Sorted, AllLess, AllMore, Wf, Put, Get, WithChild, Insert;
    WfChild(n, depth, d);
    WfNow(n, depth, d);
    WfNow(n.children[i], depth - 1, d);
    Decompose(n, i);
    EditInMiddle(less, Before(n, i), Contents(n.children[i]), After(n, i), x);
    InsertOk(less, n.children[i], x, depth - 1, d);
    PutSorted(less, Contents(n.children[i]), x);
    var (c, out) := Insert(less, n.children[i], x, 2 * d - 1, depth - 1);
    var delta := if out.None? then 1 else 0;
    WithChildContents(n, i, c, delta);
    WithChildWf(n, i, c, delta, depth, d);
    WithChildItems(n, i, c, delta);
  }

  lemma WithChildItems<T>(n: Node<T>, i: nat, c: Node<T>, delta: int)
    requires i < |n.children| && i <= |n.indices|
    ensures WithChild(n, i, c, delta).items == n.items
  {
  }

  lemma {:induction false} SplitInsertOk<T(!new)>(less: (T, T) -> bool, n: Node<T>, i: nat, x: T, depth: nat, d: nat)
    requires StrictWeakOrder(less) && Sorted(less, Contents(n))
    requires Wf(n, depth, d) && d >= 2 && depth > 0 && |n.items| < 2 * d - 1
    requires i < |n.children| && |n.children[i].items| == 2 * d - 1 && |n.children| == |n.items| + 1
    requires AllLess(less, Before(n, i), x) && AllMore(less, x, After(n, i))
    ensures Local(n) && Local(n.children[i]) && Shape(SplitChild(n, i, d - 1), depth)
    ensures Inserted(less, n, x, InsertAfterSplit(less, SplitChild(n, i, d - 1), i, x, 2 * d - 1, depth), depth, d)
    decreases depth, 0, 1
  {
    hide Contents, Before, After, StrictWeakOrder, Sorted, AllLess, AllMore, Wf, Put, Get, WithItem, SplitChild, InsertBelow;
    SplitChildWf(n, i, depth, d);
    WfNow(n, depth, d);
    SplitChildContents(n, i, d - 1);
    var m := SplitChild(n, i, d - 1);
    SplitChildParts(n, i, d - 1);
    WfNow(m, depth, d);
    AroundItem(less, m, i, x);
    if less(x, m.items[i]) {
      InsertBelowOk(less, m, i, x, depth, d);
    } else if less(m.items[i], x) {
      InsertBelowOk(less, m, i + 1, x, depth, d);
    } else {
      InsertHere(less, m, i, x, depth, d);
    }
  }

  lemma SplitChildParts<T>(n: Node<T>, i: nat, at: nat)
    requires i < |n.children| && Local(n) && Local(n.children[i]) && at < |n.children[i].items|
    ensures var m := SplitChild(n, i, at);
      && |m.children| == |n.children| + 1 && |m.items| == |n.items| + 1
      && m.items[i] == n.children[i].items[at]
      && |m.children[i].items| == at && |m.children[i+1].items| == |n.children[i].items| - at - 1
      && Before(m, i) == Before(n, i) && After(m, i + 1) == After(n, i)
  {
    hide Contents, Before, After, SplitLeft, SplitRight, Indices.SplitAt;
    var m := SplitChild(n, i, at);
    assert m.children[..i] == n.children[..i] && m.items[..i] == n.items[..i];
    assert m.children[i+2..] == n.children[i+1..] && m.items[i+1..] == n.items[i..];
    SplitParts(n.children[i], at);
    SameBefore(m, i, n);
    SameAfter(m, i + 1, n, i);
  }
}
