/** Read-only operations of the B-tree: rank and select, and ordered iteration. */
module BTreeQuery {
  import opened SortedSeq
  import opened BTreeNode
  import opened BTreeOps
  import opened BTreeInsert
  import opened BTree
  import Indices

  // ---------- select: GetAt ----------

  /** `sort.SearchInts`: the first position whose entry is at least `k`. */
  function SearchInts(s: seq<int>, k: int): (i: nat)
    ensures i <= |s|
    ensures forall j :: 0 <= j < i ==> s[j] < k
    ensures i < |s| ==> s[i] >= k
  {
    if s == [] || s[0] >= k then 0 else 1 + SearchInts(s[1..], k)
  }

  /** `node.getAt` (btree.go:457-472). */
  function NodeGetAt<T>(n: Node<T>, k: int, ghost depth: nat): Option<T>
    requires Shape(n, depth)
    decreases depth
  {
    if k >= Length(n) || k < 0 then None
    else if n.children == [] then Some(n.items[k])
    else
      var i := SearchInts(n.indices, k);
      if n.indices[i] == k then Some(n.items[i])
      else if i == 0 then NodeGetAt(n.children[0], k, depth - 1)
      else NodeGetAt(n.children[i], k - n.indices[i-1] - 1, depth - 1)
  }

  ghost function At<T>(s: seq<T>, k: int): Option<T> {
    if 0 <= k < |s| then Some(s[k]) else None
  }

  lemma {:induction false} NodeGetAtOk<T>(n: Node<T>, k: int, depth: nat, d: nat)
    requires Wf(n, depth, d)
    ensures NodeGetAt(n, k, depth) == At(Contents(n), k)
    decreases depth
  {
    hide Contents, Wf, SearchInts, Before, After, Length;
    WfNow(n, depth, d);
    LengthIsSize(n, depth, d);
    if 0 <= k < |Contents(n)| {
      if depth == 0 {
        LeafContents(n);
      } else {
        WfChild(n, depth, d);
        SelectChild(n, k, depth, d);
        var i := SearchInts(n.indices, k);
        if n.indices[i] == k {
          ItemAt(n, i);
        } else {
          var j := k - Indices.Base(n.indices, i);
          WfNow(n.children[i], depth - 1, d);
          NodeGetAtOk(n.children[i], j, depth - 1, d);
          Decompose(n, i);
        }
      }
    }
  }

  /** The search among the indices ends at the child or item that holds position `k`. */
  lemma SelectChild<T>(n: Node<T>, k: int, depth: nat, d: nat)
    requires Wf(n, depth, d) && depth > 0 && 0 <= k < |Contents(n)| && Length(n) == |Contents(n)|
    ensures var i := SearchInts(n.indices, k);
      && i < |n.indices| && |n.indices| == |n.children| == |n.items| + 1
      && (n.indices[i] == k ==> i < |n.items|)
      && Indices.Base(n.indices, i) == |Before(n, i)|
      && (n.indices[i] != k ==> 0 <= k - |Before(n, i)| < |Contents(n.children[i])|)
  {
    hide Contents, Wf, Before, After;
    WfNow(n, depth, d);
    WfChild(n, depth, d);
    var i := SearchInts(n.indices, k);
    IndexClosed(n, i);
    assert n.indices[i] == Indices.Base(n.indices, i) + Sizes(n.children)[i];
  }

  // ---------- rank: Get and GetWithIndex ----------

  /** `node.getWithIndex` (btree.go:474-491). */
  function NodeGetWithIndex<T>(less: (T, T) -> bool, n: Node<T>, key: T, ghost depth: nat): (Option<T>, int)
    requires Shape(n, depth)
    decreases depth
  {
    var (i, found) := Find(less, n.items, key);
    if found then (Some(n.items[i]), if |n.indices| > 0 then n.indices[i] else i)
    else if |n.children| > 0 then
      var (out, rk) := NodeGetWithIndex(less, n.children[i], key, depth - 1);
      (out, if i > 0 then rk + n.indices[i-1] + 1 else rk)
    else (None, i)
  }

  lemma {:induction false} NodeGetWithIndexOk<T(!new)>(less: (T, T) -> bool, n: Node<T>, key: T, depth: nat, d: nat)
    requires StrictWeakOrder(less) && Sorted(less, Contents(n)) && Wf(n, depth, d)
    ensures NodeGetWithIndex(less, n, key, depth) == (Get(less, Contents(n), key), Find(less, Contents(n), key).0)
    decreases depth
  {
    hide Contents, Wf, Find, StrictWeakOrder, Sorted, Get;
    WfNow(n, depth, d);
    if depth == 0 {
      LeafRank(less, n, key);
    } else {
      WfChild(n, depth, d);
      var (i, found) := Find(less, n.items, key);
      NodeRank(less, n, key, depth, d);
      if !found {
        WfNow(n.children[i], depth - 1, d);
        NodeGetWithIndexOk(less, n.children[i], key, depth - 1, d);
      }
    }
  }

  lemma LeafRank<T(!new)>(less: (T, T) -> bool, n: Node<T>, key: T)
    requires n.children == []
    ensures Find(less, Contents(n), key) == Find(less, n.items, key)
    ensures Get(less, Contents(n), key) == if Find(less, n.items, key).1 then Some(n.items[Find(less, n.items, key).0]) else None
  {
    hide Find;
    LeafContents(n);
  }

  /** The position of `key` in the contents, from that among the items or in the child searched next. */
  lemma NodeRank<T(!new)>(less: (T, T) -> bool, n: Node<T>, key: T, depth: nat, d: nat)
    requires StrictWeakOrder(less) && Sorted(less, Contents(n)) && Wf(n, depth, d) && depth > 0
    ensures var (i, found) := Find(less, n.items, key);
      && |n.indices| == |n.children| == |n.items| + 1
      && if found then
           Find(less, Contents(n), key) == (n.indices[i], true) && Get(less, Contents(n), key) == Some(n.items[i])
         else
           var s := Contents(n.children[i]);
           && Sorted(less, s) && Get(less, Contents(n), key) == Get(less, s, key)
           && Find(less, Contents(n), key) == (Indices.Base(n.indices, i) + Find(less, s, key).0, Find(less, s, key).1)
  {
    hide Contents, Wf, Find, Before, After, StrictWeakOrder, Sorted, AllLess, AllMore, Get;
    WfNow(n, depth, d);
    WfChild(n, depth, d);
    NodeFind(less, n, key);
    var (i, found) := Find(less, n.items, key);
    IndexClosed(n, i);
    assert n.indices[i] == Indices.Base(n.indices, i) + Sizes(n.children)[i];
    if found {
      AroundItem(less, n, i, key);
      var lo, hi := Before(n, i) + Contents(n.children[i]), Contents(n.children[i+1]) + After(n, i + 1);
      FindInMiddle(less, lo, [n.items[i]], hi, key);
      EditInMiddle(less, lo, [n.items[i]], hi, key);
      SingleFound(less, n.items[i], key);
    } else {
      Decompose(n, i);
      FindInMiddle(less, Before(n, i), Contents(n.children[i]), After(n, i), key);
      EditInMiddle(less, Before(n, i), Contents(n.children[i]), After(n, i), key);
    }
  }

  function GetAt<T>(less: (T, T) -> bool, t: Tree<T>, k: int): Option<T>
    requires Valid(less, t)
  {
    if t.root.None? then None
    else WfNow(t.root.value, Height(t.root.value), t.degree); NodeGetAt(t.root.value, k, Height(t.root.value))
  }

  function GetWithIndex<T>(less: (T, T) -> bool, t: Tree<T>, key: T): (Option<T>, int)
    requires Valid(less, t)
  {
    if t.root.None? then (None, 0)
    else WfNow(t.root.value, Height(t.root.value), t.degree); NodeGetWithIndex(less, t.root.value, key, Height(t.root.value))
  }

  /** Select and rank on the whole tree, in terms of the sorted contents. */
  lemma GetAtOk<T(!new)>(less: (T, T) -> bool, t: Tree<T>, k: int)
    requires Valid(less, t)
    ensures GetAt(less, t, k) == At(Items(t), k)
  {
    hide Contents, Wf, NodeGetAt;
    if t.root.Some? { NodeGetAtOk(t.root.value, k, Height(t.root.value), t.degree); }
  }

  lemma GetWithIndexOk<T(!new)>(less: (T, T) -> bool, t: Tree<T>, key: T)
    requires StrictWeakOrder(less) && Valid(less, t)
    ensures GetWithIndex(less, t, key) == (Get(less, Items(t), key), Find(less, Items(t), key).0)
  {
    hide Contents, Wf, NodeGetWithIndex, StrictWeakOrder, Sorted;
    if t.root.Some? { NodeGetWithIndexOk(less, t.root.value, key, Height(t.root.value), t.degree); }
  }

  /** On present keys, rank and select undo each other; on every key the rank counts the smaller items. */
  lemma RankSelect<T(!new)>(less: (T, T) -> bool, t: Tree<T>, key: T, k: nat)
    requires StrictWeakOrder(less) && Valid(less, t)
    ensures GetWithIndex(less, t, key).0.Some? ==> GetAt(less, t, GetWithIndex(less, t, key).1) == GetWithIndex(less, t, key).0
    ensures k < |Items(t)| ==> GetWithIndex(less, t, Items(t)[k]) == (Some(Items(t)[k]), k)
    ensures forall i :: 0 <= i < |Items(t)| ==> (less(Items(t)[i], key) <==> i < GetWithIndex(less, t, key).1)
  {
    hide Contents, Wf, GetAt, GetWithIndex, Items, Find;
    GetWithIndexOk(less, t, key);
    FindIsFind(less, Items(t), key);
    GetAtOk(less, t, GetWithIndex(less, t, key).1);
    if k < |Items(t)| {
      GetWithIndexOk(less, t, Items(t)[k]);
      FindUnique(less, Items(t), Items(t)[k], (k, true));
    }
  }
}
