/** The B-tree itself (btree.go:759-764, 851-915) as a value, over whole runs, and its queries. */
module BTree {
  import opened SortedSeq
  import opened BTreeNode
  import opened BTreeOps
  import opened BTreeInsert
  import opened BTreeGrow
  import opened BTreeRemove
  import Indices

  datatype Tree<T> = Tree(degree: nat, length: int, root: Option<Node<T>>)

  ghost function Height<T>(n: Node<T>): nat
    decreases n
  {
    if n.children == [] then 0 else 1 + Height(n.children[0])
  }

  lemma {:induction false} HeightIsDepth<T>(n: Node<T>, depth: nat)
    requires Shape(n, depth)
    ensures Height(n) == depth
  {
    if depth > 0 { HeightIsDepth(n.children[0], depth - 1); }
  }

  function Items<T>(t: Tree<T>): seq<T> {
    if t.root.None? then [] else Contents(t.root.value)
  }

  /** Uniform depth, occupancy, indices, order, and the length counter. */
  ghost predicate Valid<T>(less: (T, T) -> bool, t: Tree<T>) {
    && t.degree >= 2
    && Sorted(less, Items(t))
    && t.length == |Items(t)|
    && (t.root.Some? ==> RootOk(t.root.value, t.degree))
  }

  ghost predicate RootOk<T>(n: Node<T>, d: nat) {
    Wf(n, Height(n), d) && (n.children == [] || n.items != [])
  }

  function New<T>(degree: nat): Tree<T> {
    Tree(degree, 0, None)
  }

  // ---------- ReplaceOrInsert ----------

  /** A full root is split under a new one. */
  function SplitRoot<T>(n: Node<T>, at: nat): Node<T>
    requires at < |n.items| && Local(n)
  {
    var l, r := SplitLeft(n, at), SplitRight(n, at);
    Node([n.items[at]], [l, r], InitSize([l, r]))
  }

  lemma SplitRootOk<T>(n: Node<T>, depth: nat, d: nat)
    requires Wf(n, depth, d) && d >= 2 && |n.items| == 2 * d - 1
    ensures Local(n) && Wf(SplitRoot(n, d - 1), depth + 1, d)
    ensures Contents(SplitRoot(n, d - 1)) == Contents(n)
  {
    hide Contents, Wf, SplitLeft, SplitRight, Length, Sizes, InitSize, Before, After;
    SplitWf(n, d - 1, depth, d);
    SplitContents(n, d - 1);
    SplitParts(n, d - 1);
    var m, l, r := SplitRoot(n, d - 1), SplitLeft(n, d - 1), SplitRight(n, d - 1);
    LengthIsSize(l, depth, d);
    LengthIsSize(r, depth, d);
    InitSizeFormula(m.children);
    WfNode(m, depth + 1, d);
    Decompose(m, 0);
    BeforeFirst(m);
    assert After(m, 0) == [n.items[d-1]] + Contents(r) + After(m, 1);
    assert Contents(l) + ([n.items[d-1]] + Contents(r)) == Contents(l) + [n.items[d-1]] + Contents(r);
  }

  function ReplaceOrInsert<T>(less: (T, T) -> bool, t: Tree<T>, x: T): (r: (Tree<T>, Option<T>))
    requires Valid(less, t)
  {
    hide Contents, Wf, Sorted, Shape, SplitRoot;
    var maxItems := 2 * t.degree - 1;
    match t.root
    case None => (Tree(t.degree, t.length + 1, Some(Node([x], [], []))), None)
    case Some(n) =>
      WfNow(n, Height(n), t.degree);
      if |n.items| >= maxItems then
        SplitRootOk(n, Height(n), t.degree);
        WfNow(SplitRoot(n, maxItems / 2), Height(n) + 1, t.degree);
        var (m, out) := Insert(less, SplitRoot(n, maxItems / 2), x, maxItems, Height(n) + 1);
        (Tree(t.degree, if out.None? then t.length + 1 else t.length, Some(m)), out)
      else
        var (m, out) := Insert(less, n, x, maxItems, Height(n));
        (Tree(t.degree, if out.None? then t.length + 1 else t.length, Some(m)), out)
  }

  lemma ReplaceOrInsertOk<T(!new)>(less: (T, T) -> bool, t: Tree<T>, x: T)
    requires StrictWeakOrder(less) && Valid(less, t)
    ensures var (t', out) := ReplaceOrInsert(less, t, x);
      Valid(less, t') && t'.degree == t.degree && Items(t') == Put(less, Items(t), x) && out == Get(less, Items(t), x)
  {
    hide StrictWeakOrder, Sorted, Contents, Wf, Insert, SplitRoot, Height, Put, Get;
    PutSorted(less, Items(t), x);
    var d := t.degree;
    match t.root
    case None =>
      EmptyPut(less, x);
      WfLeaf(Node([x], [], []), d);
      LeafContents(Node([x], [], []));
      HeightIsDepth(Node([x], [], []), 0);
    case Some(n) =>
      WfNow(n, Height(n), d);
      if |n.items| >= 2 * d - 1 {
        SplitRootOk(n, Height(n), d);
        SplitRootItems(n, d - 1);
        InsertRoot(less, SplitRoot(n, d - 1), x, Height(n) + 1, d);
      } else {
        InsertRoot(less, n, x, Height(n), d);
      }
  }

  lemma EmptyPut<T>(less: (T, T) -> bool, x: T)
    ensures Put(less, [], x) == [x] && Get(less, [], x) == None
  {
  }

  lemma SplitRootItems<T>(n: Node<T>, at: nat)
    requires at < |n.items| && Local(n)
    ensures |SplitRoot(n, at).items| == 1
  {
  }

  lemma InsertRoot<T(!new)>(less: (T, T) -> bool, n: Node<T>, x: T, depth: nat, d: nat)
    requires StrictWeakOrder(less) && Sorted(less, Contents(n))
    requires Wf(n, depth, d) && d >= 2 && |n.items| < 2 * d - 1 && (n.children == [] || n.items != [])
    ensures Inserted(less, n, x, Insert(less, n, x, 2 * d - 1, depth), depth, d)
    ensures RootOk(Insert(less, n, x, 2 * d - 1, depth).0, d)
  {
    hide StrictWeakOrder, Sorted, Contents, Wf, Insert, Put, Get, Height;
    WfNow(n, depth, d);
    InsertOk(less, n, x, depth, d);
    var m := Insert(less, n, x, 2 * d - 1, depth).0;
    WfNow(m, depth, d);
    HeightIsDepth(m, depth);
  }

  // ---------- Delete, DeleteMin, DeleteMax ----------

  /** `deleteItem` (btree.go:900-915). */
  function DeleteItem<T>(less: (T, T) -> bool, t: Tree<T>, what: What<T>): (r: (Tree<T>, Option<T>))
    requires Valid(less, t)
  {
    if t.root.None? || t.root.value.items == [] then (t, None)
    else
      var (m, out) := Remove(less, t.root.value, what, t.degree, Height(t.root.value));
      var root := if m.items == [] && m.children != [] then m.children[0] else m;
      (Tree(t.degree, if out.None? then t.length else t.length - 1, Some(root)), out)
  }

  /** The removal on possibly empty contents. */
  ghost function Deleted<T>(less: (T, T) -> bool, s: seq<T>, what: What<T>): (seq<T>, Option<T>) {
    if s == [] then (s, None) else Removed(less, s, what)
  }

  lemma DeleteItemOk<T(!new)>(less: (T, T) -> bool, t: Tree<T>, what: What<T>)
    requires StrictWeakOrder(less) && Valid(less, t)
    ensures var (t', out) := DeleteItem(less, t, what);
      Valid(less, t') && t'.degree == t.degree && (Items(t'), out) == Deleted(less, Items(t), what)
  {
    hide StrictWeakOrder, Sorted, Contents, Wf, Remove, Height, Removed;
    if t.root.Some? {
      var n, d := t.root.value, t.degree;
      WfNow(n, Height(n), d);
      if n.items == [] {
        LeafContents(n);
      } else {
        RemoveOk(less, n, what, Height(n), d);
        var (m, out) := Remove(less, n, what, d, Height(n));
        RemovedSorted(less, Contents(n), what);
        ShrinkRoot(m, Height(n), d);
      }
    }
  }

  lemma RemovedSorted<T(!new)>(less: (T, T) -> bool, s: seq<T>, what: What<T>)
    requires |s| > 0 && StrictWeakOrder(less) && Sorted(less, s)
    ensures Sorted(less, Removed(less, s, what).0)
    ensures |Removed(less, s, what).0| == |s| - if Removed(less, s, what).1.None? then 0 else 1
  {
    hide StrictWeakOrder;
    if what.Item? { DelSorted(less, s, what.x); }
  }

  /** A root left with no items is replaced by its only child. */
  lemma ShrinkRoot<T>(m: Node<T>, depth: nat, d: nat)
    requires Wf(m, depth, d) && d >= 2
    ensures m.items == [] && m.children != [] ==> |m.children| == 1 && RootOk(m.children[0], d) && Contents(m.children[0]) == Contents(m)
    ensures !(m.items == [] && m.children != []) ==> RootOk(m, d)
  {
    hide Contents, Wf;
    WfNow(m, depth, d);
    HeightIsDepth(m, depth);
    if m.items == [] && m.children != [] {
      WfChild(m, depth, d);
      WfNow(m.children[0], depth - 1, d);
      HeightIsDepth(m.children[0], depth - 1);
      SingleChild(m);
    }
  }

  // ---------- whole runs ----------

  datatype Op<T> = InsertOp(x: T) | DeleteOp(what: What<T>)

  function Apply<T>(less: (T, T) -> bool, t: Tree<T>, op: Op<T>): (Tree<T>, Option<T>)
    requires Valid(less, t)
  {
    match op
    case InsertOp(x) => ReplaceOrInsert(less, t, x)
    case DeleteOp(what) => DeleteItem(less, t, what)
  }

  /** The same step on the sorted contents. */
  ghost function SeqStep<T>(less: (T, T) -> bool, s: seq<T>, op: Op<T>): (seq<T>, Option<T>) {
    match op
    case InsertOp(x) => (Put(less, s, x), Get(less, s, x))
    case DeleteOp(what) => Deleted(less, s, what)
  }

  ghost function SeqRun<T>(less: (T, T) -> bool, s: seq<T>, ops: seq<Op<T>>): (seq<T>, seq<Option<T>>)
    decreases |ops|
  {
    if ops == [] then (s, [])
    else
      var (s1, out) := SeqStep(less, s, ops[0]);
      var (s2, outs) := SeqRun(less, s1, ops[1..]);
      (s2, [out] + outs)
  }

  lemma ApplyOk<T(!new)>(less: (T, T) -> bool, t: Tree<T>, op: Op<T>)
    requires StrictWeakOrder(less) && Valid(less, t)
    ensures var (t', out) := Apply(less, t, op);
      Valid(less, t') && t'.degree == t.degree && (Items(t'), out) == SeqStep(less, Items(t), op)
  {
    hide StrictWeakOrder, Valid, Items, ReplaceOrInsert, DeleteItem;
    match op
    case InsertOp(x) => ReplaceOrInsertOk(less, t, x);
    case DeleteOp(what) => DeleteItemOk(less, t, what);
  }

  /** Any sequence of insertions and deletions, run in a loop: the tree stays valid, and its contents
      and all returned items are those of the same operations on a sorted sequence. */
  method Run<T(!new)>(less: (T, T) -> bool, degree: nat, ops: seq<Op<T>>) returns (t: Tree<T>, outs: seq<Option<T>>)
    requires StrictWeakOrder(less) && degree >= 2
    ensures Valid(less, t) && t.degree == degree
    ensures (Items(t), outs) == SeqRun(less, [], ops)
  {
    hide StrictWeakOrder, ReplaceOrInsert, DeleteItem, SeqStep, Wf, Contents;
    t, outs := New(degree), [];
    for i := 0 to |ops|
      invariant Valid(less, t) && t.degree == degree
      invariant (Items(t), outs) == SeqRun(less, [], ops[..i])
    {
      ApplyOk(less, t, ops[i]);
      SeqRunLast(less, [], ops[..i], ops[i]);
      assert ops[..i] + [ops[i]] == ops[..i+1];
      var (t', out) := Apply(less, t, ops[i]);
      t, outs := t', outs + [out];
    }
    assert ops[..|ops|] == ops;
  }

  lemma {:induction false} SeqRunLast<T>(less: (T, T) -> bool, s: seq<T>, ops: seq<Op<T>>, op: Op<T>)
    ensures var (s1, outs) := SeqRun(less, s, ops);
      var (s2, out) := SeqStep(less, s1, op);
      SeqRun(less, s, ops + [op]) == (s2, outs + [out])
    decreases |ops|
  {
    hide SeqStep;
    if ops == [] {
      assert ops + [op] == [op] && [op][1..] == [];
      var (s2, out) := SeqStep(less, s, op);
      assert SeqRun(less, s2, []) == (s2, []);
      assert SeqRun(less, s, [op]) == (s2, [out] + []);
      var none: seq<Option<T>> := [];
      assert none + [out] == [out] + none;
    } else {
      assert (ops + [op])[1..] == ops[1..] + [op];
      var (s1, first) := SeqStep(less, s, ops[0]);
      SeqRunLast(less, s1, ops[1..], op);
      var (s2, rest) := SeqRun(less, s1, ops[1..]);
      var (s3, out) := SeqStep(less, s2, op);
      assert [first] + (rest + [out]) == ([first] + rest) + [out];
    }
  }
}
