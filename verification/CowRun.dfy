/** Clone isolation over whole runs: any interleaving of creations, insertions, deletions, clones and
    clearings over one store of shared nodes behaves as on independent sorted sequences. */
module CowRun {
  import opened SortedSeq
  import opened BTreeRemove
  import opened BTree
  import opened CowForest
  import BTreeHeap

  datatype Cmd<T> =
    | CreateCmd(k: nat, degree: nat)
    | InsertCmd(k: nat, x: T)
    | DeleteCmd(k: nat, what: What<T>)
    | CloneCmd(k: nat, k2: nat)
    | ClearCmd(k: nat, addNodesToFreelist: bool)

  /** Trees by name, each with contents of its own. */
  type Shelf<T> = map<nat, seq<T>>

  /** New names for new trees, known names otherwise, and the degree `New` accepts. */
  predicate Enabled<T>(s: Shelf<T>, cmd: Cmd<T>) {
    match cmd
    case CreateCmd(k, degree) => k !in s && degree >= 2
    case InsertCmd(k, _) => k in s
    case DeleteCmd(k, _) => k in s
    case CloneCmd(k, k2) => k in s && k2 !in s
    case ClearCmd(k, _) => k in s
  }

  ghost function Perform<T>(less: (T, T) -> bool, s: Shelf<T>, cmd: Cmd<T>): (Shelf<T>, Option<T>)
    requires Enabled(s, cmd)
  {
    match cmd
    case CreateCmd(k, _) => (s[k := []], None)
    case InsertCmd(k, x) => (s[k := Put(less, s[k], x)], Get(less, s[k], x))
    case DeleteCmd(k, what) => (s[k := Deleted(less, s[k], what).0], Deleted(less, s[k], what).1)
    case CloneCmd(k, k2) => (s[k2 := s[k]], None)
    case ClearCmd(k, _) => (s[k := []], None)
  }

  ghost predicate Runnable<T>(less: (T, T) -> bool, s: Shelf<T>, cmds: seq<Cmd<T>>)
    decreases |cmds|
  {
    cmds == [] || (Enabled(s, cmds[0]) && Runnable(less, Perform(less, s, cmds[0]).0, cmds[1..]))
  }

  ghost function PerformAll<T>(less: (T, T) -> bool, s: Shelf<T>, cmds: seq<Cmd<T>>): (Shelf<T>, seq<Option<T>>)
    requires Runnable(less, s, cmds)
    decreases |cmds|
  {
    if cmds == [] then (s, [])
    else
      var (s1, out) := Perform(less, s, cmds[0]);
      var (s2, outs) := PerformAll(less, s1, cmds[1..]);
      (s2, [out] + outs)
  }

  ghost function Contents<T>(vals: map<nat, Tree<T>>): Shelf<T> {
    map k | k in vals :: Items(vals[k])
  }

  /** One command on the shared store. */
  method Do<T(!new)>(f: Forest<T>, cmd: Cmd<T>) returns (out: Option<T>)
    requires f.Ok() && Enabled(Contents(f.vals), cmd)
    modifies f, f.st
    ensures f.Ok()
    ensures (Contents(f.vals), out) == Perform(f.st.less, old(Contents(f.vals)), cmd)
  {
    hide StrictWeakOrder, ForestOk, ReplaceOrInsert, DeleteItem, Valid, Put, Get, Deleted, Items;
    var less := f.st.less;
    ghost var vals := f.vals;
    Names(f.st.less, f.st.mem, f.trees, f.plans, f.vals, f.nextCow);
    out := None;
    match cmd
    case CreateCmd(k, degree) =>
      f.Create(k, degree);
      NewItems<T>(degree);
      ContentsPut(vals, k, New(degree));
    case InsertCmd(k, x) =>
      out := f.Insert(k, x);
      ReplaceOrInsertOk(less, vals[k], x);
      ContentsPut(vals, k, ReplaceOrInsert(less, vals[k], x).0);
    case DeleteCmd(k, what) =>
      out := f.Delete(k, what);
      DeleteItemOk(less, vals[k], what);
      ContentsPut(vals, k, DeleteItem(less, vals[k], what).0);
    case CloneCmd(k, k2) =>
      f.Clone(k, k2);
      ContentsPut(vals, k2, vals[k]);
    case ClearCmd(k, add) =>
      f.Clear(k, add);
      NewItems<T>(vals[k].degree);
      ContentsPut(vals, k, New(vals[k].degree));
  }

  lemma Names<T>(less: (T, T) -> bool, h: map<nat, BTreeHeap.Rec<T>>, trees: map<nat, Handle>, plans: map<nat, BTreeHeap.Plan>, vals: map<nat, Tree<T>>, nextCow: nat)
    requires ForestOk(less, h, trees, plans, vals, nextCow)
    ensures trees.Keys == vals.Keys && forall k :: k in vals ==> Valid(less, vals[k])
  {
    hide Valid;
  }

  lemma NewItems<T>(degree: nat)
    ensures Items(New<T>(degree)) == []
  {
  }

  lemma ContentsPut<T>(vals: map<nat, Tree<T>>, k: nat, t: Tree<T>)
    ensures Contents(vals[k := t]) == Contents(vals)[k := Items(t)]
  {
  }

  /** The whole run. */
  method RunAll<T(!new)>(less: (T, T) -> bool, cap: nat, cmds: seq<Cmd<T>>) returns (f: Forest<T>, outs: seq<Option<T>>)
    requires StrictWeakOrder(less) && Runnable(less, map[], cmds)
    ensures f.Ok() && f.st.less == less
    ensures (Contents(f.vals), outs) == PerformAll(less, map[], cmds)
  {
    hide StrictWeakOrder, ForestOk, Perform, Enabled;
    f := new Forest(less, cap);
    outs := [];
    assert Contents(f.vals) == map[];
    for i := 0 to |cmds|
      invariant f.Ok() && f.st.less == less && fresh(f) && fresh(f.st)
      invariant Runnable(less, map[], cmds[..i])
      invariant (Contents(f.vals), outs) == PerformAll(less, map[], cmds[..i])
    {
      assert cmds == cmds[..i] + cmds[i..] && cmds[i..][0] == cmds[i];
      RunnableAt(less, map[], cmds[..i], cmds[i..]);
      PerformLast(less, map[], cmds[..i], cmds[i]);
      assert cmds[..i] + [cmds[i]] == cmds[..i+1];
      var out := Do(f, cmds[i]);
      outs := outs + [out];
    }
    assert cmds[..|cmds|] == cmds;
  }

  lemma {:induction false} RunnableAt<T>(less: (T, T) -> bool, s: Shelf<T>, a: seq<Cmd<T>>, b: seq<Cmd<T>>)
    requires Runnable(less, s, a + b)
    ensures Runnable(less, s, a) && Runnable(less, PerformAll(less, s, a).0, b)
    decreases |a|
  {
    hide Perform, Enabled;
    if a == [] {
      assert a + b == b;
    } else {
      assert (a + b)[1..] == a[1..] + b && (a + b)[0] == a[0];
      RunnableAt(less, Perform(less, s, a[0]).0, a[1..], b);
    }
  }

  lemma {:induction false} PerformLast<T>(less: (T, T) -> bool, s: Shelf<T>, cmds: seq<Cmd<T>>, cmd: Cmd<T>)
    requires Runnable(less, s, cmds) && Enabled(PerformAll(less, s, cmds).0, cmd)
    ensures Runnable(less, s, cmds + [cmd])
    ensures var (s1, outs) := PerformAll(less, s, cmds); var (s2, out) := Perform(less, s1, cmd);
      PerformAll(less, s, cmds + [cmd]) == (s2, outs + [out])
    decreases |cmds|
  {
    hide Perform, Enabled;
    if cmds == [] {
      assert cmds + [cmd] == [cmd] && [cmd][1..] == [];
      var (s2, out) := Perform(less, s, cmd);
      assert Runnable(less, s2, []) && PerformAll(less, s2, []) == (s2, []);
      assert PerformAll(less, s, [cmd]) == (s2, [out] + []);
      var none: seq<Option<T>> := [];
      assert none + [out] == [out] + none;
    } else {
      assert (cmds + [cmd])[1..] == cmds[1..] + [cmd] && (cmds + [cmd])[0] == cmds[0];
      var (s1, first) := Perform(less, s, cmds[0]);
      PerformLast(less, s1, cmds[1..], cmd);
      var (s2, rest) := PerformAll(less, s1, cmds[1..]);
      var (s3, out) := Perform(less, s2, cmd);
      assert [first] + (rest + [out]) == ([first] + rest) + [out];
    }
  }
}
