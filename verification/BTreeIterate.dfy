/** Ordered iteration (btree.go:662-742, 917-987): which items reach the callback, in which order,
    until it returns false. */
module BTreeIterate {
  import opened SortedSeq
  import opened BTreeNode
  import opened BTreeOps
  import opened BTreeInsert
  import opened BTree

  // ---------- the part of the contents an iteration delivers ----------

  /** Greater than the start, or also equivalent to it. */
  function AtLeast<T>(less: (T, T) -> bool, start: Option<T>, closed: bool): T -> bool {
    x => start.None? || if closed then !less(x, start.value) else less(start.value, x)
  }

  /** Less than the start, or also equivalent to it. */
  function AtMost<T>(less: (T, T) -> bool, start: Option<T>, closed: bool): T -> bool {
    x => start.None? || if closed then !less(start.value, x) else less(x, start.value)
  }

  function LessThan<T>(less: (T, T) -> bool, stop: Option<T>): T -> bool {
    x => stop.None? || less(x, stop.value)
  }

  function GreaterThan<T>(less: (T, T) -> bool, stop: Option<T>): T -> bool {
    x => stop.None? || less(stop.value, x)
  }

  /** On sorted contents these are a suffix and a prefix. */
  lemma AtLeastIsSuffix<T(!new)>(less: (T, T) -> bool, x: T, s: seq<T>)
    requires StrictWeakOrder(less) && Sorted(less, s)
    ensures Filter(AtLeast(less, Some(x), true), s) == s[Find(less, s, x).0..]
  {
    hide StrictWeakOrder, Sorted, Find;
    FindIsFind(less, s, x);
    FilterCut(AtLeast(less, Some(x), true), s, Find(less, s, x).0, false);
  }

  lemma AtMostIsPrefix<T(!new)>(less: (T, T) -> bool, x: T, s: seq<T>)
    requires StrictWeakOrder(less) && Sorted(less, s)
    ensures var (p, found) := Find(less, s, x);
      Filter(AtMost(less, Some(x), true), s) == s[..if found then p + 1 else p]
  {
    hide StrictWeakOrder, Sorted, Find;
    FindIsFind(less, s, x);
    var (p, found) := Find(less, s, x);
    FilterCut(AtMost(less, Some(x), true), s, if found then p + 1 else p, true);
  }

  // ---------- a node as a row of items with what lies between them ----------

  ghost function Lead<T>(n: Node<T>, i: nat): seq<T>
    requires Local(n) && i <= |n.items|
  {
    if n.children == [] then n.items[..i] else Before(n, i)
  }

  ghost function Part<T>(n: Node<T>, i: nat): seq<T>
    requires Local(n) && i <= |n.items|
  {
    if n.children == [] then [] else Contents(n.children[i])
  }

  ghost function Trail<T>(n: Node<T>, i: nat): seq<T>
    requires Local(n) && i <= |n.items|
  {
    if n.children == [] then n.items[i..] else After(n, i)
  }

  lemma Row<T>(n: Node<T>, i: nat)
    requires Local(n) && i <= |n.items|
    ensures Contents(n) == Lead(n, i) + Part(n, i) + Trail(n, i)
    ensures i < |n.items| ==> Lead(n, i + 1) == Lead(n, i) + Part(n, i) + [n.items[i]]
    ensures i < |n.items| ==> Trail(n, i) == [n.items[i]] + Part(n, i + 1) + Trail(n, i + 1)
    ensures Lead(n, 0) == [] && Trail(n, |n.items|) == []
  {
    hide Contents, Before, After;
    if n.children == [] {
      LeafContents(n);
      Cut(n.items, i);
    } else {
      Decompose(n, i);
      BeforeFirst(n);
    }
  }

  lemma Cut<T>(s: seq<T>, i: nat)
    requires i <= |s|
    ensures s[..i] + [] + s[i..] == s && s[..0] == [] && s[|s|..] == []
    ensures i < |s| ==> s[..i+1] == s[..i] + [] + [s[i]] && s[i..] == [s[i]] + [] + s[i+1..]
  {
  }

  lemma FilterRow<T>(p: T -> bool, n: Node<T>, i: nat)
    requires Local(n) && i <= |n.items|
    ensures Filter(p, Contents(n)) == (Filter(p, Lead(n, i)) + Filter(p, Part(n, i))) + Filter(p, Trail(n, i))
    ensures i < |n.items| ==>
      && Filter(p, Lead(n, i + 1)) == Filter(p, Lead(n, i)) + Filter(p, Part(n, i)) + Filter(p, [n.items[i]])
      && Filter(p, Trail(n, i)) == Filter(p, [n.items[i]]) + Filter(p, Part(n, i + 1)) + Filter(p, Trail(n, i + 1))
  {
    hide Contents, Lead, Part, Trail, Filter;
    Row(n, i);
    FilterConcat(p, Lead(n, i) + Part(n, i), Trail(n, i));
    FilterConcat(p, Lead(n, i), Part(n, i));
    if i < |n.items| {
      FilterConcat(p, Lead(n, i) + Part(n, i), [n.items[i]]);
      FilterConcat(p, [n.items[i]] + Part(n, i + 1), Trail(n, i + 1));
      FilterConcat(p, [n.items[i]], Part(n, i + 1));
    }
  }

  /** The row read from its two ends. */
  lemma FilterEnds<T>(p: T -> bool, n: Node<T>)
    requires Local(n)
    ensures Filter(p, Contents(n)) == Filter(p, Lead(n, |n.items|)) + Filter(p, Part(n, |n.items|))
    ensures Filter(p, Contents(n)) == Filter(p, Part(n, 0)) + Filter(p, Trail(n, 0))
    ensures Filter(p, Lead(n, 0)) == [] && Filter(p, Trail(n, |n.items|)) == []
  {
    hide Contents, Lead, Part, Trail;
    Row(n, 0);
    Row(n, |n.items|);
    FilterRow(p, n, 0);
    FilterRow(p, n, |n.items|);
  }

  lemma FilterEmpty<T>(p: T -> bool)
    ensures Filter(p, []) == []
  {
  }

  /** What is before the place of `x` among the items is smaller, what is behind it greater. */
  lemma RowFind<T(!new)>(less: (T, T) -> bool, n: Node<T>, x: T, depth: nat, d: nat)
    requires StrictWeakOrder(less) && Sorted(less, Contents(n)) && Wf(n, depth, d)
    ensures Local(n) && IsFind(less, n.items, x, Find(less, n.items, x))
    ensures var (i, found) := Find(less, n.items, x);
      && AllLess(less, Lead(n, i), x)
      && (if found then AllMore(less, x, Trail(n, i + 1)) && AllMore(less, x, Part(n, i + 1)) && AllLess(less, Part(n, i), x)
          else AllMore(less, x, Trail(n, i)))
  {
    hide Contents, Before, After, Sorted, StrictWeakOrder, Find, Wf, Indexed, AllLess, AllMore, IsFind;
    WfNow(n, depth, d);
    var (i, found) := Find(less, n.items, x);
    if depth == 0 {
      LeafContents(n);
      FindIsFind(less, n.items, x);
      LeafRow(less, n.items, x);
    } else {
      WfChild(n, depth, d);
      ItemsSorted(less, n);
      FindIsFind(less, n.items, x);
      NodeFind(less, n, x);
      if found {
        AroundItem(less, n, i, x);
        AllLessParts(less, Before(n, i), Contents(n.children[i]), x);
        AllMoreParts(less, x, Contents(n.children[i+1]), After(n, i + 1));
      }
    }
  }

  lemma LeafRow<T>(less: (T, T) -> bool, s: seq<T>, x: T)
    requires IsFind(less, s, x, Find(less, s, x))
    ensures var (i, found) := Find(less, s, x);
      AllLess(less, s[..i], x) && AllMore(less, x, s[if found then i + 1 else i..]) && AllLess(less, [], x) && AllMore(less, x, [])
  {
  }

  lemma AllLessParts<T>(less: (T, T) -> bool, a: seq<T>, b: seq<T>, x: T)
    requires AllLess(less, a + b, x)
    ensures AllLess(less, a, x) && AllLess(less, b, x)
  {
    assert forall i :: 0 <= i < |a| ==> a[i] == (a + b)[i];
    assert forall i :: 0 <= i < |b| ==> b[i] == (a + b)[|a| + i];
  }

  lemma AllMoreParts<T>(less: (T, T) -> bool, x: T, a: seq<T>, b: seq<T>)
    requires AllMore(less, x, a + b)
    ensures AllMore(less, x, a) && AllMore(less, x, b)
  {
    assert forall i :: 0 <= i < |a| ==> a[i] == (a + b)[i];
    assert forall i :: 0 <= i < |b| ==> b[i] == (a + b)[|a| + i];
  }

  // ---------- ascending ----------

  /** Where an ascending iteration enters the node, nothing before is delivered, and no item from there on is
      smaller than the start. */
  lemma AscendEnter<T(!new)>(less: (T, T) -> bool, n: Node<T>, start: Option<T>, closed: bool, depth: nat, d: nat)
    requires StrictWeakOrder(less) && Sorted(less, Contents(n)) && Wf(n, depth, d)
    ensures Local(n)
    ensures var i := if start.Some? then Find(less, n.items, start.value).0 else 0;
      && Filter(AtLeast(less, start, closed), Lead(n, i)) == []
      && forall j :: i <= j < |n.items| ==> AtLeast(less, start, true)(n.items[j])
  {
    hide Contents, Lead, Part, Trail, Filter, Sorted, Find, AllMore, Wf;
    WfNow(n, depth, d);
    if start.Some? {
      RowFind(less, n, start.value, depth, d);
      FilterNone(AtLeast(less, start, closed), Lead(n, Find(less, n.items, start.value).0));
    } else {
      Row(n, 0);
      FilterEmpty(AtLeast(less, start, closed));
    }
  }

  /** Behind an item that is not smaller than the start all are greater. */
  lemma AllGreater<T(!new)>(less: (T, T) -> bool, a: seq<T>, b: seq<T>, start: T)
    requires StrictWeakOrder(less) && Sorted(less, a + b) && Filter(AtLeast(less, Some(start), true), a) != []
    ensures AllMore(less, start, b)
  {
    hide Filter, StrictWeakOrder, Sorted;
    var p := AtLeast(less, Some(start), true);
    var x := Filter(p, a)[0];
    FilterIn(p, a, x);
    var i :| 0 <= i < |a| && a[i] == x;
    forall j | 0 <= j < |b| ensures less(start, b[j]) {
      Behind(less, a + b, i, |a| + j, start);
      assert (a + b)[|a| + j] == b[j];
    }
  }

  lemma Behind<T(!new)>(less: (T, T) -> bool, s: seq<T>, i: nat, j: nat, start: T)
    requires StrictWeakOrder(less) && Sorted(less, s) && i < j < |s| && !less(s[i], start)
    ensures less(start, s[j])
  {
  }

  lemma FilterMore<T(!new)>(less: (T, T) -> bool, start: T, closed: bool, s: seq<T>)
    requires StrictWeakOrder(less) && AllMore(less, start, s)
    ensures Filter(AtLeast(less, Some(start), closed), s) == s
  {
    hide Filter;
    FilterAll(AtLeast(less, Some(start), closed), s);
  }

  /** Once an item was visited it makes no difference whether the start is included. */
  lemma AscendPart<T(!new)>(less: (T, T) -> bool, n: Node<T>, start: Option<T>, closed: bool, closed': bool, i: nat)
    requires StrictWeakOrder(less) && Sorted(less, Contents(n)) && Local(n) && i <= |n.items|
    requires closed == closed' || Filter(AtLeast(less, start, true), Lead(n, i)) != []
    ensures Filter(AtLeast(less, start, closed), Part(n, i)) == Filter(AtLeast(less, start, closed'), Part(n, i))
  {
    hide Contents, Lead, Part, Trail, Filter, Sorted, StrictWeakOrder, AllMore;
    if closed != closed' {
      var a, b, c := Lead(n, i), Part(n, i), Trail(n, i);
      Row(n, i);
      if start.Some? {
        Assoc(a, b, c);
        AllGreater(less, a, b + c, start.value);
        AllMoreParts(less, start.value, b, c);
        FilterMore(less, start.value, closed, b);
        FilterMore(less, start.value, closed', b);
      } else {
        FilterAll(AtLeast(less, start, closed), b);
        FilterAll(AtLeast(less, start, closed'), b);
      }
    }
  }

  lemma AscendItem<T(!new)>(less: (T, T) -> bool, n: Node<T>, start: T, i: nat)
    requires StrictWeakOrder(less) && Sorted(less, Contents(n)) && Local(n) && i < |n.items|
    requires var p := AtLeast(less, Some(start), true); Filter(p, Lead(n, i)) + Filter(p, Part(n, i)) != []
    ensures less(start, n.items[i])
  {
    hide Contents, Lead, Part, Trail, Filter, Sorted, StrictWeakOrder;
    var a, b, c := Lead(n, i), Part(n, i), Trail(n, i);
    Row(n, i);
    FilterConcat(AtLeast(less, Some(start), true), a, b);
    AllGreater(less, a + b, c, start);
    assert c[0] == n.items[i];
  }

  /** One round of the ascending loop: child `i`, then item `i`. */
  lemma FrontStep<T>(inRange: T -> bool, keep: (seq<T>, T) -> bool, acc0: seq<T>, p: T -> bool, n: Node<T>, i: nat, acc: seq<T>)
    requires Local(n) && i < |n.items| && Walk(inRange, keep, acc0, Filter(p, Lead(n, i))) == (acc, true)
    ensures var r := Walk(inRange, keep, acc, Filter(p, Part(n, i)));
      if !r.1 then Walk(inRange, keep, acc0, Filter(p, Contents(n))) == r
      else
        var q := Walk(inRange, keep, r.0, Filter(p, [n.items[i]]));
        && Walk(inRange, keep, acc0, Filter(p, Lead(n, i + 1))) == q
        && (!q.1 ==> Walk(inRange, keep, acc0, Filter(p, Contents(n))) == q)
  {
    hide Contents, Lead, Part, Trail, Walk, Filter;
    var done, part := Filter(p, Lead(n, i)), Filter(p, Part(n, i));
    FilterRow(p, n, i);
    FilterRow(p, n, i + 1);
    WalkOn(inRange, keep, acc0, done, part);
    WalkOn(inRange, keep, acc0, done + part, Filter(p, Trail(n, i)));
    WalkOn(inRange, keep, acc0, done + part, Filter(p, [n.items[i]]));
    WalkOn(inRange, keep, acc0, Filter(p, Lead(n, i + 1)), Filter(p, Part(n, i + 1)) + Filter(p, Trail(n, i + 1)));
    Assoc(Filter(p, Lead(n, i + 1)), Filter(p, Part(n, i + 1)), Filter(p, Trail(n, i + 1)));
  }

  /** `iterate` with direction ascend.  `keep(acc, x)` is the callback's answer to `x` after `acc`.  An item that is
      equivalent to the start is left out only if it is the first that is visited. */
  method Ascend<T(!new)>(less: (T, T) -> bool, n: Node<T>, start: Option<T>, stop: Option<T>, includeStart: bool, hit0: bool,
                         keep: (seq<T>, T) -> bool, acc0: seq<T>, ghost depth: nat, ghost d: nat)
    returns (hit: bool, ok: bool, acc: seq<T>)
    requires StrictWeakOrder(less) && Sorted(less, Contents(n)) && Wf(n, depth, d)
    ensures (acc, ok) == Walk(LessThan(less, stop), keep, acc0, Filter(AtLeast(less, start, includeStart || hit0), Contents(n)))
    ensures ok ==> (hit <==> hit0 || Filter(AtLeast(less, start, true), Contents(n)) != [])
    decreases depth
  {
    hide Contents, Lead, Part, Trail, Filter, Sorted, StrictWeakOrder, Find, Wf, Walk;
    ghost var below, wide := LessThan(less, stop), AtLeast(less, start, true);
    ghost var from := AtLeast(less, start, includeStart || hit0);
    WfNow(n, depth, d);
    AscendEnter(less, n, start, includeStart || hit0, depth, d);
    AscendEnter(less, n, start, true, depth, d);
    hit, acc := hit0, acc0;
    var index := 0;
    if start.Some? {
      index := Find(less, n.items, start.value).0;
    }
    WalkNothing(below, keep, acc0);
    for i := index to |n.items|
      invariant Walk(below, keep, acc0, Filter(from, Lead(n, i))) == (acc, true)
      invariant hit <==> hit0 || Filter(wide, Lead(n, i)) != []
    {
      var x := n.items[i];
      FrontStep(below, keep, acc0, from, n, i, acc);
      FilterRow(wide, n, i);
      FilterOne(wide, x);
      FilterOne(from, x);
      PartNothing(below, from, keep, acc, n, i);
      PartNothing(below, wide, keep, acc, n, i);
      if |n.children| > 0 {
        PartIsChild(n, i, depth, d);
        ChildSorted(less, n, i);
        AscendPart(less, n, start, includeStart || hit0, includeStart || hit, i);
        hit, ok, acc := Ascend(less, n.children[i], start, stop, includeStart, hit, keep, acc, depth - 1, d);
        if !ok {
          return hit, false, acc;
        }
      }
      if start.Some? && Filter(wide, Lead(n, i)) + Filter(wide, Part(n, i)) != [] { AscendItem(less, n, start.value, i); }
      WalkNothing(below, keep, acc);
      if !includeStart && !hit && start.Some? && !less(start.value, x) {
        hit := true;
        continue;
      }
      hit := true;
      if start.Some? { Asymmetric(less, start.value, x); }
      WalkOne(below, keep, acc, x);
      if stop.Some? && !less(x, stop.value) {
        return hit, false, acc;
      }
      if !keep(acc, x) {
        return hit, false, acc + [x];
      }
      acc := acc + [x];
    }
    FilterEnds(from, n);
    FilterEnds(wide, n);
    WalkOn(below, keep, acc0, Filter(from, Lead(n, |n.items|)), Filter(from, Part(n, |n.items|)));
    PartNothing(below, from, keep, acc, n, |n.items|);
    PartNothing(below, wide, keep, acc, n, |n.items|);
    ok := true;
    if |n.children| > 0 {
      PartIsChild(n, |n.items|, depth, d);
      ChildSorted(less, n, |n.items|);
      AscendPart(less, n, start, includeStart || hit0, includeStart || hit, |n.items|);
      hit, ok, acc := Ascend(less, n.children[|n.children|-1], start, stop, includeStart, hit, keep, acc, depth - 1, d);
      if !ok {
        return hit, false, acc;
      }
    }
  }

  lemma Asymmetric<T(!new)>(less: (T, T) -> bool, x: T, y: T)
    requires StrictWeakOrder(less)
    ensures less(x, y) ==> !less(y, x)
  {
  }

  // ---------- descending ----------

  /** Where a descending iteration enters the node, nothing behind is delivered, and every item of the
      node up to there is. */
  lemma DescendEnter<T(!new)>(less: (T, T) -> bool, n: Node<T>, start: Option<T>, closed: bool, depth: nat, d: nat)
    requires StrictWeakOrder(less) && Sorted(less, Contents(n)) && Wf(n, depth, d)
    ensures Local(n)
    ensures var index := DescendIndex(less, n, start);
      && Filter(AtMost(less, start, closed), Trail(n, index + 1)) == []
      && (forall j :: 0 <= j <= index ==> AtMost(less, start, true)(n.items[j]))
      && (forall j :: 0 <= j < index ==> start.Some? ==> less(n.items[j], start.value))
      && (start.Some? && 0 <= index && !less(n.items[index], start.value) ==>
            Filter(AtMost(less, start, closed), Part(n, index + 1)) == [])
  {
    hide Contents, Lead, Part, Trail, Filter, Sorted, Find, Wf;
    WfNow(n, depth, d);
    Row(n, |n.items|);
    FilterEmpty(AtMost(less, start, closed));
    if start.Some? {
      RowFind(less, n, start.value, depth, d);
      var (i, found) := Find(less, n.items, start.value);
      FilterNone(AtMost(less, start, closed), Trail(n, if found then i + 1 else i));
      if found {
        FilterNone(AtMost(less, start, closed), Part(n, i + 1));
      }
    }
  }

  function DescendIndex<T>(less: (T, T) -> bool, n: Node<T>, start: Option<T>): (r: int)
    ensures -1 <= r < |n.items|
  {
    if start.None? then |n.items| - 1
    else var (i, found) := Find(less, n.items, start.value); if found then i else i - 1
  }

  ghost function Back<T>(p: T -> bool, s: seq<T>): seq<T> {
    Reverse(Filter(p, s))
  }

  lemma BackRow<T>(p: T -> bool, n: Node<T>, i: nat)
    requires Local(n) && i <= |n.items|
    ensures Back(p, Contents(n)) == (Back(p, Trail(n, i)) + Back(p, Part(n, i))) + Back(p, Lead(n, i))
    ensures i < |n.items| ==>
      Back(p, Trail(n, i)) == Back(p, Trail(n, i + 1)) + Back(p, Part(n, i + 1)) + Back(p, [n.items[i]])
    ensures Back(p, Contents(n)) == Back(p, Trail(n, 0)) + Back(p, Part(n, 0))
  {
    hide Contents, Lead, Part, Trail, Filter, Reverse;
    FilterRow(p, n, i);
    FilterEnds(p, n);
    ReverseConcat(Filter(p, Lead(n, i)) + Filter(p, Part(n, i)), Filter(p, Trail(n, i)));
    ReverseConcat(Filter(p, Lead(n, i)), Filter(p, Part(n, i)));
    Assoc(Back(p, Trail(n, i)), Back(p, Part(n, i)), Back(p, Lead(n, i)));
    ReverseConcat(Filter(p, Part(n, 0)), Filter(p, Trail(n, 0)));
    if i < |n.items| {
      ReverseConcat(Filter(p, [n.items[i]]) + Filter(p, Part(n, i + 1)), Filter(p, Trail(n, i + 1)));
      ReverseConcat(Filter(p, [n.items[i]]), Filter(p, Part(n, i + 1)));
      Assoc(Back(p, Trail(n, i + 1)), Back(p, Part(n, i + 1)), Back(p, [n.items[i]]));
    }
  }

  lemma BackOne<T>(p: T -> bool, x: T)
    ensures Back(p, [x]) == if p(x) then [x] else []
  {
    hide Filter;
    FilterOne(p, x);
    assert Reverse([x]) == [x];
  }

  lemma {:induction false} PartBelow<T>(less: (T, T) -> bool, n: Node<T>, j: nat, i: nat, x: T)
    requires Local(n) && j < i <= |n.items| && AllLess(less, Lead(n, i), x)
    ensures AllLess(less, Part(n, j), x)
  {
    hide Contents, Lead, Part, Trail, AllLess;
    Row(n, i - 1);
    AllLessParts(less, Lead(n, i - 1) + Part(n, i - 1), [n.items[i-1]], x);
    AllLessParts(less, Lead(n, i - 1), Part(n, i - 1), x);
    if j < i - 1 { PartBelow(less, n, j, i - 1, x); }
  }

  /** Everything below an item that is delivered is smaller than the start. */
  lemma DescendBelow<T(!new)>(less: (T, T) -> bool, n: Node<T>, start: Option<T>, j: nat, depth: nat, d: nat)
    requires StrictWeakOrder(less) && Sorted(less, Contents(n)) && Wf(n, depth, d)
    requires start.Some? && j <= DescendIndex(less, n, start)
    ensures Local(n) && AllLess(less, Part(n, j), start.value)
  {
    hide Contents, Lead, Part, Trail, Filter, Sorted, StrictWeakOrder, Find, Wf, AllLess, AllMore, IsFind;
    WfNow(n, depth, d);
    RowFind(less, n, start.value, depth, d);
    var (i, found) := Find(less, n.items, start.value);
    if j < i { PartBelow(less, n, j, i, start.value); }
  }

  /** Below the entry it makes no difference whether the start is included. */
  lemma DescendPart<T(!new)>(less: (T, T) -> bool, n: Node<T>, start: Option<T>, closed: bool, closed': bool, j: nat, depth: nat, d: nat)
    requires StrictWeakOrder(less) && Sorted(less, Contents(n)) && Wf(n, depth, d) && Local(n) && j <= |n.items|
    requires closed == closed' || j <= DescendIndex(less, n, start)
    ensures Back(AtMost(less, start, closed), Part(n, j)) == Back(AtMost(less, start, closed'), Part(n, j))
  {
    hide Contents, Part, Sorted, Find, Wf, DescendIndex, Filter, Reverse;
    if closed != closed' {
      if start.Some? { DescendBelow(less, n, start, j, depth, d); }
      FilterAll(AtMost(less, start, closed), Part(n, j));
      FilterAll(AtMost(less, start, closed'), Part(n, j));
    }
  }

  lemma BackNothing<T>(inRange: T -> bool, keep: (seq<T>, T) -> bool, acc: seq<T>, p: T -> bool, s: seq<T>)
    requires Filter(p, s) == []
    ensures Walk(inRange, keep, acc, Back(p, s)) == (acc, true)
  {
  }

  lemma PartNothingBack<T>(inRange: T -> bool, p: T -> bool, keep: (seq<T>, T) -> bool, acc: seq<T>, n: Node<T>, i: nat)
    requires Local(n) && i <= |n.items|
    ensures n.children == [] ==> Walk(inRange, keep, acc, Back(p, Part(n, i))) == (acc, true)
  {
  }

  lemma WalkGrows<T>(inRange: T -> bool, keep: (seq<T>, T) -> bool, acc: seq<T>, s: seq<T>)
    ensures |Walk(inRange, keep, acc, s).0| >= |acc|
    decreases |s|
  {
  }

  lemma DescendRange<T>(less: (T, T) -> bool, n: Node<T>, start: Option<T>)
    ensures -1 <= DescendIndex(less, n, start) < |n.items|
  {
  }

  lemma DescendInit<T(!new)>(less: (T, T) -> bool, n: Node<T>, start: Option<T>, closed: bool, inRange: T -> bool,
                             keep: (seq<T>, T) -> bool, acc: seq<T>, depth: nat, d: nat)
    requires StrictWeakOrder(less) && Sorted(less, Contents(n)) && Wf(n, depth, d)
    ensures Local(n) && Walk(inRange, keep, acc, Back(AtMost(less, start, closed), Trail(n, DescendIndex(less, n, start) + 1))) == (acc, true)
  {
    hide Contents, Trail, Lead, Part, Sorted, StrictWeakOrder, Find, Wf, Walk, Back, Filter, DescendIndex;
    DescendEnter(less, n, start, closed, depth, d);
    BackNothing(inRange, keep, acc, AtMost(less, start, closed), Trail(n, DescendIndex(less, n, start) + 1));
  }

  /** Only the first item visited can be equivalent to the start, and then what is between it and the end is greater. */
  lemma DescendItem<T(!new)>(less: (T, T) -> bool, n: Node<T>, start: Option<T>, closed: bool, i: nat, depth: nat, d: nat)
    requires StrictWeakOrder(less) && Sorted(less, Contents(n)) && Wf(n, depth, d)
    requires i <= DescendIndex(less, n, start)
    ensures Local(n)
    ensures start.None? || !less(start.value, n.items[i])
    ensures start.Some? && !less(n.items[i], start.value) ==>
      i == DescendIndex(less, n, start) && Back(AtMost(less, start, closed), Part(n, i + 1)) == []
  {
    hide Contents, Trail, Lead, Part, Sorted, StrictWeakOrder, Find, Wf, Filter;
    DescendEnter(less, n, start, closed, depth, d);
  }

  /** One round of the descending loop: child `i + 1`, then item `i`. */
  lemma BackStep<T>(inRange: T -> bool, keep: (seq<T>, T) -> bool, acc0: seq<T>, p: T -> bool, n: Node<T>, i: nat, acc: seq<T>)
    requires Local(n) && i < |n.items| && Walk(inRange, keep, acc0, Back(p, Trail(n, i + 1))) == (acc, true)
    ensures var r := Walk(inRange, keep, acc, Back(p, Part(n, i + 1)));
      if !r.1 then Walk(inRange, keep, acc0, Back(p, Contents(n))) == r
      else
        var q := Walk(inRange, keep, r.0, Back(p, [n.items[i]]));
        && Walk(inRange, keep, acc0, Back(p, Trail(n, i))) == q
        && (!q.1 ==> Walk(inRange, keep, acc0, Back(p, Contents(n))) == q)
  {
    hide Contents, Lead, Part, Trail, Walk, Back;
    var done, part := Back(p, Trail(n, i + 1)), Back(p, Part(n, i + 1));
    BackRow(p, n, i);
    BackRow(p, n, i + 1);
    WalkOn(inRange, keep, acc0, done, part);
    WalkOn(inRange, keep, acc0, done + part, Back(p, Lead(n, i + 1)));
    WalkOn(inRange, keep, acc0, done + part, Back(p, [n.items[i]]));
    WalkOn(inRange, keep, acc0, Back(p, Trail(n, i)), Back(p, Part(n, i)) + Back(p, Lead(n, i)));
    Assoc(Back(p, Trail(n, i)), Back(p, Part(n, i)), Back(p, Lead(n, i)));
  }

  /** `iterate` with direction descend.  An item that is equivalent to the start is delivered only if it is to be
      included and nothing was delivered before. */
  method Descend<T(!new)>(less: (T, T) -> bool, n: Node<T>, start: Option<T>, stop: Option<T>, includeStart: bool, hit0: bool,
                          keep: (seq<T>, T) -> bool, acc0: seq<T>, ghost depth: nat, ghost d: nat)
    returns (hit: bool, ok: bool, acc: seq<T>)
    requires StrictWeakOrder(less) && Sorted(less, Contents(n)) && Wf(n, depth, d)
    ensures (acc, ok) == Walk(GreaterThan(less, stop), keep, acc0, Back(AtMost(less, start, includeStart && !hit0), Contents(n)))
    ensures hit <==> hit0 || |acc| > |acc0|
    decreases depth
  {
    hide Contents, Lead, Part, Trail, Sorted, StrictWeakOrder, Find, Wf, Walk, Back, Filter, Reverse, DescendIndex;
    ghost var closed := includeStart && !hit0;
    ghost var above, upto := GreaterThan(less, stop), AtMost(less, start, closed);
    WfNow(n, depth, d);
    hit, acc := hit0, acc0;
    var index := DescendIndex(less, n, start);
    DescendRange(less, n, start);
    DescendInit(less, n, start, closed, above, keep, acc0, depth, d);
    var i := index;
    while i >= 0
      invariant -1 <= i <= index
      invariant Walk(above, keep, acc0, Back(upto, Trail(n, i + 1))) == (acc, true)
      invariant (hit <==> hit0 || |acc| > |acc0|) && |acc| >= |acc0|
      invariant i == index ==> hit == hit0
    {
      var x := n.items[i];
      DescendItem(less, n, start, closed, i, depth, d);
      BackStep(above, keep, acc0, upto, n, i, acc);
      BackOne(upto, x);
      if start.Some? && !less(x, start.value) && (!includeStart || hit || less(start.value, x)) {
        WalkNothing(above, keep, acc);
      } else {
        ghost var part := Back(upto, Part(n, i + 1));
        PartNothingBack(above, upto, keep, acc, n, i + 1);
        ghost var was := acc;
        if |n.children| > 0 {
          PartIsChild(n, i + 1, depth, d);
          ChildSorted(less, n, i + 1);
          DescendPart(less, n, start, closed, includeStart && !hit, i + 1, depth, d);
          hit, ok, acc := Descend(less, n.children[i+1], start, stop, includeStart, hit, keep, acc, depth - 1, d);
          WalkGrows(above, keep, was, part);
          if !ok {
            return hit, false, acc;
          }
        }
        WalkOne(above, keep, acc, x);
        if stop.Some? && !less(stop.value, x) {
          return hit, false, acc;
        }
        hit := true;
        if !keep(acc, x) {
          return hit, false, acc + [x];
        }
        acc := acc + [x];
      }
      i := i - 1;
    }
    BackRow(upto, n, 0);
    WalkOn(above, keep, acc0, Back(upto, Trail(n, 0)), Back(upto, Part(n, 0)));
    PartNothingBack(above, upto, keep, acc, n, 0);
    ok := true;
    if |n.children| > 0 {
      ghost var was := acc;
      PartIsChild(n, 0, depth, d);
      ChildSorted(less, n, 0);
      DescendPart(less, n, start, closed, includeStart && !hit, 0, depth, d);
      hit, ok, acc := Descend(less, n.children[0], start, stop, includeStart, hit, keep, acc, depth - 1, d);
      WalkGrows(above, keep, was, Back(upto, Part(n, 0)));
      if !ok {
        return hit, false, acc;
      }
    }
  }

  lemma WalkNothing<T>(inRange: T -> bool, keep: (seq<T>, T) -> bool, acc: seq<T>)
    ensures Walk(inRange, keep, acc, []) == (acc, true)
  {
  }

  lemma PartNothing<T>(inRange: T -> bool, p: T -> bool, keep: (seq<T>, T) -> bool, acc: seq<T>, n: Node<T>, i: nat)
    requires Local(n) && i <= |n.items|
    ensures n.children == [] ==> Filter(p, Part(n, i)) == [] && Walk(inRange, keep, acc, Filter(p, Part(n, i))) == (acc, true)
  {
  }

  lemma PartIsChild<T>(n: Node<T>, i: nat, depth: nat, d: nat)
    requires Wf(n, depth, d) && n.children != [] && i <= |n.items| && Local(n)
    ensures depth > 0 && Part(n, i) == Contents(n.children[i]) && Wf(n.children[i], depth - 1, d)
  {
    hide Contents, Wf;
    WfNow(n, depth, d);
    WfChild(n, depth, d);
  }

  // ---------- the public iterations ----------

  /** Without an upper bound every item is in range. */
  function Anything<T>(): T -> bool {
    x => true
  }

  lemma {:induction false} WalkUnbounded<T>(inRange: T -> bool, keep: (seq<T>, T) -> bool, acc: seq<T>, s: seq<T>)
    requires forall i :: 0 <= i < |s| ==> inRange(s[i])
    ensures Walk(inRange, keep, acc, s) == Walk(Anything(), keep, acc, s)
    decreases |s|
  {
    if s != [] { WalkUnbounded(inRange, keep, acc + [s[0]], s[1..]); }
  }

  /** Delivers the items from `pivot` on, in order, until the callback returns false. */
  method AscendGreaterOrEqual<T(!new)>(less: (T, T) -> bool, t: Tree<T>, pivot: T, keep: (seq<T>, T) -> bool) returns (acc: seq<T>, ok: bool)
    requires StrictWeakOrder(less) && Valid(less, t)
    ensures (acc, ok) == Walk(Anything(), keep, [], Items(t)[Find(less, Items(t), pivot).0..])
  {
    hide Contents, Sorted, StrictWeakOrder, Find, Wf, Walk, Filter;
    acc, ok := [], true;
    AtLeastIsSuffix(less, pivot, Items(t));
    WalkUnbounded(LessThan(less, None), keep, [], Items(t)[Find(less, Items(t), pivot).0..]);
    if t.root.Some? {
      var hit;
      hit, ok, acc := Ascend(less, t.root.value, Some(pivot), None, true, false, keep, [], Height(t.root.value), t.degree);
    } else {
      WalkNothing(Anything(), keep, []);
    }
  }

  /** Delivers the items up to `pivot`, in descending order, until the callback returns false. */
  method DescendLessOrEqual<T(!new)>(less: (T, T) -> bool, t: Tree<T>, pivot: T, keep: (seq<T>, T) -> bool) returns (acc: seq<T>, ok: bool)
    requires StrictWeakOrder(less) && Valid(less, t)
    ensures var (p, found) := Find(less, Items(t), pivot);
      (acc, ok) == Walk(Anything(), keep, [], Reverse(Items(t)[..if found then p + 1 else p]))
  {
    hide Contents, Sorted, StrictWeakOrder, Find, Wf, Walk, Filter, Reverse;
    acc, ok := [], true;
    AtMostIsPrefix(less, pivot, Items(t));
    ghost var (p, found) := Find(less, Items(t), pivot);
    WalkUnbounded(GreaterThan(less, None), keep, [], Reverse(Items(t)[..if found then p + 1 else p]));
    if t.root.Some? {
      var hit;
      hit, ok, acc := Descend(less, t.root.value, Some(pivot), None, true, false, keep, [], Height(t.root.value), t.degree);
    } else {
      ReverseNothing<T>();
      WalkNothing(Anything(), keep, []);
    }
  }

  lemma ReverseNothing<T>()
    ensures Reverse<T>([]) == []
  {
  }

  /** Delivers the items in [from, to), in order, until the callback returns false. */
  method AscendRange<T(!new)>(less: (T, T) -> bool, t: Tree<T>, from: T, to: T, keep: (seq<T>, T) -> bool) returns (acc: seq<T>, ok: bool)
    requires StrictWeakOrder(less) && Valid(less, t)
    ensures (acc, ok) == Walk(LessThan(less, Some(to)), keep, [], Items(t)[Find(less, Items(t), from).0..])
  {
    hide Contents, Sorted, StrictWeakOrder, Find, Wf, Walk, Filter;
    acc, ok := [], true;
    AtLeastIsSuffix(less, from, Items(t));
    if t.root.Some? {
      var hit;
      hit, ok, acc := Ascend(less, t.root.value, Some(from), Some(to), true, false, keep, [], Height(t.root.value), t.degree);
    } else {
      WalkNothing(LessThan(less, Some(to)), keep, []);
    }
  }
}
