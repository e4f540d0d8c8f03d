/** server/core/region_tree.go: the tree of regions ordered by start key. Each operation is proved against what
    it does to the row of regions in key order. */
module RegionTree {
  import opened SortedSeq
  import opened Bytes
  import opened Regions
  import opened BTree
  import opened BTreeNode
  import opened BTreeRemove
  import opened BTreeQuery
  import opened BTreeIterate

  const DEFAULT_BTREE_DEGREE := 64

  ghost predicate TreeOk(t: Tree<Region>) {
    Valid(ByStart, t) && RangesOk(Items(t))
  }

  function NewTree(): (t: Tree<Region>)
    ensures TreeOk(t) && Items(t) == []
  {
    New(DEFAULT_BTREE_DEGREE)
  }

  /** A callback that stops at once. */
  function StopNow(): (seq<Region>, Region) -> bool {
    (acc, x) => false
  }

  lemma FirstDelivered(s: seq<Region>)
    ensures Stopped(StopNow(), s) == if s == [] then ([], true) else ([s[0]], false)
  {
    assert s != [] ==> s[..1] == [s[0]];
  }

  /** `find`: the region that contains the key. */
  method FindRegion(t: Tree<Region>, key: Bytes) returns (r: Option<Region>)
    requires TreeOk(t)
    ensures r == FindIn(Items(t), key)
    ensures forall x :: x in Items(t) ==> (Contains(x, key) <==> r == Some(x))
    ensures r.Some? ==> r.value in Items(t)
  {
    hide Lt, Contains, Find, Valid, Walk, Items, RangesOk, StrictWeakOrder, Stopped, Reverse;
    ByStartOrder();
    ghost var s := Items(t);
    FindInOk(s, key);
    var acc, ok := DescendLessOrEqual(ByStart, t, Probe(key), StopNow());
    ghost var q := StartsUpTo(s, key);
    WalkStopped(Anything<Region>(), StopNow(), Reverse(s[..q]));
    FirstDelivered(Reverse(s[..q]));
    ReverseFirst(s[..q]);
    if acc == [] || !Contains(acc[0], key) { return None; }
    return Some(acc[0]);
  }

  lemma ReverseFirst(s: seq<Region>)
    ensures |Reverse(s)| == |s|
    ensures s != [] ==> Reverse(s)[0] == s[|s| - 1]
  {
  }

  /** `getOverlaps`: the regions that meet the range of `region`, in key order. */
  method GetOverlaps(t: Tree<Region>, region: Region) returns (r: seq<Region>)
    requires TreeOk(t)
    ensures r == Overlaps(Items(t), region.start, region.end)
    ensures r == Filter(x => Meets(x, region.start, region.end), Items(t))
  {
    hide Lt, Contains, Find, Valid, Walk, Items, RangesOk, StrictWeakOrder, Filter, Overlaps, FindIn;
    ByStartOrder();
    ghost var s := Items(t);
    OverlapsAre(s, region.start, region.end);
    OverlapStop(s, region.start, region.end);
    var x := FindRegion(t, region.start);
    SameStart(s, region);
    var acc, ok := AscendGreaterOrEqual(ByStart, t, if x.Some? then x.value else region, Overlapping(region.end));
    WalkStopped(Anything<Region>(), Overlapping(region.end), s[Lo(s, region.start)..]);
    r := if ok then acc else acc[..|acc| - 1];
  }

  lemma SameStart(s: seq<Region>, region: Region)
    ensures Find(ByStart, s, region) == Find(ByStart, s, Probe(region.start))
  {
    SameUpperBound(s, region);
  }

  lemma {:induction false} SameUpperBound(s: seq<Region>, region: Region)
    ensures UpperBound(ByStart, s, region) == UpperBound(ByStart, s, Probe(region.start))
  {
    hide Lt;
    if s != [] { SameUpperBound(s[..|s| - 1], region); }
  }

  // ---------- update and remove ----------

  /** Deleting the first remaining overlap. */
  lemma DeleteOverlap(s: seq<Region>, lo: nat, k: nat)
    requires RangesOk(s) && lo <= k < |s|
    ensures Del(ByStart, s[..lo] + s[k..], s[k]) == s[..lo] + s[k+1..]
  {
    hide Lt, Find, RangesOk;
    WithoutMiddle(s, lo, k);
    var t := s[..lo] + s[k..];
    SortedOf(t);
    assert t[lo] == s[k];
    SelfFind(t, lo);
    assert DelAt(t, lo) == s[..lo] + s[k+1..];
  }

  lemma SortedOf(s: seq<Region>)
    requires RangesOk(s)
    ensures Sorted(ByStart, s)
  {
  }

  /** With the overlaps gone the region goes between its neighbours. */
  lemma PutBetween(s: seq<Region>, r: Region)
    requires RangesOk(s) && WellFormed(r)
    ensures Lo(s, r.start) <= Hi(s, r.end) <= |s|
    ensures Put(ByStart, s[..Lo(s, r.start)] + s[Hi(s, r.end)..], r) == Updated(s, r)
  {
    hide Lt, Find, RangesOk, Lo, Hi, Clear, WellFormed, PutAt;
    LoHi(s, r);
    var lo, hi := Lo(s, r.start), Hi(s, r.end);
    WithoutMiddle(s, lo, hi);
    SortedOf(s[..lo] + s[hi..]);
    Sides(s, r);
    FindBetween(s[..lo], r, s[hi..]);
    PutInMiddle(s[..lo], s[hi..], r);
  }

  lemma PutInMiddle(a: seq<Region>, b: seq<Region>, r: Region)
    ensures PutAt(a + b, |a|, false, r) == a + [r] + b
  {
  }

  lemma FindBetween(a: seq<Region>, r: Region, b: seq<Region>)
    requires RangesOk(a + b) && WellFormed(r)
    requires forall i :: 0 <= i < |a| ==> Clear(a[i], r)
    requires forall i :: 0 <= i < |b| ==> Clear(r, b[i])
    ensures Find(ByStart, a + b, r) == (|a|, false)
  {
    hide Lt, Find;
    LtOrder();
    ByStartOrder();
    var c := a + b;
    forall i | 0 <= i < |c| ensures (ByStart(c[i], r) <==> i < |a|) && (ByStart(r, c[i]) <==> |a| <= i) {
      assert WellFormed(c[i]);
      if i < |a| { assert Clear(a[i], r); } else { assert Clear(r, b[i - |a|]); }
    }
    FindUnique(ByStart, c, r, (|a|, false));
  }

  /** `update`: deletes the regions overlapping `region` and inserts it. */
  method Update(t: Tree<Region>, region: Region) returns (t': Tree<Region>, overlaps: seq<Region>)
    requires TreeOk(t) && WellFormed(region)
    ensures Lo(Items(t), region.start) <= Hi(Items(t), region.end) <= |Items(t)|
    ensures TreeOk(t') && Items(t') == Updated(Items(t), region)
    ensures overlaps == Overlaps(Items(t), region.start, region.end)
  {
    hide Lt, Find, Valid, Items, RangesOk, StrictWeakOrder, Lo, Hi, Put, Del;
    ByStartOrder();
    ghost var s := Items(t);
    ghost var lo, hi := Lo(s, region.start), Hi(s, region.end);
    UpdatedOk(s, region);
    overlaps := GetOverlaps(t, region);
    t' := t;
    assert s[..lo] + s[lo..] == s;
    for i := 0 to |overlaps|
      invariant Valid(ByStart, t') && Items(t') == s[..lo] + s[lo + i..]
    {
      DeleteOverlap(s, lo, lo + i);
      DeleteIs(t', overlaps[i]);
      t' := DeleteItem(ByStart, t', Item(overlaps[i])).0;
    }
    PutBetween(s, region);
    ReplaceOrInsertOk(ByStart, t', region);
    t' := ReplaceOrInsert(ByStart, t', region).0;
  }

  lemma DeleteIs(t: Tree<Region>, x: Region)
    requires Valid(ByStart, t)
    ensures var t' := DeleteItem(ByStart, t, Item(x)).0;
      Valid(ByStart, t') && Items(t') == Del(ByStart, Items(t), x)
  {
    hide Lt, Valid, StrictWeakOrder, Items, Del;
    ByStartOrder();
    DeleteItemOk(ByStart, t, Item(x));
    DelNothing(x);
  }

  lemma DelNothing(x: Region)
    ensures Del(ByStart, [], x) == []
  {
  }

  /** `remove`: takes out the region found at the start key, if it has the id. */
  method RemoveFrom(t: Tree<Region>, region: Region) returns (t': Tree<Region>)
    requires TreeOk(t)
    ensures TreeOk(t') && Items(t') == Without(Items(t), region)
  {
    hide Lt, Find, Valid, Items, RangesOk, StrictWeakOrder, Del, FindIn, DelAt, StartsUpTo;
    ghost var s := Items(t);
    LengthIs(t);
    t' := t;
    NothingFound(region.start);
    if t.length == 0 { return; }
    var x := FindRegion(t, region.start);
    if x.None? || x.value.id != region.id { return; }
    DeleteFound(s, region.start);
    DeleteIs(t, x.value);
    t' := DeleteItem(ByStart, t, Item(x.value)).0;
  }

  lemma LengthIs(t: Tree<Region>)
    requires Valid(ByStart, t)
    ensures t.length == |Items(t)|
  {
  }

  lemma NothingFound(key: Bytes)
    ensures FindIn([], key) == None
  {
  }

  lemma DeleteFound(s: seq<Region>, key: Bytes)
    requires RangesOk(s) && FindIn(s, key).Some?
    ensures 0 < StartsUpTo(s, key) <= |s|
    ensures Del(ByStart, s, FindIn(s, key).value) == DelAt(s, StartsUpTo(s, key) - 1)
    ensures RangesOk(DelAt(s, StartsUpTo(s, key) - 1))
  {
    hide Lt, Find, RangesOk, DelAt, Contains;
    FindInOk(s, key);
    StartsUpToBound(s, key);
    SortedOf(s);
    SelfFind(s, StartsUpTo(s, key) - 1);
    DelAtOk(s, StartsUpTo(s, key) - 1);
  }

  // ---------- queries ----------

  /** `search`: the region that contains the key. */
  method Search(t: Tree<Region>, key: Bytes) returns (r: Option<Region>)
    requires TreeOk(t)
    ensures forall x :: x in Items(t) ==> (Contains(x, key) <==> r == Some(x))
    ensures r.Some? ==> r.value in Items(t)
  {
    r := FindRegion(t, key);
  }

  /** The callback of `getAdjacentRegions`: skips the region itself. */
  function StartsAt(key: Bytes): (seq<Region>, Region) -> bool {
    (acc: seq<Region>, x: Region) => x.start == key
  }

  /** The last region that starts before `key`, the first that starts after it. */
  function Neighbours(s: seq<Region>, key: Bytes): (Option<Region>, Option<Region>) {
    var p := Find(ByStart, s, Probe(key)).0;
    var q := StartsUpTo(s, key);
    (if 0 < p <= |s| then Some(s[p-1]) else None, if q < |s| then Some(s[q]) else None)
  }

  /** `getAdjacentRegions`. */
  method GetAdjacent(t: Tree<Region>, key: Bytes) returns (prev: Option<Region>, next: Option<Region>)
    requires TreeOk(t)
    ensures (prev, next) == Neighbours(Items(t), key)
  {
    hide Lt, Find, Valid, Items, RangesOk, StrictWeakOrder, Walk, Stopped, Reverse;
    ByStartOrder();
    ghost var s := Items(t);
    ghost var p, q := Find(ByStart, s, Probe(key)).0, StartsUpTo(s, key);
    var up, upOk := AscendGreaterOrEqual(ByStart, t, Probe(key), StartsAt(key));
    WalkStopped(Anything<Region>(), StartsAt(key), s[p..]);
    var down, downOk := DescendLessOrEqual(ByStart, t, Probe(key), StartsAt(key));
    WalkStopped(Anything<Region>(), StartsAt(key), Reverse(s[..q]));
    NextIs(s, key);
    PrevIs(s, key);
    next := if upOk then None else Some(up[|up| - 1]);
    prev := if downOk then None else Some(down[|down| - 1]);
  }

  lemma SkipOne(s: seq<Region>, key: Bytes, found: bool)
    requires forall i :: 0 <= i < |s| ==> (s[i].start == key <==> i == 0 && found)
    requires found ==> s != []
    ensures var m := if found then 1 else 0;
      Stopped(StartsAt(key), s) == if m < |s| then (s[..m+1], false) else (s, true)
  {
    var m := StopAt(StartsAt(key), s, 0);
    assert 0 < m ==> StartsAt(key)(s[..m-1], s[m-1]);
  }

  lemma NextIs(s: seq<Region>, key: Bytes)
    requires RangesOk(s)
    ensures Find(ByStart, s, Probe(key)).0 <= |s|
    ensures var (d, ok) := Stopped(StartsAt(key), s[Find(ByStart, s, Probe(key)).0..]);
      if ok then Neighbours(s, key).1 == None else d != [] && Neighbours(s, key).1 == Some(d[|d| - 1])
  {
    hide Lt, Find, StrictWeakOrder, Stopped;
    LtOrder();
    ByStartOrder();
    FindIsFind(ByStart, s, Probe(key));
    var (p, found) := Find(ByStart, s, Probe(key));
    var rest := s[p..];
    assert forall i :: 0 <= i < |rest| ==> rest[i] == s[p + i];
    SkipOne(rest, key, found);
  }

  lemma PrevIs(s: seq<Region>, key: Bytes)
    requires RangesOk(s)
    ensures StartsUpTo(s, key) <= |s|
    ensures var (d, ok) := Stopped(StartsAt(key), Reverse(s[..StartsUpTo(s, key)]));
      if ok then Neighbours(s, key).0 == None else d != [] && Neighbours(s, key).0 == Some(d[|d| - 1])
  {
    hide Lt, Find, StrictWeakOrder, Stopped;
    LtOrder();
    ByStartOrder();
    FindIsFind(ByStart, s, Probe(key));
    var (p, found) := Find(ByStart, s, Probe(key));
    var q := StartsUpTo(s, key);
    var rest := Reverse(s[..q]);
    assert forall i :: 0 <= i < |rest| ==> rest[i] == s[q - 1 - i];
    SkipOne(rest, key, found);
  }

  /** The neighbours that touch a key are the regions ending there and starting there. */
  lemma TouchingPrev(s: seq<Region>, key: Bytes, x: Region)
    requires RangesOk(s)
    ensures Neighbours(s, key).0 == Some(x) && x.end == key <==> x in s && x.end == key && key != []
  {
    hide Lt, Find, StrictWeakOrder, RangesOk;
    NotFirst(s, key);
    if x in s && x.end == key && key != [] {
      var i :| 0 <= i < |s| && s[i] == x;
      EndsThere(s, key, i);
    }
  }

  lemma NotFirst(s: seq<Region>, key: Bytes)
    requires RangesOk(s)
    ensures Find(ByStart, s, Probe(key)).0 > 0 ==> key != []
  {
    hide Lt, Find, StrictWeakOrder;
    ByStartOrder();
    FindIsFind(ByStart, s, Probe(key));
    var p := Find(ByStart, s, Probe(key)).0;
    if 0 < p {
      assert ByStart(s[p-1], Probe(key));
      NothingBefore(s[p-1].start);
    }
  }

  lemma EndsThere(s: seq<Region>, key: Bytes, i: nat)
    requires RangesOk(s) && i < |s| && s[i].end == key && key != []
    ensures Find(ByStart, s, Probe(key)).0 == i + 1
  {
    hide Lt, Find, StrictWeakOrder;
    LtOrder();
    ByStartOrder();
    FindIsFind(ByStart, s, Probe(key));
    assert WellFormed(s[i]) && ByStart(s[i], Probe(key));
    assert i + 1 < |s| ==> Clear(s[i], s[i+1]);
    assert i + 1 < |s| ==> !ByStart(s[i+1], Probe(key));
  }

  lemma NothingBefore(key: Bytes)
    ensures !Lt(key, [])
  {
  }

  /** The first region that starts behind a key. */
  ghost predicate IsNext(s: seq<Region>, key: Bytes, x: Region) {
    x in s && Lt(key, x.start) && forall y :: y in s && Lt(key, y.start) ==> Le(x.start, y.start)
  }

  lemma NextIn(s: seq<Region>, key: Bytes, x: Region)
    requires IsNext(s, key, x)
    ensures x in s
  {
  }

  lemma NextStarts(s: seq<Region>, key: Bytes, x: Region)
    requires RangesOk(s)
    ensures Neighbours(s, key).1 == Some(x) <==> IsNext(s, key, x)
  {
    hide Lt, Find, StrictWeakOrder;
    LtOrder();
    StartsUpToIs(s, key);
    StartsUpToBound(s, key);
    var q := StartsUpTo(s, key);
    if q < |s| {
      forall j | 0 <= j < |s| && Lt(key, s[j].start) ensures Le(s[q].start, s[j].start) {
        assert q < j ==> ByStart(s[q], s[j]);
      }
      if IsNext(s, key, x) {
        var j :| 0 <= j < |s| && s[j] == x;
        assert s[q] in s && (q < j ==> ByStart(s[q], s[j]));
      }
    }
  }

  lemma TouchingNext(s: seq<Region>, r: Region, x: Region)
    requires RangesOk(s) && r in s
    ensures Neighbours(s, r.start).1 == Some(x) && x.start == r.end <==> x in s && x.start == r.end && r.end != []
  {
    hide Lt, Find, StrictWeakOrder;
    LtOrder();
    var i :| 0 <= i < |s| && s[i] == r;
    StartsUpToIs(s, r.start);
    StartsUpToBound(s, r.start);
    NothingBefore(r.start);
    var q := StartsUpTo(s, r.start);
    assert i < q;
    assert i + 1 < |s| ==> Lt(s[i].start, s[i+1].start);
    assert q == i + 1;
    if x in s && x.start == r.end && r.end != [] {
      var j :| 0 <= j < |s| && s[j] == x;
      assert WellFormed(s[i]);
      assert i < j;
      assert i + 1 < |s| && Clear(s[i], s[i+1]) && Le(s[i+1].start, s[j].start);
    }
  }

  /** `searchPrev`: the region that ends where the region containing the key starts. */
  method SearchPrev(t: Tree<Region>, key: Bytes) returns (r: Option<Region>)
    requires TreeOk(t)
    ensures r.Some? ==> r.value in Items(t)
    ensures forall x :: x in Items(t) ==>
      (r == Some(x) <==> exists c :: c in Items(t) && Contains(c, key) && x.end == c.start && c.start != [])
  {
    hide Lt, Find, Valid, Items, RangesOk, StrictWeakOrder, FindIn, Contains, Neighbours;
    ghost var s := Items(t);
    var cur := FindRegion(t, key);
    if cur.None? { return None; }
    var prev, next := GetAdjacent(t, cur.value.start);
    forall x ensures Neighbours(s, cur.value.start).0 == Some(x) && x.end == cur.value.start <==>
      x in s && x.end == cur.value.start && cur.value.start != []
    {
      TouchingPrev(s, cur.value.start, x);
    }
    if prev.None? || prev.value.end != cur.value.start { return None; }
    r := prev;
  }

  /** `scanRange`: what the callback is given, from the first region containing or behind the start key. */
  method ScanFrom(t: Tree<Region>, start: Bytes, keep: (seq<Region>, Region) -> bool) returns (acc: seq<Region>, ok: bool)
    requires TreeOk(t)
    ensures Lo(Items(t), start) <= |Items(t)|
    ensures (acc, ok) == Stopped(keep, Items(t)[Lo(Items(t), start)..])
  {
    hide Lt, Find, Valid, Items, RangesOk, StrictWeakOrder, FindIn, Walk, Stopped;
    ByStartOrder();
    ghost var s := Items(t);
    LoIs(s, start);
    var x := FindRegion(t, start);
    acc, ok := AscendGreaterOrEqual(ByStart, t, if x.Some? then x.value else Probe(start), keep);
    WalkStopped(Anything<Region>(), keep, s[Lo(s, start)..]);
  }

  /** `RandomRegion`; `pick` stands for the random number, a value below its bound. */
  method RandomRegion(t: Tree<Region>, start: Bytes, end: Bytes, pick: nat) returns (r: Option<Region>, bound: nat)
    requires TreeOk(t)
    ensures bound == |Overlaps(Items(t), start, end)|
    ensures bound == 0 ==> r == None
    ensures pick < bound ==> r == Some(Overlaps(Items(t), start, end)[pick])
  {
    hide Lt, Find, Valid, Items, RangesOk, StrictWeakOrder, FindIn, Contains, GetAt, GetWithIndex, Lo, Get;
    ByStartOrder();
    ghost var s := Items(t);
    LengthIs(t);
    GetMeans(s, Probe(start));
    WindowIs(s, start, end);
    WindowStart(s, start);
    if t.length == 0 { return None, 0; }
    GetWithIndexOk(ByStart, t, Probe(start));
    var (startRegion, startIndex) := GetWithIndex(ByStart, t, Probe(start));
    var endIndex := t.length;
    if end != [] {
      GetWithIndexOk(ByStart, t, Probe(end));
      endIndex := GetWithIndex(ByStart, t, Probe(end)).1;
    }
    if startIndex != 0 && startRegion.None? {
      GetAtOk(ByStart, t, startIndex - 1);
      var before := GetAt(ByStart, t, startIndex - 1);
      assert before.Some?;
      if Contains(before.value, start) { startIndex := startIndex - 1; }
    }
    if endIndex <= startIndex { return None, 0; }
    bound := endIndex - startIndex;
    GetAtOk(ByStart, t, pick + startIndex);
    r := GetAt(ByStart, t, pick + startIndex);
  }

  lemma GetMeans(s: seq<Region>, x: Region)
    ensures Get(ByStart, s, x).Some? <==> Find(ByStart, s, x).1
    ensures Find(ByStart, s, x).0 <= |s|
  {
  }

  lemma WindowStart(s: seq<Region>, start: Bytes)
    requires RangesOk(s)
    ensures var (p, found) := Find(ByStart, s, Probe(start));
      Lo(s, start) == if !found && p > 0 && Contains(s[p-1], start) then p - 1 else p
  {
    hide Lt, Find, StrictWeakOrder, Contains;
    LtOrder();
    ByStartOrder();
    LoIs(s, start);
    FindIsFind(ByStart, s, Probe(start));
    FoundContains(s, start);
  }

  /** A region that starts at the key contains it. */
  lemma FoundContains(s: seq<Region>, key: Bytes)
    requires RangesOk(s)
    ensures var (p, found) := Find(ByStart, s, Probe(key));
      (found ==> p < |s| && Contains(s[p], key) && FindIn(s, key) == Some(s[p]))
  {
    hide Lt, Find, StrictWeakOrder;
    LtOrder();
    ByStartOrder();
    FindIsFind(ByStart, s, Probe(key));
    var (p, found) := Find(ByStart, s, Probe(key));
    if found {
      assert !ByStart(s[p], Probe(key)) && !ByStart(Probe(key), s[p]);
      assert WellFormed(s[p]);
    }
  }
}
