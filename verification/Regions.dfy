/** Key ranges as server/core/region_tree.go uses them: sorted rows of disjoint regions, and what the
    queries on such a row mean in terms of the keys a region contains. */
module Regions {
  import opened SortedSeq
  import opened Bytes

  datatype Peer = Peer(id: nat, store: nat, learner: bool)

  datatype Flow = Flow(bytesWritten: nat, keysWritten: nat, bytesRead: nat, keysRead: nat)

  /** `RegionInfo`; `leader` is the leader's peer id, 0 if there is none. */
  datatype Region = Region(id: nat, start: Bytes, end: Bytes, version: nat, confVer: nat, peers: seq<Peer>,
                           leader: nat, pending: seq<Peer>, down: nat, size: int, keys: int, flow: Flow)

  /** `regionItem.Less` (region_tree.go:33-37). */
  predicate ByStart(a: Region, b: Region) {
    Lt(a.start, b.start)
  }

  /** `regionItem.Contains` (region_tree.go:39-42); an empty end key is the end of the key space. */
  predicate Contains(r: Region, key: Bytes) {
    Le(r.start, key) && (r.end == [] || Lt(key, r.end))
  }

  predicate WellFormed(r: Region) {
    r.end == [] || Lt(r.start, r.end)
  }

  /** Some key is in both. */
  ghost predicate Intersects(a: Region, b: Region) {
    exists key :: Contains(a, key) && Contains(b, key)
  }

  lemma ByStartOrder()
    ensures StrictWeakOrder(ByStart)
  {
    hide Lt;
    LtOrder();
  }

  lemma IntersectsIff(a: Region, b: Region)
    requires WellFormed(a) && WellFormed(b)
    ensures Intersects(a, b) <==> (a.end == [] || Lt(b.start, a.end)) && (b.end == [] || Lt(a.start, b.end))
  {
    hide Lt;
    LtOrder();
    if (a.end == [] || Lt(b.start, a.end)) && (b.end == [] || Lt(a.start, b.end)) {
      var key := if Lt(a.start, b.start) then b.start else a.start;
      assert Contains(a, key) && Contains(b, key);
    }
  }

  /** Ends where `b` starts, or before. */
  predicate Clear(a: Region, b: Region) {
    a.end != [] && Le(a.end, b.start)
  }

  ghost predicate Disjoint(s: seq<Region>) {
    forall i, j :: 0 <= i < j < |s| ==> Clear(s[i], s[j])
  }

  ghost predicate RangesOk(s: seq<Region>) {
    && Sorted(ByStart, s)
    && (forall i :: 0 <= i < |s| ==> WellFormed(s[i]))
    && Disjoint(s)
  }

  /** For sorted well-formed regions that is exactly that no two have a key in common. */
  lemma DisjointMeans(s: seq<Region>)
    requires Sorted(ByStart, s) && forall i :: 0 <= i < |s| ==> WellFormed(s[i])
    ensures Disjoint(s) <==> forall i, j :: 0 <= i < j < |s| ==> !Intersects(s[i], s[j])
  {
    hide Lt, Intersects, Clear, WellFormed;
    forall i, j | 0 <= i < j < |s| ensures Intersects(s[i], s[j]) <==> !Clear(s[i], s[j]) {
      ClearMeans(s[i], s[j]);
    }
  }

  lemma ClearMeans(a: Region, b: Region)
    requires ByStart(a, b) && WellFormed(a) && WellFormed(b)
    ensures Intersects(a, b) <==> !Clear(a, b)
  {
    hide Lt, Intersects;
    LtOrder();
    IntersectsIff(a, b);
  }

  // ---------- the region that contains a key ----------

  /** A region that only serves as a search key. */
  function Probe(key: Bytes): Region {
    Region(0, key, [], 0, 0, [], 0, [], 0, 0, 0, Flow(0, 0, 0, 0))
  }

  /** How many regions start at or before `key`. */
  function StartsUpTo(s: seq<Region>, key: Bytes): (q: nat)
    ensures q <= |s|
  {
    var r := Find(ByStart, s, Probe(key));
    if r.1 then r.0 + 1 else r.0
  }

  /** What `find` computes (region_tree.go:151-165): the last region starting at or before `key`, if it
      contains it. */
  function FindIn(s: seq<Region>, key: Bytes): Option<Region> {
    var q := StartsUpTo(s, key);
    if q > 0 && Contains(s[q-1], key) then Some(s[q-1]) else None
  }

  lemma StartsUpToIs(s: seq<Region>, key: Bytes)
    requires Sorted(ByStart, s)
    ensures forall i :: 0 <= i < |s| ==> (Le(s[i].start, key) <==> i < StartsUpTo(s, key))
  {
    hide Lt, Find, StrictWeakOrder;
    LtOrder();
    ByStartOrder();
    FindIsFind(ByStart, s, Probe(key));
    var r := Find(ByStart, s, Probe(key));
    forall i | 0 <= i < |s| ensures Le(s[i].start, key) <==> i < StartsUpTo(s, key) {
      assert ByStart(s[i], Probe(key)) <==> i < r.0;
      assert ByStart(Probe(key), s[i]) <==> r.0 < i || (r.0 == i && !r.1);
    }
  }

  /** On disjoint ranges it is the one region containing the key, whenever there is one. */
  lemma FindInOk(s: seq<Region>, key: Bytes)
    requires RangesOk(s)
    ensures forall i :: 0 <= i < |s| ==> (Contains(s[i], key) <==> FindIn(s, key) == Some(s[i]) && i == StartsUpTo(s, key) - 1)
    ensures FindIn(s, key).Some? ==> StartsUpTo(s, key) > 0 && FindIn(s, key).value == s[StartsUpTo(s, key) - 1]
  {
    hide Lt, StartsUpTo, StrictWeakOrder;
    LtOrder();
    StartsUpToIs(s, key);
    StartsUpToBound(s, key);
    var q := StartsUpTo(s, key);
    forall i | 0 <= i < |s| && i + 1 < q ensures !Contains(s[i], key) {
      assert Le(s[i].end, s[q-1].start) && s[i].end != [];
      assert Le(s[q-1].start, key);
    }
  }

  lemma StartsUpToBound(s: seq<Region>, key: Bytes)
    ensures StartsUpTo(s, key) <= |s|
  {
  }

  // ---------- the regions that overlap a range ----------

  /** Ends behind `start` and starts before `end`. */
  predicate Meets(x: Region, start: Bytes, end: Bytes) {
    (x.end == [] || Lt(start, x.end)) && (end == [] || Lt(x.start, end))
  }

  /** For a range that has a key, that is to have a key in common with it. */
  lemma MeetsIsIntersects(x: Region, r: Region)
    requires WellFormed(x) && WellFormed(r)
    ensures Meets(x, r.start, r.end) <==> Intersects(x, r)
  {
    hide Lt, Intersects;
    IntersectsIff(x, r);
  }

  /** Where `getOverlaps` and `scanRange` start to ascend (region_tree.go:71-74, 171-175). */
  function Lo(s: seq<Region>, start: Bytes): nat {
    var x := FindIn(s, start);
    Find(ByStart, s, if x.Some? then x.value else Probe(start)).0
  }

  /** How many regions start before `end`. */
  function Hi(s: seq<Region>, end: Bytes): nat {
    if end == [] then |s| else Find(ByStart, s, Probe(end)).0
  }

  function Overlaps(s: seq<Region>, start: Bytes, end: Bytes): seq<Region> {
    if Lo(s, start) <= Hi(s, end) <= |s| then s[Lo(s, start)..Hi(s, end)] else []
  }

  lemma SelfFind(s: seq<Region>, i: nat)
    requires Sorted(ByStart, s) && i < |s|
    ensures Find(ByStart, s, s[i]) == (i, true)
  {
    hide Lt, Find;
    LtOrder();
    ByStartOrder();
    FindUnique(ByStart, s, s[i], (i, true));
  }

  lemma LoIs(s: seq<Region>, start: Bytes)
    requires RangesOk(s)
    ensures Lo(s, start) <= |s|
    ensures forall i :: 0 <= i < |s| ==> (i < Lo(s, start) <==> s[i].end != [] && Le(s[i].end, start))
    ensures Lo(s, start) == if FindIn(s, start).Some? then StartsUpTo(s, start) - 1 else StartsUpTo(s, start)
  {
    hide Lt, StrictWeakOrder, Find, Contains, StartsUpTo;
    LtOrder();
    ByStartOrder();
    FindInOk(s, start);
    StartsUpToBound(s, start);
    if FindIn(s, start).Some? {
      SelfFind(s, StartsUpTo(s, start) - 1);
    } else {
      FindIsFind(ByStart, s, Probe(start));
      ProbeMiss(s, start);
    }
    LoEnds(s, start, Lo(s, start));
  }

  /** No region starts at a key that none contains. */
  lemma ProbeMiss(s: seq<Region>, key: Bytes)
    requires RangesOk(s) && FindIn(s, key).None?
    ensures StartsUpTo(s, key) == Find(ByStart, s, Probe(key)).0
  {
    hide Lt, StrictWeakOrder, Find;
    LtOrder();
    ByStartOrder();
    FindInOk(s, key);
    FindIsFind(ByStart, s, Probe(key));
    var r := Find(ByStart, s, Probe(key));
    assert forall i :: 0 <= i < |s| ==> !Contains(s[i], key);
  }

  lemma LoEnds(s: seq<Region>, start: Bytes, p: nat)
    requires RangesOk(s) && p <= |s|
    requires StartsUpTo(s, start) == if FindIn(s, start).Some? then p + 1 else p
    ensures forall i :: 0 <= i < |s| ==> (i < p <==> s[i].end != [] && Le(s[i].end, start))
  {
    hide Lt, StrictWeakOrder, Find, StartsUpTo;
    LtOrder();
    FindInOk(s, start);
    StartsUpToIs(s, start);
    forall i | 0 <= i < |s| ensures i < p <==> s[i].end != [] && Le(s[i].end, start) {
      assert Contains(s[i], start) <==> FindIn(s, start) == Some(s[i]) && i == StartsUpTo(s, start) - 1;
      assert WellFormed(s[i]);
    }
  }

  lemma HiIs(s: seq<Region>, end: Bytes)
    requires Sorted(ByStart, s)
    ensures Hi(s, end) <= |s|
    ensures forall i :: 0 <= i < |s| ==> (i < Hi(s, end) <==> end == [] || Lt(s[i].start, end))
  {
    hide Lt, StrictWeakOrder, Find;
    ByStartOrder();
    FindIsFind(ByStart, s, Probe(end));
    forall i | 0 <= i < |s| ensures i < Find(ByStart, s, Probe(end)).0 <==> Lt(s[i].start, end) {
      assert ByStart(s[i], Probe(end)) <==> i < Find(ByStart, s, Probe(end)).0;
    }
  }

  /** The regions that meet a range are the slice between the two. */
  lemma WindowIs(s: seq<Region>, start: Bytes, end: Bytes)
    requires RangesOk(s)
    ensures Lo(s, start) <= |s| && Hi(s, end) <= |s|
    ensures forall i :: 0 <= i < |s| ==> (Meets(s[i], start, end) <==> Lo(s, start) <= i < Hi(s, end))
  {
    hide Lt, Lo, Hi;
    LtOrder();
    LoIs(s, start);
    HiIs(s, end);
  }

  lemma OverlapsAre(s: seq<Region>, start: Bytes, end: Bytes)
    requires RangesOk(s)
    ensures Overlaps(s, start, end) == Filter(x => Meets(x, start, end), s)
  {
    hide Lt, Lo, Hi, Meets, Filter, RangesOk;
    WindowIs(s, start, end);
    var p := x => Meets(x, start, end);
    var lo, hi := Lo(s, start), Hi(s, end);
    if lo <= hi {
      assert s == s[..lo] + (s[lo..hi] + s[hi..]);
      FilterConcat(p, s[..lo], s[lo..hi] + s[hi..]);
      FilterConcat(p, s[lo..hi], s[hi..]);
      FilterNone(p, s[..lo]);
      FilterAll(p, s[lo..hi]);
      FilterNone(p, s[hi..]);
    } else {
      FilterNone(p, s);
    }
  }

  /** The callback of `getOverlaps` (region_tree.go:76-83). */
  function Overlapping(end: Bytes): (seq<Region>, Region) -> bool {
    (acc: seq<Region>, x: Region) => !(end != [] && Le(end, x.start))
  }

  /** Ascending from `Lo`, it accepts the overlaps. */
  lemma OverlapStop(s: seq<Region>, start: Bytes, end: Bytes)
    requires RangesOk(s)
    ensures Lo(s, start) <= |s|
    ensures var rest := s[Lo(s, start)..];
      rest[..StopAt(Overlapping(end), rest, 0)] == Overlaps(s, start, end)
  {
    hide Lt, Lo, Hi;
    LtOrder();
    WindowIs(s, start, end);
    HiIs(s, end);
    var lo, hi := Lo(s, start), Hi(s, end);
    var rest := s[lo..];
    var m := StopAt(Overlapping(end), rest, 0);
    assert m < |rest| ==> rest[m] == s[lo + m];
    if 0 < m { assert Overlapping(end)(rest[..m-1], rest[m-1]) && rest[m-1] == s[lo + m - 1]; }
    if lo <= hi { assert lo + m == hi; } else { assert m == 0; }
  }

  // ---------- putting a region in and taking one out ----------

  /** What `update` does to the row: the region takes the place of what overlaps it. */
  function Updated(s: seq<Region>, r: Region): seq<Region> {
    if Lo(s, r.start) <= Hi(s, r.end) <= |s| then s[..Lo(s, r.start)] + [r] + s[Hi(s, r.end)..] else s
  }

  lemma LoHi(s: seq<Region>, r: Region)
    requires RangesOk(s) && WellFormed(r)
    ensures Lo(s, r.start) <= Hi(s, r.end) <= |s|
  {
    hide Lt, Lo, Hi;
    LtOrder();
    LoIs(s, r.start);
    HiIs(s, r.end);
    var lo, hi := Lo(s, r.start), Hi(s, r.end);
    if lo > 0 {
      assert WellFormed(s[lo - 1]) && Le(s[lo - 1].end, r.start);
      assert r.end == [] || Lt(s[lo - 1].start, r.end);
    }
  }

  /** The regions on either side stay clear of it. */
  lemma UpdatedOk(s: seq<Region>, r: Region)
    requires RangesOk(s) && WellFormed(r)
    ensures Lo(s, r.start) <= Hi(s, r.end) <= |s|
    ensures RangesOk(Updated(s, r))
  {
    hide Lt, Lo, Hi, RangesOk;
    LoHi(s, r);
    var lo, hi := Lo(s, r.start), Hi(s, r.end);
    WithoutMiddle(s, lo, hi);
    Sides(s, r);
    PlaceOk(s[..lo], r, s[hi..]);
  }

  lemma WithoutMiddle(s: seq<Region>, lo: nat, hi: nat)
    requires RangesOk(s) && lo <= hi <= |s|
    ensures RangesOk(s[..lo] + s[hi..])
  {
    hide Lt, WellFormed, Clear, ByStart;
    var t := s[..lo] + s[hi..];
    assert forall i :: 0 <= i < |t| ==> t[i] == s[if i < lo then i else i - lo + hi];
  }

  lemma Sides(s: seq<Region>, r: Region)
    requires RangesOk(s) && Lo(s, r.start) <= Hi(s, r.end) <= |s|
    ensures forall i :: 0 <= i < Lo(s, r.start) ==> Clear(s[..Lo(s, r.start)][i], r)
    ensures forall i :: 0 <= i < |s| - Hi(s, r.end) ==> Clear(r, s[Hi(s, r.end)..][i])
  {
    hide Lt, Lo, Hi;
    LtOrder();
    LoIs(s, r.start);
    HiIs(s, r.end);
  }

  lemma PlaceOk(a: seq<Region>, r: Region, b: seq<Region>)
    requires RangesOk(a + b) && WellFormed(r)
    requires forall i :: 0 <= i < |a| ==> Clear(a[i], r)
    requires forall i :: 0 <= i < |b| ==> Clear(r, b[i])
    ensures RangesOk(a + [r] + b)
  {
    hide Lt, WellFormed, Clear, ByStart;
    var c, d := a + b, a + [r] + b;
    forall i | 0 <= i < |d|
      ensures d[i] == if i < |a| then a[i] else if i == |a| then r else b[i - |a| - 1]
      ensures WellFormed(d[i])
    {
      assert if i < |a| then d[i] == c[i] else if i == |a| then d[i] == r else d[i] == c[i-1];
    }
    forall i, j | 0 <= i < j < |d| ensures Clear(d[i], d[j]) {
      var k, l := if i < |a| then i else i - 1, if j < |a| then j else j - 1;
      if i != |a| && j != |a| { assert d[i] == c[k] && d[j] == c[l]; }
    }
    SortedIfDisjoint(d);
  }

  lemma SortedIfDisjoint(s: seq<Region>)
    requires Disjoint(s) && forall i :: 0 <= i < |s| ==> WellFormed(s[i])
    ensures Sorted(ByStart, s)
  {
    hide Lt;
    LtOrder();
  }

  /** What `remove` does to the row (region_tree.go:110-120): nothing, unless the region found at the start
      key has the id. */
  function Without(s: seq<Region>, r: Region): (t: seq<Region>) {
    var x := FindIn(s, r.start);
    if x.Some? && x.value.id == r.id then DelAt(s, StartsUpTo(s, r.start) - 1) else s
  }

  lemma DelAtOk(s: seq<Region>, i: nat)
    requires RangesOk(s) && i < |s|
    ensures RangesOk(DelAt(s, i))
  {
    hide Lt, WellFormed, Clear, ByStart;
  }
}
