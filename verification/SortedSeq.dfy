/** Sorted sequences under a strict weak order: the abstract contents of a B-tree.

    `Find`, `Put`, `Del` and `Walk` say what look-up, insertion, deletion and
    iteration mean on the contents.  The tree operations are proved equal to them.
 */
module SortedSeq {

  datatype Option<+T> = None | Some(value: T)

  /** What pkg/btree asks of `Item.Less`. */
  ghost predicate StrictWeakOrder<T(!new)>(less: (T, T) -> bool) {
    && (forall a :: !less(a, a))
    && (forall a, b, c :: less(a, b) && less(b, c) ==> less(a, c))
    && (forall a, b, c :: !less(a, b) && !less(b, c) ==> !less(a, c))
  }

  ghost predicate Sorted<T>(less: (T, T) -> bool, s: seq<T>) {
    forall i, j :: 0 <= i < j < |s| ==> less(s[i], s[j])
  }

  ghost predicate AllLess<T>(less: (T, T) -> bool, s: seq<T>, x: T) {
    forall i :: 0 <= i < |s| ==> less(s[i], x)
  }

  ghost predicate AllMore<T>(less: (T, T) -> bool, x: T, s: seq<T>) {
    forall i :: 0 <= i < |s| ==> less(x, s[i])
  }

  predicate Same<T>(less: (T, T) -> bool, a: T, b: T) {
    !less(a, b) && !less(b, a)
  }

  /** The first position whose element is greater than `x`. */
  function UpperBound<T>(less: (T, T) -> bool, s: seq<T>, x: T): (i: nat)
    ensures i <= |s|
    ensures forall j :: 0 <= j < i ==> !less(x, s[j])
    ensures i < |s| ==> less(x, s[i])
  {
    if s == [] || less(x, s[0]) then 0 else 1 + UpperBound(less, s[1..], x)
  }

  /** Where `x` is or belongs in `s`, and whether an equivalent element is there. */
  function Find<T>(less: (T, T) -> bool, s: seq<T>, x: T): (r: (nat, bool))
    ensures r.0 <= |s|
    ensures r.1 ==> r.0 < |s|
  {
    var i := UpperBound(less, s, x);
    if i > 0 && !less(s[i-1], x) then (i - 1, true) else (i, false)
  }

  /** What a find result means: the elements before `r.0` are exactly the smaller ones, and
      those after it (and after the match, if any) exactly the greater ones. */
  ghost predicate IsFind<T>(less: (T, T) -> bool, s: seq<T>, x: T, r: (nat, bool)) {
    && r.0 <= |s|
    && (r.1 ==> r.0 < |s|)
    && (forall i :: 0 <= i < |s| ==> (less(s[i], x) <==> i < r.0))
    && (forall i :: 0 <= i < |s| ==> (less(x, s[i]) <==> r.0 < i || (r.0 == i && !r.1)))
  }

  lemma FindIsFind<T(!new)>(less: (T, T) -> bool, s: seq<T>, x: T)
    requires StrictWeakOrder(less) && Sorted(less, s)
    ensures IsFind(less, s, x, Find(less, s, x))
  {
    var u := UpperBound(less, s, x);
    var r := Find(less, s, x);
    forall i | 0 <= i < r.0 ensures less(s[i], x) {
      if i < u - 1 { assert less(s[i], s[u-1]); }
    }
    forall i | u <= i < |s| ensures less(x, s[i]) {
      if u < i { assert less(s[u], s[i]); }
    }
  }

  /** A find result is the only one of its kind, whatever computed it. */
  lemma FindUnique<T(!new)>(less: (T, T) -> bool, s: seq<T>, x: T, r: (nat, bool))
    requires StrictWeakOrder(less) && Sorted(less, s)
    requires IsFind(less, s, x, r)
    ensures Find(less, s, x) == r
  {
    FindIsFind(less, s, x);
    var q := Find(less, s, x);
    assert q.0 < |s| ==> (less(s[q.0], x) <==> q.0 < r.0);
    assert r.0 < |s| ==> (less(s[r.0], x) <==> r.0 < q.0);
    assert r.0 < |s| ==> (less(x, s[r.0]) <==> !r.1);
  }

  /** Searching in the middle of a sorted sequence. */
  lemma FindInMiddle<T(!new)>(less: (T, T) -> bool, a: seq<T>, b: seq<T>, c: seq<T>, x: T)
    requires StrictWeakOrder(less) && Sorted(less, a + b + c)
    requires AllLess(less, a, x) && AllMore(less, x, c)
    ensures Sorted(less, b)
    ensures Find(less, a + b + c, x) == (|a| + Find(less, b, x).0, Find(less, b, x).1)
  {
    var s := a + b + c;
    SortedMiddle(less, a, b, c);
    FindIsFind(less, b, x);
    var q := Find(less, b, x);
    var r := (|a| + q.0, q.1);
    forall i | 0 <= i < |s|
      ensures less(s[i], x) <==> i < r.0
      ensures less(x, s[i]) <==> r.0 < i || (r.0 == i && !r.1)
    {
      if i < |a| {
        assert s[i] == a[i];
      } else if i < |a| + |b| {
        assert s[i] == b[i - |a|];
      } else {
        assert s[i] == c[i - |a| - |b|];
      }
    }
    FindUnique(less, s, x, r);
  }

  lemma SortedMiddle<T>(less: (T, T) -> bool, a: seq<T>, b: seq<T>, c: seq<T>)
    requires Sorted(less, a + b + c)
    ensures Sorted(less, b)
  {
    forall i, j | 0 <= i < j < |b| ensures less(b[i], b[j]) {
      assert (a + b + c)[|a| + i] == b[i] && (a + b + c)[|a| + j] == b[j];
    }
  }

  function PutAt<T>(s: seq<T>, p: nat, found: bool, x: T): (r: seq<T>)
    requires p <= |s| && (found ==> p < |s|)
    ensures |r| == |s| + if found then 0 else 1
    ensures forall i :: 0 <= i < |r| ==> r[i] == if i < p then s[i] else if i == p then x else s[if found then i else i - 1]
  {
    if found then s[p := x] else s[..p] + [x] + s[p..]
  }

  function DelAt<T>(s: seq<T>, p: nat): (r: seq<T>)
    requires p < |s|
    ensures |r| == |s| - 1
    ensures forall i :: 0 <= i < |r| ==> r[i] == if i < p then s[i] else s[i + 1]
  {
    s[..p] + s[p+1..]
  }

  /** ReplaceOrInsert on contents. */
  function Put<T>(less: (T, T) -> bool, s: seq<T>, x: T): seq<T> {
    PutAt(s, Find(less, s, x).0, Find(less, s, x).1, x)
  }

  /** Delete on contents. */
  function Del<T>(less: (T, T) -> bool, s: seq<T>, x: T): seq<T> {
    if Find(less, s, x).1 then DelAt(s, Find(less, s, x).0) else s
  }

  /** The stored element equivalent to `x`, if any. */
  function Get<T>(less: (T, T) -> bool, s: seq<T>, x: T): Option<T> {
    if Find(less, s, x).1 then Some(s[Find(less, s, x).0]) else None
  }

  lemma SpliceMiddle<T>(a: seq<T>, b: seq<T>, c: seq<T>, x: T, p: nat, found: bool)
    requires p <= |b| && (found ==> p < |b|)
    ensures PutAt(a + b + c, |a| + p, found, x) == a + PutAt(b, p, found, x) + c
    ensures found ==> DelAt(a + b + c, |a| + p) == a + DelAt(b, p) + c
    ensures found ==> (a + b + c)[|a| + p] == b[p]
  {
    var s := a + b + c;
    assert s[..|a| + p] == a + b[..p] && s[|a| + p..] == b[p..] + c;
    if found { assert s[|a| + p + 1..] == b[p + 1..] + c; }
  }

  lemma EditInMiddle<T(!new)>(less: (T, T) -> bool, a: seq<T>, b: seq<T>, c: seq<T>, x: T)
    requires StrictWeakOrder(less) && Sorted(less, a + b + c)
    requires AllLess(less, a, x) && AllMore(less, x, c)
    ensures Sorted(less, b)
    ensures Put(less, a + b + c, x) == a + Put(less, b, x) + c
    ensures Del(less, a + b + c, x) == a + Del(less, b, x) + c
    ensures Get(less, a + b + c, x) == Get(less, b, x)
  {
    hide StrictWeakOrder, Sorted, AllLess, AllMore, Find, PutAt, DelAt;
    FindInMiddle(less, a, b, c, x);
    SpliceMiddle(a, b, c, x, Find(less, b, x).0, Find(less, b, x).1);
  }

  lemma PutSorted<T(!new)>(less: (T, T) -> bool, s: seq<T>, x: T)
    requires StrictWeakOrder(less) && Sorted(less, s)
    ensures Sorted(less, Put(less, s, x))
    ensures |Put(less, s, x)| == |s| + (if Get(less, s, x).None? then 1 else 0)
    ensures Get(less, Put(less, s, x), x) == Some(x)
  {
    hide Find, PutAt;
    FindIsFind(less, s, x);
    var (p, found) := Find(less, s, x);
    PutAtFind(less, s, x, p, found);
    FindUnique(less, Put(less, s, x), x, (p, true));
  }

  lemma PutAtFind<T(!new)>(less: (T, T) -> bool, s: seq<T>, x: T, p: nat, found: bool)
    requires StrictWeakOrder(less) && Sorted(less, s) && IsFind(less, s, x, (p, found))
    ensures Sorted(less, PutAt(s, p, found, x)) && IsFind(less, PutAt(s, p, found, x), x, (p, true))
    ensures PutAt(s, p, found, x)[p] == x && |PutAt(s, p, found, x)| == |s| + if found then 0 else 1
  {
    var r := PutAt(s, p, found, x);
    forall i | 0 <= i < |r| ensures (less(r[i], x) <==> i < p) && (less(x, r[i]) <==> p < i) {
    }
  }

  lemma DelSorted<T(!new)>(less: (T, T) -> bool, s: seq<T>, x: T)
    requires StrictWeakOrder(less) && Sorted(less, s)
    ensures Sorted(less, Del(less, s, x))
    ensures |Del(less, s, x)| == |s| - (if Get(less, s, x).None? then 0 else 1)
    ensures Get(less, Del(less, s, x), x) == None
  {
    FindIsFind(less, s, x);
    var (p, found) := Find(less, s, x);
    if found {
      FindUnique(less, Del(less, s, x), x, (p, false));
    }
  }

  /** Feeding `s` to an iterator callback after it has already seen `acc`: stop before
      the first element outside the range, and after the first element on which the
      callback returns false.  `keep(acc, x)` is the callback's answer for `x` when it has
      seen `acc` before. */
  function Walk<T>(inRange: T -> bool, keep: (seq<T>, T) -> bool, acc: seq<T>, s: seq<T>): (r: (seq<T>, bool))
    decreases |s|
  {
    if s == [] then (acc, true)
    else if !inRange(s[0]) then (acc, false)
    else if !keep(acc, s[0]) then (acc + [s[0]], false)
    else Walk(inRange, keep, acc + [s[0]], s[1..])
  }

  lemma {:induction false} WalkConcat<T>(inRange: T -> bool, keep: (seq<T>, T) -> bool, acc: seq<T>, a: seq<T>, b: seq<T>)
    ensures Walk(inRange, keep, acc, a + b)
         == var r := Walk(inRange, keep, acc, a);
            if r.1 then Walk(inRange, keep, r.0, b) else r
    decreases |a|
  {
    if a == [] {
      assert a + b == b;
    } else {
      assert (a + b)[1..] == a[1..] + b;
      WalkConcat(inRange, keep, acc + [a[0]], a[1..], b);
    }
  }

  /** What a callback accepts of `s`: everything before the first element it refuses. */
  function StopAt<T>(keep: (seq<T>, T) -> bool, s: seq<T>, i: nat): (m: nat)
    requires i <= |s|
    ensures i <= m <= |s|
    ensures m < |s| ==> !keep(s[..m], s[m])
    ensures forall j :: i <= j < m ==> keep(s[..j], s[j])
    decreases |s| - i
  {
    if i == |s| || !keep(s[..i], s[i]) then i else StopAt(keep, s, i + 1)
  }

  lemma {:induction false} StopUnique<T>(keep: (seq<T>, T) -> bool, s: seq<T>, i: nat, k: nat)
    requires i <= k <= |s|
    requires forall j :: i <= j < k ==> keep(s[..j], s[j])
    requires k < |s| ==> !keep(s[..k], s[k])
    ensures StopAt(keep, s, i) == k
    decreases k - i
  {
    if i < k { StopUnique(keep, s, i + 1, k); }
  }

  /** What an unbounded walk delivers: everything up to and including the first refused element. */
  function Stopped<T>(keep: (seq<T>, T) -> bool, s: seq<T>): (seq<T>, bool) {
    var m := StopAt(keep, s, 0);
    if m < |s| then (s[..m+1], false) else (s, true)
  }

  lemma {:induction false} WalkDelivers<T(!new)>(inRange: T -> bool, keep: (seq<T>, T) -> bool, s: seq<T>, i: nat)
    requires i <= |s| && forall x :: inRange(x)
    ensures var m := StopAt(keep, s, i);
      Walk(inRange, keep, s[..i], s[i..]) == if m < |s| then (s[..m+1], false) else (s, true)
    decreases |s| - i
  {
    if i < |s| {
      assert s[i..][1..] == s[i+1..] && s[i..][0] == s[i] && s[..i] + [s[i]] == s[..i+1];
      if keep(s[..i], s[i]) {
        WalkDelivers(inRange, keep, s, i + 1);
      }
    } else {
      assert s[..i] == s;
    }
  }

  lemma WalkStopped<T(!new)>(inRange: T -> bool, keep: (seq<T>, T) -> bool, s: seq<T>)
    requires forall x :: inRange(x)
    ensures Walk(inRange, keep, [], s) == Stopped(keep, s)
  {
    assert s[..0] == [] && s[0..] == s;
    WalkDelivers(inRange, keep, s, 0);
  }

  /** A walk that has come through `done` goes on as if it started there; one that has stopped stays stopped. */
  lemma WalkOn<T>(inRange: T -> bool, keep: (seq<T>, T) -> bool, acc: seq<T>, done: seq<T>, more: seq<T>)
    ensures var r := Walk(inRange, keep, acc, done);
      Walk(inRange, keep, acc, done + more) == if r.1 then Walk(inRange, keep, r.0, more) else r
  {
    WalkConcat(inRange, keep, acc, done, more);
  }

  lemma WalkOne<T>(inRange: T -> bool, keep: (seq<T>, T) -> bool, acc: seq<T>, x: T)
    ensures Walk(inRange, keep, acc, [x])
         == if !inRange(x) then (acc, false) else if !keep(acc, x) then (acc + [x], false) else (acc + [x], true)
  {
    assert [x][1..] == [];
  }

  function Reverse<T>(s: seq<T>): (r: seq<T>)
    ensures |r| == |s|
    ensures forall i :: 0 <= i < |s| ==> r[i] == s[|s| - 1 - i]
  {
    if s == [] then [] else Reverse(s[1..]) + [s[0]]
  }

  lemma ReverseConcat<T>(a: seq<T>, b: seq<T>)
    ensures Reverse(a + b) == Reverse(b) + Reverse(a)
  {
  }

  // ---------- filtering ----------

  function Filter<T>(p: T -> bool, s: seq<T>): seq<T> {
    if s == [] then [] else (if p(s[0]) then [s[0]] else []) + Filter(p, s[1..])
  }

  lemma {:induction false} FilterConcat<T>(p: T -> bool, a: seq<T>, b: seq<T>)
    ensures Filter(p, a + b) == Filter(p, a) + Filter(p, b)
    decreases |a|
  {
    if a == [] {
      assert a + b == b;
    } else {
      assert (a + b)[1..] == a[1..] + b;
      FilterConcat(p, a[1..], b);
      var h := if p(a[0]) then [a[0]] else [];
      Assoc(h, Filter(p, a[1..]), Filter(p, b));
    }
  }

  lemma Assoc<T>(a: seq<T>, b: seq<T>, c: seq<T>)
    ensures (a + b) + c == a + (b + c)
  {
  }

  lemma {:induction false} FilterIn<T>(p: T -> bool, s: seq<T>, x: T)
    ensures x in Filter(p, s) <==> x in s && p(x)
  {
    if s != [] {
      assert s == [s[0]] + s[1..];
      FilterIn(p, s[1..], x);
    }
  }

  lemma FilterOne<T>(p: T -> bool, x: T)
    ensures Filter(p, [x]) == if p(x) then [x] else []
  {
  }

  lemma {:induction false} FilterAll<T>(p: T -> bool, s: seq<T>)
    requires forall i :: 0 <= i < |s| ==> p(s[i])
    ensures Filter(p, s) == s
  {
    if s != [] { FilterAll(p, s[1..]); }
  }

  lemma {:induction false} FilterNone<T>(p: T -> bool, s: seq<T>)
    requires forall i :: 0 <= i < |s| ==> !p(s[i])
    ensures Filter(p, s) == []
  {
    if s != [] { FilterNone(p, s[1..]); }
  }

  /** A predicate that changes its value once, at position `q`. */
  lemma FilterCut<T>(p: T -> bool, s: seq<T>, q: nat, first: bool)
    requires q <= |s|
    requires forall i :: 0 <= i < |s| ==> (p(s[i]) <==> ((i < q) == first))
    ensures Filter(p, s) == if first then s[..q] else s[q..]
  {
    hide Filter;
    assert s == s[..q] + s[q..];
    FilterConcat(p, s[..q], s[q..]);
    if first {
      FilterAll(p, s[..q]);
      FilterNone(p, s[q..]);
    } else {
      FilterNone(p, s[..q]);
      FilterAll(p, s[q..]);
    }
  }
}
