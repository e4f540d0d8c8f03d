/** The `indices` slice of a B-tree node (btree.go:245-321): a running count of the children's
    sizes.  Every helper is specified by what it does to the sequence of sizes it encodes. */
module Indices {

  /** The number of items before child `index`. */
  function Base(s: seq<int>, index: nat): int
    requires index <= |s|
  {
    if index == 0 then 0 else s[index-1] + 1
  }

  /** indices[0] = sizes[0], indices[i] = indices[i-1] + 1 + sizes[i]. */
  ghost predicate Formula(s: seq<int>, sizes: seq<int>) {
    && |s| == |sizes|
    && forall i {:trigger sizes[i]} :: 0 <= i < |s| ==> s[i] == Base(s, i) + sizes[i]
  }

  /** The formula leaves no choice. */
  lemma {:induction false} FormulaUnique(s: seq<int>, t: seq<int>, sizes: seq<int>, i: nat)
    requires Formula(s, sizes) && Formula(t, sizes) && i < |sizes|
    ensures s[i] == t[i]
  {
    assert s[i] == Base(s, i) + sizes[i];
    if i > 0 { FormulaUnique(s, t, sizes, i - 1); }
  }

  lemma FormulaLength(s: seq<int>, sizes: seq<int>)
    requires Formula(s, sizes)
    ensures |s| == |sizes|
  {
  }

  lemma FormulaPrefix(s: seq<int>, sizes: seq<int>, k: nat)
    requires Formula(s, sizes) && k <= |s|
    ensures Formula(s[..k], sizes[..k])
  {
    forall i | 0 <= i < k ensures s[..k][i] == Base(s[..k], i) + sizes[..k][i] {
      assert s[i] == Base(s, i) + sizes[i];
    }
  }

  function Shifted(s: seq<int>, delta: int): (r: seq<int>)
    ensures |r| == |s|
    ensures forall i :: 0 <= i < |s| ==> r[i] == s[i] + delta
  {
    seq(|s|, i requires 0 <= i < |s| => s[i] + delta)
  }

  // ---------- what each helper computes ----------

  function AddedAt(s: seq<int>, index: nat, delta: int): seq<int>
    requires index <= |s|
  {
    s[..index] + Shifted(s[index..], delta)
  }

  function InsertedAt(s: seq<int>, index: nat, sz: int): seq<int>
    requires index <= |s|
  {
    s[..index] + [Base(s, index) + sz] + Shifted(s[index..], sz + 1)
  }

  function Pushed(s: seq<int>, sz: int): seq<int> {
    s + [Base(s, |s|) + sz]
  }

  function SplitAt(s: seq<int>, index: nat, nextSize: int): seq<int>
    requires index < |s|
  {
    s[..index] + [s[index] - 1 - nextSize] + s[index..]
  }

  function MergedAt(s: seq<int>, index: nat): seq<int>
    requires index < |s|
  {
    s[..index] + s[index+1..]
  }

  function SizeAt(s: seq<int>, index: nat): int
    requires index < |s|
  {
    s[index] - Base(s, index)
  }

  function RemovedAt(s: seq<int>, index: nat): seq<int>
    requires index < |s|
  {
    s[..index] + Shifted(s[index+1..], -SizeAt(s, index) - 1)
  }

  // ---------- what it means ----------

  lemma AddedAtMeans(s: seq<int>, index: nat, delta: int, sizes: seq<int>)
    requires Formula(s, sizes) && index < |s|
    ensures Formula(AddedAt(s, index, delta), sizes[index := sizes[index] + delta])
  {
    var r, z := AddedAt(s, index, delta), sizes[index := sizes[index] + delta];
    forall i | 0 <= i < |r| ensures r[i] == Base(r, i) + z[i] {
      assert s[i] == Base(s, i) + sizes[i];
    }
  }

  lemma InsertedAtMeans(s: seq<int>, index: nat, sz: int, sizes: seq<int>)
    requires Formula(s, sizes) && index <= |s|
    ensures Formula(InsertedAt(s, index, sz), sizes[..index] + [sz] + sizes[index..])
  {
    var r, z := InsertedAt(s, index, sz), sizes[..index] + [sz] + sizes[index..];
    forall i | 0 <= i < |r| ensures r[i] == Base(r, i) + z[i] {
      if i < index { assert r[i] == s[i]; }
      if index < i { assert r[i] == s[i-1] + sz + 1; }
    }
  }

  lemma PushedMeans(s: seq<int>, sz: int, sizes: seq<int>)
    requires Formula(s, sizes)
    ensures Formula(Pushed(s, sz), sizes + [sz])
  {
    var r := Pushed(s, sz);
    assert forall i :: 0 <= i < |s| ==> r[i] == s[i];
  }

  /** Child `index` is split; the new right half has `nextSize` items, one more moves up. */
  lemma SplitAtMeans(s: seq<int>, index: nat, nextSize: int, sizes: seq<int>)
    requires Formula(s, sizes) && index < |s|
    ensures Formula(SplitAt(s, index, nextSize),
                    sizes[..index] + [sizes[index] - 1 - nextSize, nextSize] + sizes[index+1..])
  {
    var r := SplitAt(s, index, nextSize);
    var z := sizes[..index] + [sizes[index] - 1 - nextSize, nextSize] + sizes[index+1..];
    forall i | 0 <= i < |r| ensures r[i] == Base(r, i) + z[i] {
      if i <= index { assert s[i] == Base(s, i) + sizes[i]; }
      if index < i { assert r[i] == s[i-1]; }
    }
  }

  lemma MergedAtMeans(s: seq<int>, index: nat, sizes: seq<int>)
    requires Formula(s, sizes) && index + 1 < |s|
    ensures Formula(MergedAt(s, index), sizes[..index] + [sizes[index] + 1 + sizes[index+1]] + sizes[index+2..])
  {
    var r := MergedAt(s, index);
    var z := sizes[..index] + [sizes[index] + 1 + sizes[index+1]] + sizes[index+2..];
    assert s[index] == Base(s, index) + sizes[index];
    forall i | 0 <= i < |r| ensures r[i] == Base(r, i) + z[i] {
      if i < index { assert r[i] == s[i]; } else { assert r[i] == s[i+1]; }
    }
  }

  lemma RemovedAtMeans(s: seq<int>, index: nat, sizes: seq<int>)
    requires Formula(s, sizes) && index < |s|
    ensures Formula(RemovedAt(s, index), sizes[..index] + sizes[index+1..])
    ensures SizeAt(s, index) == sizes[index]
  {
    var r, z := RemovedAt(s, index), sizes[..index] + sizes[index+1..];
    assert s[index] == Base(s, index) + sizes[index];
    forall i | 0 <= i < |r| ensures r[i] == Base(r, i) + z[i] {
      if i < index { assert r[i] == s[i]; } else { assert r[i] == s[i+1] - sizes[index] - 1; }
    }
  }

  /** `moved` items go from child `index` to its right neighbour. */
  lemma MovedMeans(s: seq<int>, index: nat, moved: int, sizes: seq<int>)
    requires Formula(s, sizes) && index + 1 < |s|
    ensures Formula(s[index := s[index] - moved], sizes[index := sizes[index] - moved][index+1 := sizes[index+1] + moved])
  {
    var r, z := s[index := s[index] - moved], sizes[index := sizes[index] - moved][index+1 := sizes[index+1] + moved];
    forall i | 0 <= i < |r| ensures r[i] == Base(r, i) + z[i] {
      assert s[i] == Base(s, i) + sizes[i];
    }
  }

  // ---------- the loops of btree.go ----------

  method AddAt(s: seq<int>, index: nat, delta: int) returns (r: seq<int>)
    requires index <= |s|
    ensures r == AddedAt(s, index, delta)
  {
    r := s;
    for i := index to |s|
      invariant |r| == |s|
      invariant forall j :: 0 <= j < |s| ==> r[j] == if index <= j < i then s[j] + delta else s[j]
    {
      r := r[i := r[i] + delta];
    }
  }

  method InsertAt(s: seq<int>, index: nat, sz: int) returns (r: seq<int>)
    requires index <= |s|
    ensures r == InsertedAt(s, index, sz)
  {
    r := s + [-1];
    var i := |r| - 1;
    while i >= index && i > 0
      invariant |r| == |s| + 1 && 0 <= i <= |s| && index - 1 <= i
      invariant forall j :: 0 <= j < |s| && j <= i ==> r[j] == s[j]
      invariant forall j :: i < j <= |s| ==> r[j] == s[j-1] + sz + 1
    {
      r := r[i := r[i-1] + sz + 1];
      i := i - 1;
    }
    if index == 0 {
      r := r[0 := sz];
    }
  }

  method Push(s: seq<int>, sz: int) returns (r: seq<int>)
    ensures r == Pushed(s, sz)
  {
    if |s| == 0 {
      r := s + [sz];
    } else {
      r := s + [s[|s|-1] + 1 + sz];
    }
  }

  method Split(s: seq<int>, index: nat, nextSize: int) returns (r: seq<int>)
    requires index < |s|
    ensures r == SplitAt(s, index, nextSize)
  {
    r := InsertAt(s, index + 1, -1);
    r := r[index := r[index] - (1 + nextSize)];
  }

  method Merge(s: seq<int>, index: nat) returns (r: seq<int>)
    requires index < |s|
    ensures r == MergedAt(s, index)
  {
    r := s;
    for i := index to |s| - 1
      invariant |r| == |s|
      invariant forall j :: index <= j < i ==> r[j] == s[j+1]
      invariant forall j :: (0 <= j < index || i <= j < |s|) ==> r[j] == s[j]
    {
      r := r[i := r[i+1]];
    }
    r := r[..|r|-1];
  }

  method RemoveAt(s: seq<int>, index: nat) returns (r: seq<int>, sz: int)
    requires index < |s|
    ensures r == RemovedAt(s, index) && sz == SizeAt(s, index)
  {
    sz := s[index];
    if index > 0 {
      sz := sz - s[index-1] - 1;
    }
    r := s;
    for i := index + 1 to |s|
      invariant |r| == |s|
      invariant forall j :: index <= j < i - 1 ==> r[j] == s[j+1] - sz - 1
      invariant forall j :: (0 <= j < index || i - 1 <= j < |s|) ==> r[j] == s[j]
    {
      r := r[i-1 := r[i] - sz - 1];
    }
    r := r[..|r|-1];
  }

  method Pop(s: seq<int>) returns (r: seq<int>, out: int)
    requires |s| > 0
    ensures r == RemovedAt(s, |s| - 1) && out == SizeAt(s, |s| - 1)
  {
    var l := |s|;
    out := s[l-1];
    if l != 1 {
      out := out - (s[l-2] + 1);
    }
    r := s[..l-1];
  }
}
