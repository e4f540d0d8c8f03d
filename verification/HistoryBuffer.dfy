/** server/region_syncer/history_buffer.go: a ring of the last records, each with an index. The ring refines a plain
    sequence of bounded length. */
module HistoryBuffer {

  /** The last `n` elements. */
  function Last<T>(s: seq<T>, n: nat): seq<T> {
    if |s| <= n then s else s[|s| - n..]
  }

  /** What a history buffer is to its users: the records with indices up to `index`, at most `cap` of them. */
  datatype Buffer<T> = Buffer(index: nat, records: seq<T>, cap: nat)

  function Recorded<T>(b: Buffer<T>, r: T): Buffer<T> {
    Buffer(b.index + 1, Last(b.records + [r], b.cap), b.cap)
  }

  function ResetTo<T>(b: Buffer<T>, index: nat): Buffer<T> {
    Buffer(index, [], b.cap)
  }

  function First<T>(b: Buffer<T>): int {
    b.index - |b.records|
  }

  /** The records from an index on; none if it is not in the buffer. */
  function From<T>(b: Buffer<T>, index: nat): seq<T> {
    if First(b) <= index < b.index then b.records[index - First(b)..] else []
  }

  /** `x % size` for positions less than one round ahead. */
  lemma Wrap(x: nat, size: nat)
    requires 0 < size && x < 2 * size
    ensures Mod(x, size) == Around(x, size)
  {
    if x >= size {
      assert x == (x / size) * size + x % size;
      Quotient(x / size, x % size, size);
    }
  }

  function Mod(x: nat, size: nat): nat
    requires size > 0
  {
    x % size
  }

  function Around(x: int, size: nat): int {
    if x < size then x else x - size
  }

  lemma Quotient(q: int, r: nat, size: nat)
    requires r < size && size <= q * size + r < 2 * size
    ensures q == 1
  {
    assert 0 < q * size < 2 * size;
  }

  /** The records of a ring in order. */
  function Ring<T>(a: seq<T>, head: nat, tail: nat): (s: seq<T>)
    requires head < |a| && tail < |a|
    ensures |s| == if tail < head then tail + |a| - head else tail - head
    ensures forall i :: 0 <= i < |s| ==> s[i] == a[Around(head + i, |a|)]
  {
    if head <= tail then a[head..tail] else a[head..] + a[..tail]
  }

  /** Writing at the tail appends, and pushes the oldest record out of a full ring. */
  lemma RingRecord<T>(a: seq<T>, head: nat, tail: nat, r: T)
    requires 2 <= |a| && head < |a| && tail < |a|
    ensures var tail' := Around(tail + 1, |a|);
      Ring(a[tail := r], if tail' == head then Around(head + 1, |a|) else head, tail') == Last(Ring(a, head, tail) + [r], |a| - 1)
  {
    hide Ring;
    if Around(tail + 1, |a|) == head { RingFull(a, head, tail, r); } else { RingGrows(a, head, tail, r); }
  }

  lemma RingGrows<T>(a: seq<T>, head: nat, tail: nat, r: T)
    requires 2 <= |a| && head < |a| && tail < |a| && Around(tail + 1, |a|) != head
    ensures Ring(a[tail := r], head, Around(tail + 1, |a|)) == Ring(a, head, tail) + [r]
    ensures |Ring(a, head, tail)| + 1 <= |a| - 1
  {
    hide Ring;
    RingIs(a, head, tail);
    RingIs(a[tail := r], head, Around(tail + 1, |a|));
  }

  lemma RingFull<T>(a: seq<T>, head: nat, tail: nat, r: T)
    requires 2 <= |a| && head < |a| && tail < |a| && Around(tail + 1, |a|) == head
    ensures |Ring(a, head, tail)| == |a| - 1
    ensures Ring(a[tail := r], Around(head + 1, |a|), head) == (Ring(a, head, tail) + [r])[1..]
  {
    hide Ring;
    RingIs(a, head, tail);
    RingIs(a[tail := r], Around(head + 1, |a|), head);
    var s, t := Ring(a, head, tail), Ring(a[tail := r], Around(head + 1, |a|), head);
    forall i | 0 <= i < |t| ensures t[i] == (s + [r])[i + 1] {
    }
  }

  lemma RingLength<T>(a: seq<T>, head: nat, tail: nat)
    requires head < |a| && tail < |a|
    ensures |Ring(a, head, tail)| == if tail < head then tail + |a| - head else tail - head
  {
  }

  lemma RingAt<T>(a: seq<T>, head: nat, tail: nat, i: nat)
    requires head < |a| && tail < |a| && i < |Ring(a, head, tail)|
    ensures Ring(a, head, tail)[i] == a[Around(head + i, |a|)]
  {
  }

  lemma RingIs<T>(a: seq<T>, head: nat, tail: nat)
    requires head < |a| && tail < |a|
    ensures |Ring(a, head, tail)| == if tail < head then tail + |a| - head else tail - head
    ensures forall i :: 0 <= i < |Ring(a, head, tail)| ==> Ring(a, head, tail)[i] == a[Around(head + i, |a|)]
  {
  }

  const DEFAULT_FLUSH_COUNT := 100

  class HistoryBuffer<T(0)> {
    var index: nat
    var records: array<T>
    var head: nat
    var tail: nat
    const size: nat
    var flushCount: int
    var saved: nat                         // the index in the key-value store

    ghost predicate Valid()
      reads this, records
    {
      && size >= 2 && records.Length == size && head < size && tail < size
      && Len() <= index
      && 0 < flushCount <= DEFAULT_FLUSH_COUNT
    }

    /** `distanceToTail` (history_buffer.go:63-69). */
    function DistanceToTail(pos: nat): int
      reads this
    {
      if tail < pos then tail + size - pos else tail - pos
    }

    function Len(): int
      reads this
    {
      DistanceToTail(head)
    }

    function FirstIndex(): int
      reads this
    {
      index - Len()
    }

    ghost function Contents(): (s: seq<T>)
      requires Valid()
      reads this, records
    {
      Ring(records[..], head, tail)
    }

    ghost function Abstract(): Buffer<T>
      requires Valid()
      reads this, records
    {
      Buffer(index, Contents(), size - 1)
    }

    /** `newHistoryBuffer` (history_buffer.go:42-57); `stored` is the index found in the key-value store. */
    constructor (capacity: int, stored: nat)
      ensures Valid() && fresh(records)
      ensures Abstract() == Buffer(stored, [], if capacity < 1 then 1 else capacity) && saved == stored && flushCount == 100
    {
      var n := if capacity + 1 < 2 then 2 else capacity + 1;
      size := n;
      records := new T[n];
      head, tail, flushCount := 0, 0, DEFAULT_FLUSH_COUNT;
      index, saved := stored, stored;
    }

    /** The ring part of `Record` (history_buffer.go:83-87). */
    method Push(r: T)
      requires size >= 2 && records.Length == size && head < size && tail < size
      modifies this`head, this`tail, records
      ensures head < size && tail < size
      ensures Ring(records[..], head, tail) == Last(old(Ring(records[..], head, tail)) + [r], size - 1)
    {
      hide Ring, Mod, Last;
      ghost var a := records[..];
      RingRecord(a, head, tail, r);
      Wrap(tail + 1, size);
      Wrap(head + 1, size);
      records[tail] := r;
      assert records[..] == a[tail := r];
      tail := Mod(tail + 1, size);
      if tail == head {
        head := Mod(head + 1, size);
      }
    }

    /** `Record` (history_buffer.go:79-94). */
    method Record(r: T)
      requires Valid()
      modifies this, records
      ensures Valid() && records == old(records)
      ensures Abstract() == Recorded(old(Abstract()), r)
      ensures saved == if old(flushCount) == 1 then index else old(saved)
      ensures flushCount == if old(flushCount) == 1 then 100 else old(flushCount) - 1
    {
      hide Ring;
      RingLength(records[..], head, tail);
      Push(r);
      RingLength(records[..], head, tail);
      index := index + 1;
      flushCount := flushCount - 1;
      if flushCount <= 0 {
        saved := index;
        flushCount := DEFAULT_FLUSH_COUNT;
      }
    }

    /** `RecordsFrom` (history_buffer.go:96-110). */
    method RecordsFrom(from: nat) returns (res: seq<T>)
      requires Valid()
      ensures res == From(Abstract(), from)
    {
      hide Ring, Mod;
      RingLength(records[..], head, tail);
      if !(FirstIndex() <= from < index) { return []; }
      var offset := from - FirstIndex();
      Wrap(head + offset, size);
      var pos := Mod(head + offset, size);
      res := [];
      var i := pos;
      ghost var n, all := offset, Contents();
      while i != tail
        invariant offset <= n <= |all| && i == Around(head + n, size) && (i == tail <==> n == |all|)
        invariant res == all[offset..n]
        decreases |all| - n
      {
        RingAt(records[..], head, tail, n);
        res := res + [records[i]];
        Wrap(i + 1, size);
        i := Mod(i + 1, size);
        n := n + 1;
      }
    }

    /** `ResetWithIndex` (history_buffer.go:112-119). */
    method ResetWithIndex(i: nat)
      requires Valid()
      modifies this
      ensures Valid() && records == old(records) && saved == old(saved) && flushCount == 100
      ensures Abstract() == ResetTo(old(Abstract()), i)
    {
      index := i;
      head, tail := 0, 0;
      flushCount := DEFAULT_FLUSH_COUNT;
    }

    /** `get` (history_buffer.go:127-133). */
    method Get(i: nat) returns (found: bool, r: T)
      requires Valid()
      ensures found <==> FirstIndex() <= i < index
      ensures found ==> r == Contents()[i - FirstIndex()]
    {
      if FirstIndex() <= i < index {
        var offset := i - FirstIndex();
        Wrap(head + offset, size);
        return true, records[Mod(head + offset, size)];
      }
      found, r := false, *;
    }
  }
}
