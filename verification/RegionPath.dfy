/** server/core/storage.go:86-88: the storage key of a region is its id in twenty decimal digits, so that keys sort
    as the ids do. */
module RegionPath {
  import opened Bytes

  const MAX_UINT64 := 0xFFFF_FFFF_FFFF_FFFF

  /** The last `k` decimal digits of `n`, in ASCII. */
  function Digits(n: nat, k: nat): (s: Bytes)
    ensures |s| == k
  {
    if k == 0 then [] else Digits(n / 10, k - 1) + [(48 + n % 10) as byte]
  }

  function Pow10(k: nat): nat {
    if k == 0 then 1 else 10 * Pow10(k - 1)
  }

  /** `path.Join("raft", "r", fmt.Sprintf("%020d", id))`. */
  function Path(id: nat): Bytes {
    [114, 97, 102, 116, 47, 114, 47] + Digits(id, 20)
  }

  lemma {:induction false} DigitsOrder(m: nat, n: nat, k: nat)
    requires m < Pow10(k) && n < Pow10(k)
    ensures Lt(Digits(m, k), Digits(n, k)) <==> m < n
    ensures Digits(m, k) == Digits(n, k) <==> m == n
  {
    if k > 0 {
      DigitsOrder(m / 10, n / 10, k - 1);
      LtAppend(Digits(m / 10, k - 1), (48 + m % 10) as byte, Digits(n / 10, k - 1), (48 + n % 10) as byte);
      var a, b := Digits(m, k), Digits(n, k);
      assert a[..k-1] == Digits(m / 10, k - 1) && b[..k-1] == Digits(n / 10, k - 1) && a[k-1] == (48 + m % 10) as byte && b[k-1] == (48 + n % 10) as byte;
    }
  }

  function Decimal(s: Bytes): int {
    if s == [] then 0 else 10 * Decimal(s[..|s| - 1]) + s[|s| - 1] - 48
  }

  /** A path is "raft/r/" and the id in twenty decimal digits. */
  lemma PathFormat(id: nat)
    requires id <= MAX_UINT64
    ensures |Path(id)| == 27 && Path(id)[..7] == [114, 97, 102, 116, 47, 114, 47]
    ensures Decimal(Path(id)[7..]) == id && forall i :: 7 <= i < 27 ==> 48 <= Path(id)[i] <= 57
  {
    Twenty();
    DigitsFormat(id, 20);
    assert Path(id)[7..] == Digits(id, 20);
    assert forall i :: 7 <= i < 27 ==> Path(id)[i] == Digits(id, 20)[i - 7];
  }

  lemma {:induction false} DigitsFormat(n: nat, k: nat)
    requires n < Pow10(k)
    ensures Decimal(Digits(n, k)) == n && forall i :: 0 <= i < k ==> 48 <= Digits(n, k)[i] <= 57
  {
    if k > 0 {
      DigitsFormat(n / 10, k - 1);
      assert Digits(n, k)[..k-1] == Digits(n / 10, k - 1);
    }
  }

  /** Paths of 64-bit ids compare as the ids. */
  lemma PathOrder(m: nat, n: nat)
    requires m <= MAX_UINT64 && n <= MAX_UINT64
    ensures Lt(Path(m), Path(n)) <==> m < n
    ensures Path(m) == Path(n) <==> m == n
  {
    Twenty();
    DigitsOrder(m, n, 20);
    var p: Bytes := [114, 97, 102, 116, 47, 114, 47];
    LtSamePrefix(p, Digits(m, 20), Digits(n, 20));
    assert Path(m)[7..] == Digits(m, 20) && Path(n)[7..] == Digits(n, 20);
  }

  lemma Twenty()
    ensures Pow10(20) == 100_000_000_000_000_000_000
  {
    assert Pow10(5) == 100_000;
    assert Pow10(10) == 10_000_000_000;
    assert Pow10(15) == 1_000_000_000_000_000;
  }
}
