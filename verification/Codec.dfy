/** table/codec.go: the memcomparable encoding of byte strings and integers. Encoded strings compare as the strings
    do, decoding is the exact inverse in both directions, and row keys sort by table and row. */
module Codec {
  import opened Bytes

  const ENC_GROUP_SIZE := 8
  const ENC_MARKER: byte := 0xFF
  const ENC_PAD: byte := 0
  const TABLE_PREFIX: Bytes := [116]
  const RECORD_PREFIX: Bytes := [114]

  datatype Error = InsufficientBytes | InvalidMarker | InvalidPadding

  datatype Result<T> = Ok(value: T) | Err(error: Error)

  // ---------- what the encoding is ----------

  function Zeros(n: nat): (s: Bytes)
    ensures |s| == n && forall i :: 0 <= i < n ==> s[i] == ENC_PAD
  {
    seq(n, i => ENC_PAD)
  }

  /** Groups of eight bytes, each followed by 0xFF; the last group is padded, and its marker counts the padding. */
  function Encoded(data: Bytes): Bytes {
    if |data| >= ENC_GROUP_SIZE then data[..8] + [ENC_MARKER] + Encoded(data[8..])
    else data + Zeros(8 - |data|) + [ENC_MARKER - (8 - |data|)]
  }

  /** The rest and the decoded string. */
  function Decoded(b: Bytes): Result<(Bytes, Bytes)> {
    if |b| < 9 then Err(InsufficientBytes)
    else
      var padCount := ENC_MARKER - b[8];
      if padCount > 8 then Err(InvalidMarker)
      else if padCount != 0 then
        if forall i :: 8 - padCount <= i < 8 ==> b[i] == ENC_PAD then Ok((b[9..], b[..8 - padCount])) else Err(InvalidPadding)
      else
        match Decoded(b[9..])
        case Err(e) => Err(e)
        case Ok(r) => Ok((r.0, b[..8] + r.1))
  }

  /** Byte for byte: group `g` is followed by its marker, 255 for a full group and 247 plus the length of the last. */
  lemma {:induction false} Format(data: Bytes, g: nat, j: nat)
    requires 8 * g <= |data| && j < 9
    ensures |Encoded(data)| == 9 * (|data| / 8 + 1)
    ensures 9 * g + j < |Encoded(data)|
    ensures Encoded(data)[9 * g + j] ==
      if j < 8 then (if 8 * g + j < |data| then data[8 * g + j] else 0)
      else if 8 * g + 8 <= |data| then 255 else 247 + (|data| - 8 * g)
    decreases |data|
  {
    if |data| >= 8 {
      var rest := data[8..];
      assert |rest| / 8 == |data| / 8 - 1;
      Format(rest, if g > 0 then g - 1 else 0, j);
      assert g > 0 ==> Encoded(data)[9 * g + j] == Encoded(rest)[9 * (g - 1) + j];
    }
  }

  // ---------- decoding inverts encoding, exactly ----------

  lemma {:induction false} DecodeEncoded(data: Bytes, rest: Bytes)
    ensures Decoded(Encoded(data) + rest) == Ok((rest, data))
    decreases |data|
  {
    var b := Encoded(data) + rest;
    if |data| >= 8 {
      assert b == data[..8] + [ENC_MARKER] + (Encoded(data[8..]) + rest);
      assert b[9..] == Encoded(data[8..]) + rest && b[..8] == data[..8] && b[8] == ENC_MARKER;
      DecodeEncoded(data[8..], rest);
      assert data[..8] + data[8..] == data;
    } else {
      var n := 8 - |data|;
      assert b == data + Zeros(n) + [ENC_MARKER - n] + rest;
      assert b[8] == ENC_MARKER - n && b[9..] == rest && b[..8 - n] == data;
      assert forall i :: 8 - n <= i < 8 ==> b[i] == Zeros(n)[i - |data|];
    }
  }

  /** Whatever decodes is the encoding of what it decodes to. */
  lemma {:induction false} EncodeDecoded(b: Bytes)
    requires Decoded(b).Ok?
    ensures b == Encoded(Decoded(b).value.1) + Decoded(b).value.0
    decreases |b|
  {
    var (rest, data) := Decoded(b).value;
    var padCount := ENC_MARKER - b[8];
    if padCount != 0 {
      assert b[..8] == data + Zeros(padCount);
      assert b == b[..8] + [b[8]] + b[9..];
    } else {
      EncodeDecoded(b[9..]);
      var tail := Decoded(b[9..]).value.1;
      assert data[..8] == b[..8] && data[8..] == tail;
      assert b == b[..8] + [b[8]] + b[9..];
    }
  }

  // ---------- encoding keeps the order ----------

  /** The first `n` bytes, padded with zeros. */
  function Pad(a: Bytes, n: nat): (s: Bytes)
    ensures |s| == n
  {
    if n == 0 then [] else if a == [] then [ENC_PAD] + Pad([], n - 1) else [a[0]] + Pad(a[1..], n - 1)
  }

  function Min(m: nat, n: nat): nat {
    if m < n then m else n
  }

  /** Of two strings in order, the first groups are in order, or equal with the first string ending sooner, or equal
      and full, and the rests are in order. */
  lemma {:induction false} GroupOrder(a: Bytes, b: Bytes, n: nat)
    requires Lt(a, b)
    ensures || Lt(Pad(a, n), Pad(b, n))
            || (Pad(a, n) == Pad(b, n) && Min(|a|, n) < Min(|b|, n))
            || (Pad(a, n) == Pad(b, n) && |a| >= n && |b| >= n && Lt(a[n..], b[n..]))
    decreases n
  {
    if n == 0 {
      assert a[0..] == a && b[0..] == b;
    } else if a == [] {
      EmptyOrder(b, n);
    } else if a[0] == b[0] {
      GroupOrder(a[1..], b[1..], n - 1);
      FirstEqual(a[0], Pad(a[1..], n - 1), Pad(b[1..], n - 1));
      if |a| >= n && |b| >= n { assert a[1..][n-1..] == a[n..] && b[1..][n-1..] == b[n..]; }
    }
  }

  lemma {:induction false} EmptyOrder(b: Bytes, n: nat)
    requires b != [] && n > 0
    ensures Lt(Pad([], n), Pad(b, n)) || (Pad([], n) == Pad(b, n) && 0 < Min(|b|, n))
    decreases n
  {
    if b[0] == ENC_PAD && b[1..] != [] && n > 1 {
      EmptyOrder(b[1..], n - 1);
      FirstEqual(ENC_PAD, Pad([], n - 1), Pad(b[1..], n - 1));
    } else if b[0] == ENC_PAD {
      assert Pad([], n) == Pad(b, n);
    }
  }

  lemma FirstEqual(x: byte, a: Bytes, b: Bytes)
    ensures Lt([x] + a, [x] + b) <==> Lt(a, b)
  {
    LtSamePrefix([x], a, b);
  }

  lemma {:induction false} PadIs(a: Bytes, n: nat)
    ensures Pad(a, n) == if |a| >= n then a[..n] else a + Zeros(n - |a|)
    decreases n
  {
    if n > 0 {
      if a == [] {
        PadIs([], n - 1);
        assert [ENC_PAD] + Zeros(n - 1) == Zeros(n);
      } else {
        PadIs(a[1..], n - 1);
        assert a == [a[0]] + a[1..];
      }
    }
  }

  /** The marker of the first group. */
  function Marker(a: Bytes): byte {
    ENC_MARKER - (8 - Min(|a|, 8))
  }

  function Further(a: Bytes): Bytes {
    if |a| >= 8 then Encoded(a[8..]) else []
  }

  /** The encoding by its first group. */
  lemma EncodedGroup(a: Bytes)
    ensures Encoded(a) == Pad(a, 8) + ([Marker(a)] + Further(a))
  {
    hide Pad, Encoded, Zeros;
    PadIs(a, 8);
    EncodedFirst(a);
    if |a| >= 8 {
      Regroup(a[..8], [Marker(a)], Further(a));
    } else {
      assert [Marker(a)] + Further(a) == [Marker(a)];
    }
  }

  lemma EncodedFirst(a: Bytes)
    ensures Encoded(a) == if |a| >= 8 then a[..8] + [Marker(a)] + Further(a) else a + Zeros(8 - |a|) + [Marker(a)]
  {
  }

  lemma Regroup(a: Bytes, b: Bytes, c: Bytes)
    ensures a + b + c == a + (b + c)
  {
  }

  lemma {:induction false} EncodedLt(a: Bytes, b: Bytes)
    requires Lt(a, b)
    ensures Lt(Encoded(a), Encoded(b))
    decreases |a|
  {
    hide Encoded, Lt;
    GroupOrder(a, b, 8);
    EncodedGroup(a);
    EncodedGroup(b);
    if Pad(a, 8) == Pad(b, 8) {
      LtSamePrefix(Pad(a, 8), [Marker(a)] + Further(a), [Marker(b)] + Further(b));
      if Min(|a|, 8) < Min(|b|, 8) {
        FirstByte(Marker(a), Further(a), Marker(b), Further(b));
      } else {
        SelfNotLt(Pad(a, 8));
        EncodedLt(a[8..], b[8..]);
        FirstEqual(Marker(a), Further(a), Further(b));
      }
    } else {
      LtFirstDecides(Pad(a, 8), Pad(b, 8), [Marker(a)] + Further(a), [Marker(b)] + Further(b));
    }
  }

  lemma FirstByte(x: byte, a: Bytes, y: byte, b: Bytes)
    requires x < y
    ensures Lt([x] + a, [y] + b)
  {
  }

  lemma SelfNotLt(a: Bytes)
    ensures !Lt(a, a)
  {
    LtIrreflexive(a);
  }

  /** Encoded strings compare as the strings. */
  lemma EncodedOrder(a: Bytes, b: Bytes)
    ensures Lt(Encoded(a), Encoded(b)) <==> Lt(a, b)
    ensures Encoded(a) == Encoded(b) <==> a == b
  {
    hide Encoded, Lt;
    LtOrder();
    if Lt(a, b) {
      EncodedLt(a, b);
    } else if Lt(b, a) {
      EncodedLt(b, a);
    }
  }

  // ---------- the loops ----------

  /** One group of the loop. */
  lemma EncodeStep(done: Bytes, data: Bytes, idx: nat)
    requires idx <= |data|
    ensures var rest := data[idx..];
      if |rest| >= 8 then done + data[idx..idx+8] + [ENC_MARKER] + Encoded(data[idx+8..]) == done + Encoded(rest)
      else done + rest + Zeros(8 - |rest|) + [ENC_MARKER - (8 - |rest|)] == done + Encoded(rest)
  {
    hide Zeros;
    var rest := data[idx..];
    if |rest| >= 8 {
      var g, e := data[idx..idx+8], Encoded(data[idx+8..]);
      assert rest[..8] == g && rest[8..] == data[idx+8..];
      Regroup(g, [ENC_MARKER], e);
      Regroup(done + g, [ENC_MARKER], e);
      Regroup(done, g, [ENC_MARKER] + e);
    } else {
      var z, m: Bytes := Zeros(8 - |rest|), [ENC_MARKER - (8 - |rest|)];
      Regroup(done, rest, z);
      Regroup(done, rest + z, m);
    }
  }

  /** `EncodeBytes`. */
  method EncodeBytes(data: Bytes) returns (result: Bytes)
    ensures result == Encoded(data)
  {
    hide Encoded, Zeros;
    result := [];
    var idx := 0;
    assert data[0..] == data;
    assert result + Encoded(data) == Encoded(data);
    while idx <= |data|
      invariant 0 <= idx <= |data| + 8
      invariant if idx <= |data| then result + Encoded(data[idx..]) == Encoded(data) else result == Encoded(data)
      decreases |data| + 8 - idx
    {
      var remain := |data| - idx;
      var padCount := 0;
      EncodeStep(result, data, idx);
      if remain >= ENC_GROUP_SIZE {
        result := result + data[idx..idx+8];
      } else {
        padCount := ENC_GROUP_SIZE - remain;
        result := result + data[idx..] + Zeros(padCount);
      }
      result := result + [ENC_MARKER - padCount];
      idx := idx + 8;
    }
  }

  /** A result with bytes decoded before it. */
  function Behind(data: Bytes, r: Result<(Bytes, Bytes)>): Result<(Bytes, Bytes)> {
    match r
    case Err(e) => Err(e)
    case Ok(x) => Ok((x.0, data + x.1))
  }

  lemma BehindMore(data: Bytes, group: Bytes, r: Result<(Bytes, Bytes)>)
    ensures Behind(data, Behind(group, r)) == Behind(data + group, r)
    ensures Behind([], r) == r
  {
    if r.Ok? {
      Regroup(data, group, r.value.1);
      assert [] + r.value.1 == r.value.1;
    }
  }

  /** `DecodeBytes`. */
  method DecodeBytes(input: Bytes) returns (r: Result<(Bytes, Bytes)>)
    ensures r == Decoded(input)
  {
    var b: Bytes, data: Bytes := input, [];
    BehindMore([], [], Decoded(input));
    while true
      invariant Decoded(input) == Behind(data, Decoded(b))
      decreases |b|
    {
      if |b| < 9 { return Err(InsufficientBytes); }
      var group, marker := b[..8], b[8];
      var padCount := ENC_MARKER - marker;
      if padCount > 8 { return Err(InvalidMarker); }
      var realGroupSize := 8 - padCount;
      assert group[..realGroupSize] == b[..realGroupSize];
      BehindMore(data, b[..8], Decoded(b[9..]));
      data := data + group[..realGroupSize];
      b := b[9..];
      if padCount != 0 {
        for i := realGroupSize to 8
          invariant forall j :: realGroupSize <= j < i ==> group[j] == ENC_PAD
        {
          if group[i] != ENC_PAD { return Err(InvalidPadding); }
        }
        return Ok((b, data));
      }
    }
  }

  // ---------- integers ----------

  const TWO_63 := 0x8000_0000_0000_0000
  const TWO_64 := 0x1_0000_0000_0000_0000

  predicate Int64(v: int) {
    -TWO_63 <= v < TWO_63
  }

  /** The two's complement of `v`. */
  function ToUint(v: int): int {
    if v < 0 then v + TWO_64 else v
  }

  function ToInt(u: int): int {
    if u >= TWO_63 then u - TWO_64 else u
  }

  /** Exclusive or with the sign mask: the top bit is flipped. */
  function FlipSign(u: int): int {
    if u >= TWO_63 then u - TWO_63 else u + TWO_63
  }

  /** The last `k` bytes of `u`, the most significant first. */
  function BigEndian(u: nat, k: nat): (s: Bytes)
    ensures |s| == k
  {
    if k == 0 then [] else BigEndian(u / 256, k - 1) + [u % 256]
  }

  function Value(s: Bytes): nat {
    if s == [] then 0 else 256 * Value(s[..|s| - 1]) + s[|s| - 1]
  }

  function Pow256(k: nat): nat {
    if k == 0 then 1 else 256 * Pow256(k - 1)
  }

  lemma {:induction false} ValueBigEndian(u: nat, k: nat)
    requires u < Pow256(k)
    ensures Value(BigEndian(u, k)) == u
  {
    if k > 0 {
      ValueBigEndian(u / 256, k - 1);
      assert BigEndian(u, k)[..k-1] == BigEndian(u / 256, k - 1);
    }
  }

  lemma {:induction false} BigEndianValue(s: Bytes)
    ensures Value(s) < Pow256(|s|) && BigEndian(Value(s), |s|) == s
    decreases |s|
  {
    if s != [] {
      var n := |s| - 1;
      BigEndianValue(s[..n]);
      assert s == s[..n] + [s[n]];
    }
  }

  lemma {:induction false} BigEndianOrder(u: nat, w: nat, k: nat)
    requires u < Pow256(k) && w < Pow256(k)
    ensures Lt(BigEndian(u, k), BigEndian(w, k)) <==> u < w
  {
    hide Value, Lt;
    if k == 0 {
      SelfNotLt([]);
    } else {
      BigEndianOrder(u / 256, w / 256, k - 1);
      ValueBigEndian(u / 256, k - 1);
      ValueBigEndian(w / 256, k - 1);
      AppendOrder(BigEndian(u / 256, k - 1), BigEndian(w / 256, k - 1), u, w);
    }
  }

  lemma AppendOrder(a: Bytes, b: Bytes, u: nat, w: nat)
    requires |a| == |b| && (Lt(a, b) <==> u / 256 < w / 256) && (a == b <==> u / 256 == w / 256)
    ensures Lt(a + [u % 256], b + [w % 256]) <==> u < w
  {
    hide Lt;
    LtAppend(a, u % 256, b, w % 256);
  }

  lemma EightBytes()
    ensures Pow256(8) == TWO_64
  {
    assert Pow256(4) == 0x1_0000_0000;
  }

  /** `EncodeInt` (codec.go:114-119). */
  function EncodeInt(b: Bytes, v: int): Bytes
    requires Int64(v)
  {
    b + BigEndian(FlipSign(ToUint(v)), 8)
  }

  /** `DecodeInt` (codec.go:123-132). */
  function DecodeInt(b: Bytes): Result<(Bytes, int)> {
    if |b| < 8 then Err(InsufficientBytes) else Ok((b[8..], ToInt(FlipSign(Value(b[..8])))))
  }

  lemma DecodeEncodedInt(v: int, rest: Bytes)
    requires Int64(v)
    ensures DecodeInt(EncodeInt([], v) + rest) == Ok((rest, v))
  {
    EightBytes();
    var e := BigEndian(FlipSign(ToUint(v)), 8);
    ValueBigEndian(FlipSign(ToUint(v)), 8);
    assert (EncodeInt([], v) + rest)[..8] == e && (EncodeInt([], v) + rest)[8..] == rest;
  }

  lemma EncodeDecodedInt(b: Bytes)
    requires DecodeInt(b).Ok?
    ensures Int64(DecodeInt(b).value.1) && b == EncodeInt([], DecodeInt(b).value.1) + DecodeInt(b).value.0
  {
    EightBytes();
    BigEndianValue(b[..8]);
    assert b == b[..8] + b[8..];
  }

  lemma EncodeIntOrder(v: int, w: int)
    requires Int64(v) && Int64(w)
    ensures Lt(EncodeInt([], v), EncodeInt([], w)) <==> v < w
    ensures EncodeInt([], v) == EncodeInt([], w) <==> v == w
  {
    EightBytes();
    BigEndianOrder(FlipSign(ToUint(v)), FlipSign(ToUint(w)), 8);
    DecodeEncodedInt(v, []);
    DecodeEncodedInt(w, []);
    var x, y := EncodeInt([], v), EncodeInt([], w);
    assert x == BigEndian(FlipSign(ToUint(v)), 8) && y == BigEndian(FlipSign(ToUint(w)), 8);
    assert x + [] == x && y + [] == y;
  }

  // ---------- keys ----------

  function GenerateTableKey(table: int): Bytes
    requires Int64(table)
  {
    EncodeInt(TABLE_PREFIX, table)
  }

  function GenerateRowKey(table: int, row: int): Bytes
    requires Int64(table) && Int64(row)
  {
    EncodeInt(EncodeInt(TABLE_PREFIX, table) + RECORD_PREFIX, row)
  }

  predicate HasPrefix(b: Bytes, p: Bytes) {
    p <= b
  }

  /** `Key.TableID` (codec.go:41-54). */
  function TableID(key: Bytes): int {
    match Decoded(key)
    case Err(_) => 0
    case Ok(r) =>
      if !HasPrefix(r.1, TABLE_PREFIX) then 0
      else
        match DecodeInt(r.1[1..])
        case Err(_) => 0
        case Ok(x) => x.1
  }

  const META_PREFIX: Bytes := [109]

  /** `Key.MetaOrTable` (codec.go:60-74). */
  function MetaOrTable(key: Bytes): (bool, int) {
    match Decoded(key)
    case Err(_) => (false, 0)
    case Ok(r) =>
      if HasPrefix(r.1, META_PREFIX) then (true, 0)
      else if HasPrefix(r.1, TABLE_PREFIX) then
        match DecodeInt(r.1[1..])
        case Err(_) => (false, 0)
        case Ok(x) => (false, x.1)
      else (false, 0)
  }

  lemma OnePrefix(b: Bytes)
    ensures HasPrefix(b, META_PREFIX) <==> b != [] && b[0] == 109
    ensures HasPrefix(b, TABLE_PREFIX) <==> b != [] && b[0] == 116
  {
  }

  /** It says whether the encoded string starts with 'm', and gives the table id. */
  lemma MetaOrTableIs(key: Bytes)
    ensures MetaOrTable(key).1 == TableID(key)
    ensures MetaOrTable(key).0 <==> exists data: Bytes, rest: Bytes :: key == Encoded([109] + data) + rest
  {
    hide Encoded, DecodeInt;
    if Decoded(key).Ok? {
      EncodeDecoded(key);
      var (rest, data) := Decoded(key).value;
      if HasPrefix(data, META_PREFIX) {
        assert data == [109] + data[1..];
        OnePrefix(data);
      }
    }
    forall data: Bytes, rest: Bytes | key == Encoded([109] + data) + rest ensures MetaOrTable(key).0 {
      DecodeEncoded([109] + data, rest);
    }
  }

  lemma RowKeyParts(table: int, row: int)
    requires Int64(table) && Int64(row)
    ensures GenerateRowKey(table, row) == TABLE_PREFIX + (EncodeInt([], table) + (RECORD_PREFIX + EncodeInt([], row)))
    ensures GenerateTableKey(table) == TABLE_PREFIX + (EncodeInt([], table) + [])
  {
    hide BigEndian;
  }

  /** Row keys sort by table, then by row. */
  lemma RowKeyOrder(t: int, r: int, u: int, s: int)
    requires Int64(t) && Int64(r) && Int64(u) && Int64(s)
    ensures Lt(GenerateRowKey(t, r), GenerateRowKey(u, s)) <==> t < u || (t == u && r < s)
  {
    hide Lt, EncodeInt, GenerateRowKey;
    RowKeyParts(t, r);
    RowKeyParts(u, s);
    var x, y := RECORD_PREFIX + EncodeInt([], r), RECORD_PREFIX + EncodeInt([], s);
    LtSamePrefix(TABLE_PREFIX, EncodeInt([], t) + x, EncodeInt([], u) + y);
    EncodeIntOrder(t, u);
    if t == u {
      LtSamePrefix(EncodeInt([], t), x, y);
      LtSamePrefix(RECORD_PREFIX, EncodeInt([], r), EncodeInt([], s));
      EncodeIntOrder(r, s);
    } else {
      SameLength(t, u);
      LtFirstDecides(EncodeInt([], t), EncodeInt([], u), x, y);
    }
  }

  lemma SameLength(t: int, u: int)
    requires Int64(t) && Int64(u)
    ensures |EncodeInt([], t)| == |EncodeInt([], u)| == 8
  {
  }

  /** All rows of a table lie from its table key up to the next one's, and so do the encoded keys. */
  lemma TableRange(t: int, r: int, u: int)
    requires Int64(t) && Int64(r) && Int64(u)
    ensures Lt(GenerateTableKey(u), GenerateRowKey(t, r)) <==> u <= t
    ensures Lt(Encoded(GenerateTableKey(u)), Encoded(GenerateRowKey(t, r))) <==> u <= t
  {
    hide Lt, EncodeInt, GenerateRowKey, GenerateTableKey, Encoded;
    RowKeyParts(t, r);
    RowKeyParts(u, r);
    var x: Bytes := RECORD_PREFIX + EncodeInt([], r);
    LtSamePrefix(TABLE_PREFIX, EncodeInt([], u) + [], EncodeInt([], t) + x);
    EncodeIntOrder(u, t);
    if t == u {
      LtSamePrefix(EncodeInt([], t), [], x);
      NothingFirst(x);
    } else {
      SameLength(t, u);
      LtFirstDecides(EncodeInt([], u), EncodeInt([], t), [], x);
    }
    EncodedOrder(GenerateTableKey(u), GenerateRowKey(t, r));
  }

  lemma NothingFirst(x: Bytes)
    requires x != []
    ensures Lt([], x)
  {
  }

  /** The bytes of an encoded integer, read as a number, are it plus 2^63. */
  lemma IntFormat(v: int)
    requires Int64(v)
    ensures |EncodeInt([], v)| == 8 && Value(EncodeInt([], v)) == v + 0x8000_0000_0000_0000
  {
    EightBytes();
    ValueBigEndian(FlipSign(ToUint(v)), 8);
    assert EncodeInt([], v) == BigEndian(FlipSign(ToUint(v)), 8);
  }

  /** A row key is 't', the table, 'r', the row. */
  lemma RowKeyFormat(table: int, row: int)
    requires Int64(table) && Int64(row)
    ensures GenerateTableKey(table) == [116] + EncodeInt([], table)
    ensures GenerateRowKey(table, row) == [116] + EncodeInt([], table) + [114] + EncodeInt([], row)
  {
    hide BigEndian;
    RowKeyParts(table, row);
  }

  /** The table id is that of a string that starts with 't' and an integer, and 0 for every other string. */
  lemma TableIDIs(data: Bytes, rest: Bytes)
    ensures (forall v, more :: Int64(v) ==> data != [116] + EncodeInt([], v) + more) ==> TableID(Encoded(data) + rest) == 0
    ensures forall v, more :: Int64(v) && data == [116] + EncodeInt([], v) + more ==> TableID(Encoded(data) + rest) == v
    ensures data == [] || data[0] != 116 ==> TableID(Encoded(data) + rest) == 0
  {
    hide Decoded, Encoded, EncodeInt, DecodeInt;
    OnePrefix(data);
    DecodeEncoded(data, rest);
    forall v, more | Int64(v) && data == [116] + EncodeInt([], v) + more ensures TableID(Encoded(data) + rest) == v {
      assert data[1..] == EncodeInt([], v) + more;
      DecodeEncodedInt(v, more);
    }
    if HasPrefix(data, TABLE_PREFIX) && DecodeInt(data[1..]).Ok? {
      EncodeDecodedInt(data[1..]);
      var (more, v) := DecodeInt(data[1..]).value;
      assert data == [116] + EncodeInt([], v) + more;
    }
  }

  /** What is not an encoded string has none. */
  lemma TableIDNone(key: Bytes)
    requires forall data, rest :: key != Encoded(data) + rest
    ensures TableID(key) == 0
  {
    hide Encoded;
    if Decoded(key).Ok? { EncodeDecoded(key); }
  }

  /** From an encoded table or row key, followed by anything, the table id comes back. */
  lemma TableIDRecovers(table: int, row: int, rest: Bytes)
    requires Int64(table) && Int64(row)
    ensures TableID(Encoded(GenerateRowKey(table, row)) + rest) == table
    ensures TableID(Encoded(GenerateTableKey(table)) + rest) == table
  {
    hide Decoded, Encoded, EncodeInt, GenerateRowKey, GenerateTableKey, DecodeInt;
    RowKeyParts(table, row);
    var x: Bytes := RECORD_PREFIX + EncodeInt([], row);
    DecodeEncoded(GenerateRowKey(table, row), rest);
    DecodeEncoded(GenerateTableKey(table), rest);
    DecodeEncodedInt(table, x);
    DecodeEncodedInt(table, []);
    assert GenerateRowKey(table, row)[1..] == EncodeInt([], table) + x;
    assert GenerateTableKey(table)[1..] == EncodeInt([], table) + [];
  }
}
