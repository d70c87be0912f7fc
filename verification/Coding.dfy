/**
 Byte encodings every format of the store is built from: little-endian fixed integers,
 base-128 varints and length-prefixed slices (util/coding.cc).
 */
module Coding {
  type byte = n: int | 0 <= n < 256
  type bytes = seq<byte>

  const TWO_32: int := 0x1_0000_0000
  const TWO_64: int := 0x1_0000_0000_0000_0000

  type uint32 = n: int | 0 <= n < TWO_32
  type uint64 = n: int | 0 <= n < TWO_64

  datatype Option<T> = None | Some(value: T)

  /** A number read from the front of some bytes, and how many bytes it took. */
  datatype Scan = Scan(value: nat, length: nat)

  // ---- Fixed-width integers ----

  /** The `n` low bytes of `v`, least significant first. */
  function Fixed(v: nat, n: nat): (r: bytes)
    ensures |r| == n
  {
    if n == 0 then [] else [v % 256] + Fixed(v / 256, n - 1)
  }

  function DecodeFixed(s: bytes): nat {
    if s == [] then 0 else s[0] + 256 * DecodeFixed(s[1..])
  }

  function Pow2(n: nat): (r: nat)
    ensures r > 0
  {
    if n == 0 then 1 else 2 * Pow2(n - 1)
  }

  function Pow256(n: nat): (r: nat)
    ensures r > 0
  {
    if n == 0 then 1 else 256 * Pow256(n - 1)
  }

  /** Decoding gives the value back modulo the width. */
  lemma {:induction false} FixedRoundTrip(v: nat, n: nat)
    ensures DecodeFixed(Fixed(v, n)) == v % Pow256(n)
  {
    if n > 0 {
      FixedRoundTrip(v / 256, n - 1);
      assert Fixed(v, n)[1..] == Fixed(v / 256, n - 1);
      SplitMod(v, Pow256(n - 1));
    }
  }

  lemma SplitMod(v: nat, m: nat)
    requires m > 0
    ensures v % (256 * m) == v % 256 + 256 * ((v / 256) % m)
  {
    var q, r := (v / 256) / m, (v / 256) % m;
    assert v / 256 == m * q + r;
    assert v == (256 * m) * q + (v % 256 + 256 * r) by {
      assert 256 * (m * q) == (256 * m) * q;
    }
    ModIs(v, 256 * m, q, v % 256 + 256 * r);
  }

  lemma ModIs(v: nat, m: nat, q: nat, r: nat)
    requires 0 <= r < m && v == m * q + r
    ensures v % m == r && v / m == q
  {
    var q', r' := v / m, v % m;
    assert v == m * q' + r';
    assert m * (q - q') == r' - r by {
      assert m * (q - q') == m * q - m * q';
    }
    Multiples(m, q - q');
  }

  lemma Multiples(m: nat, d: int)
    ensures d >= 1 ==> m * d >= m
    ensures d <= -1 ==> m * d <= 0 - m
  {
    if d >= 1 {
      assert m * d == m + m * (d - 1);
    } else if d <= -1 {
      assert m * d == 0 - m + m * (d + 1);
    }
  }

  /** Every decoded value fits the width, and encoding it gives the bytes back. */
  lemma {:induction false} FixedOfDecoded(s: bytes)
    ensures Fixed(DecodeFixed(s), |s|) == s
  {
    if s != [] {
      FixedOfDecoded(s[1..]);
      var d := DecodeFixed(s[1..]);
      LowByte(s[0], d);
    }
  }

  lemma LowByte(low: nat, high: nat)
    requires low < 256
    ensures (low + 256 * high) % 256 == low && (low + 256 * high) / 256 == high
  {
  }

  lemma {:induction false} DecodedFits(s: bytes)
    ensures DecodeFixed(s) < Pow256(|s|)
  {
    if s != [] {
      DecodedFits(s[1..]);
    }
  }

  lemma Widths()
    ensures Pow256(4) == TWO_32 && Pow256(8) == TWO_64
  {
    assert Pow256(1) == 256;
    assert Pow256(2) == 0x1_0000;
    assert Pow256(3) == 0x100_0000;
    assert Pow256(5) == 0x100_0000_0000;
    assert Pow256(6) == 0x1_0000_0000_0000;
    assert Pow256(7) == 0x100_0000_0000_0000;
  }

  /** 32-bit and 64-bit fields come back whole. */
  lemma Fixed32RoundTrip(v: uint32)
    ensures DecodeFixed(Fixed(v, 4)) == v
  {
    FixedRoundTrip(v, 4);
    Widths();
  }

  lemma Fixed64RoundTrip(v: uint64)
    ensures DecodeFixed(Fixed(v, 8)) == v
  {
    FixedRoundTrip(v, 8);
    Widths();
  }

  function Zeros(n: nat): (r: bytes)
    ensures |r| == n
  {
    seq(n, i => 0)
  }

  lemma Assoc<T>(a: seq<T>, b: seq<T>, c: seq<T>)
    ensures a + b + c == a + (b + c)
  {
  }

  lemma Halved(a: bytes, b: bytes)
    ensures (a + b)[..|a|] == a && (a + b)[|a|..] == b
  {
  }

  lemma InnerSlice(a: bytes, b: bytes, c: bytes, i: nat, j: nat)
    requires i <= j <= |b|
    ensures (a + b + c)[|a| + i..|a| + j] == b[i..j]
  {
  }

  // ---- Varints ----

  /** Seven bits a byte, least significant group first, the top bit set on all but the last. */
  function Varint(v: nat): (r: bytes)
    ensures |r| > 0
  {
    if v < 128 then [v] else [v % 128 + 128] + Varint(v / 128)
  }

  const MAX_VARINT32: nat := 5
  const MAX_VARINT64: nat := 10

  /** A varint at the head of `s` in at most `n` bytes: its unbounded value and its length. */
  function ReadVarint(s: bytes, n: nat): (r: Option<Scan>)
    ensures r.Some? ==> 0 < r.value.length <= |s| && r.value.length <= n
  {
    if n == 0 || s == [] then None
    else if s[0] < 128 then Some(Scan(s[0], 1))
    else
      match ReadVarint(s[1..], n - 1)
      case None => None
      case Some(Scan(v, len)) => Some(Scan(s[0] - 128 + 128 * v, len + 1))
  }

  /** A varint is read back, whatever follows it, if the byte limit reaches that far. */
  lemma {:induction false} VarintRoundTrip(v: nat, rest: bytes, n: nat)
    ensures ReadVarint(Varint(v) + rest, n) == if |Varint(v)| <= n then Some(Scan(v, |Varint(v)|)) else None
  {
    if n > 0 && v >= 128 {
      VarintRoundTrip(v / 128, rest, n - 1);
      assert (Varint(v) + rest)[1..] == Varint(v / 128) + rest;
    }
  }

  function Pow128(n: nat): (r: nat)
    ensures r > 0
  {
    if n == 0 then 1 else 128 * Pow128(n - 1)
  }

  /** The length of a varint is the number of 7-bit groups of its value. */
  lemma {:induction false} VarintLengthIs(v: nat, n: nat)
    requires n > 0
    ensures |Varint(v)| <= n <==> v < Pow128(n)
  {
    if n > 1 {
      if v >= 128 {
        VarintLengthIs(v / 128, n - 1);
        var m := Pow128(n - 1);
        assert v / 128 < m <==> v < 128 * m;
      } else {
        assert Pow128(n) >= 128;
      }
    } else {
      assert Pow128(1) == 128 * Pow128(0);
    }
  }

  lemma Varint32Limit(v: uint32)
    ensures |Varint(v)| <= MAX_VARINT32
  {
    assert Pow128(1) == 128 && Pow128(2) == 0x4000 && Pow128(3) == 0x20_0000 && Pow128(4) == 0x1000_0000;
    assert Pow128(5) == 0x8_0000_0000;
    VarintLengthIs(v, 5);
  }

  lemma Varint64Limit(v: uint64)
    ensures |Varint(v)| <= MAX_VARINT64
  {
    assert Pow128(1) == 128 && Pow128(2) == 0x4000 && Pow128(3) == 0x20_0000 && Pow128(4) == 0x1000_0000;
    assert Pow128(5) == 0x8_0000_0000 && Pow128(6) == 0x400_0000_0000 && Pow128(7) == 0x2_0000_0000_0000;
    assert Pow128(8) == 0x100_0000_0000_0000 && Pow128(9) == 0x8000_0000_0000_0000;
    assert Pow128(10) == 0x40_0000_0000_0000_0000;
    VarintLengthIs(v, 10);
  }

  /** A group in front of the varint of the groups above it. */
  lemma Group(v: nat, above: nat, s: bytes)
    requires v >= 128 && v / 128 == above && |s| > 0 && s[0] == v % 128 + 128 && s[1..] == Varint(above)
    ensures s == Varint(v)
  {
  }

  lemma Shifts(v: nat)
    ensures v / 0x80 / 0x80 == v / 0x4000 && v / 0x4000 / 0x80 == v / 0x20_0000
    ensures v / 0x20_0000 / 0x80 == v / 0x1000_0000
  {
  }

  method EncodeVarint32(v: uint32) returns (s: bytes)
    ensures s == Varint(v)
  {
    Shifts(v);
    if v < 0x80 {
      s := [v];
    } else if v < 0x4000 {
      s := [v % 128 + 128, v / 0x80];
      Group(v, v / 0x80, s);
    } else if v < 0x20_0000 {
      s := [v % 128 + 128, v / 0x80 % 128 + 128, v / 0x4000];
      Group(v / 0x80, v / 0x4000, s[1..]);
      Group(v, v / 0x80, s);
    } else if v < 0x1000_0000 {
      s := [v % 128 + 128, v / 0x80 % 128 + 128, v / 0x4000 % 128 + 128, v / 0x20_0000];
      Group(v / 0x4000, v / 0x20_0000, s[2..]);
      Group(v / 0x80, v / 0x4000, s[1..]);
      Group(v, v / 0x80, s);
    } else {
      s := [v % 128 + 128, v / 0x80 % 128 + 128, v / 0x4000 % 128 + 128, v / 0x20_0000 % 128 + 128, v / 0x1000_0000];
      Group(v / 0x20_0000, v / 0x1000_0000, s[3..]);
      Group(v / 0x4000, v / 0x20_0000, s[2..]);
      Group(v / 0x80, v / 0x4000, s[1..]);
      Group(v, v / 0x80, s);
    }
  }

  method EncodeVarint64(v: uint64) returns (s: bytes)
    ensures s == Varint(v)
  {
    s := [];
    var left := v;
    while left >= 128
      invariant 0 <= left < TWO_64 && s + Varint(left) == Varint(v)
    {
      VarintStep(s, left);
      s := s + [left % 128 + 128];
      left := left / 128;
    }
    s := s + [left];
  }

  lemma VarintStep(s: bytes, v: nat)
    requires v >= 128
    ensures s + [v % 128 + 128] + Varint(v / 128) == s + Varint(v)
  {
  }

  /** How many bytes a varint takes, without writing it. */
  method VarintLength(v: uint64) returns (len: nat)
    ensures len == |Varint(v)|
  {
    len := 1;
    var left := v;
    while left >= 128
      invariant 0 <= left < TWO_64 && len - 1 + |Varint(left)| == |Varint(v)|
    {
      left := left / 128;
      len := len + 1;
    }
  }

  /**
   The scan of both Get functions: at most `maxBytes` bytes, the groups added up modulo the
   width of the result (adding equals the source's bitwise or, since the groups do not overlap).
   */
  method ScanVarint(input: bytes, maxBytes: nat, modulus: int) returns (r: Option<Scan>)
    requires modulus > 0
    ensures r == ModScan(ReadVarint(input, maxBytes), modulus)
  {
    var result, scale, i := 0, 1, 0;
    ghost var sum := 0;
    while i < maxBytes && i < |input|
      invariant 0 <= i <= |input| && i <= maxBytes && result == sum % modulus && 0 <= sum && 0 < scale
      invariant ReadVarint(input, maxBytes) == Rest(ReadVarint(input[i..], maxBytes - i), sum, scale, i)
    {
      var b := input[i];
      AddMod(sum, (b % 128) * scale, modulus);
      RestStep(input[i..], maxBytes - i, sum, scale, i);
      assert input[i..][1..] == input[i + 1..];
      result := (result + (b % 128) * scale) % modulus;
      sum := sum + (b % 128) * scale;
      scale := 128 * scale;
      i := i + 1;
      if b < 128 {
        return Some(Scan(result, i));
      }
    }
    r := None;
  }

  function ModScan(r: Option<Scan>, modulus: int): Option<Scan>
    requires modulus > 0
  {
    if r.None? then None else Some(Scan(r.value.value % modulus, r.value.length))
  }

  /** The whole varint, from what was read before and what the tail holds. */
  ghost function Rest(tail: Option<Scan>, sum: nat, scale: nat, i: nat): Option<Scan> {
    if tail.None? then None else Some(Scan(sum + scale * tail.value.value, i + tail.value.length))
  }

  lemma RestStep(s: bytes, n: nat, sum: nat, scale: nat, i: nat)
    requires s != [] && n > 0
    ensures Rest(ReadVarint(s, n), sum, scale, i) ==
            if s[0] < 128 then Some(Scan(sum + (s[0] % 128) * scale, i + 1))
            else Rest(ReadVarint(s[1..], n - 1), sum + (s[0] % 128) * scale, 128 * scale, i + 1)
  {
    ReadVarintStep(s, n);
    hide ReadVarint;
    var tail := ReadVarint(s[1..], n - 1);
    if s[0] < 128 {
      assert s[0] % 128 == s[0];
      Commute(scale, s[0]);
    } else if tail.Some? {
      assert s[0] % 128 == s[0] - 128;
      Regroup(scale, s[0] - 128, tail.value.value);
    }
  }

  lemma Commute(a: nat, b: nat)
    ensures a * b == b * a
  {
  }

  lemma ReadVarintStep(s: bytes, n: nat)
    requires s != [] && n > 0
    ensures ReadVarint(s, n) ==
            if s[0] < 128 then Some(Scan(s[0], 1))
            else if ReadVarint(s[1..], n - 1).None? then None
            else var t := ReadVarint(s[1..], n - 1).value; Some(Scan(s[0] - 128 + 128 * t.value, t.length + 1))
  {
  }

  lemma AddMod(a: nat, b: nat, m: nat)
    requires m > 0
    ensures (a % m + b) % m == (a + b) % m
  {
    var q, r := (a % m + b) / m, (a % m + b) % m;
    assert a == m * (a / m) + a % m;
    assert a + b == m * (a / m + q) + r by {
      assert m * (a / m + q) == m * (a / m) + m * q;
    }
    ModIs(a + b, m, a / m + q, r);
  }

  lemma Regroup(scale: nat, low: nat, high: nat)
    ensures scale * (low + 128 * high) == low * scale + 128 * scale * high
  {
  }

  method GetVarint32(input: bytes) returns (r: Option<(uint32, bytes)>)
    ensures forall v: uint32, rest: bytes :: input == Varint(v) + rest ==> r == Some((v, rest))
    ensures r.None? <==> ReadVarint(input, MAX_VARINT32).None?
    ensures r == Varint32(input)
  {
    var scan := ScanVarint(input, MAX_VARINT32, TWO_32);
    r := if scan.None? then None else Some((scan.value.value, input[scan.value.length..]));
    forall v: uint32, rest: bytes | input == Varint(v) + rest
      ensures r == Some((v, rest))
    {
      VarintRoundTrip(v, rest, MAX_VARINT32);
      Varint32Limit(v);
    }
  }

  method GetVarint64(input: bytes) returns (r: Option<(uint64, bytes)>)
    ensures forall v: uint64, rest: bytes :: input == Varint(v) + rest ==> r == Some((v, rest))
    ensures r.None? <==> ReadVarint(input, MAX_VARINT64).None?
    ensures r == Varint64(input)
  {
    var scan := ScanVarint(input, MAX_VARINT64, TWO_64);
    r := if scan.None? then None else Some((scan.value.value, input[scan.value.length..]));
    forall v: uint64, rest: bytes | input == Varint(v) + rest
      ensures r == Some((v, rest))
    {
      VarintRoundTrip(v, rest, MAX_VARINT64);
      Varint64Limit(v);
    }
  }

  /** What the two readers deliver: the value cut to the width, and the bytes after it. */
  function Varint32(input: bytes): (r: Option<(uint32, bytes)>)
    ensures r.Some? ==> |r.value.1| < |input|
  {
    match ReadVarint(input, MAX_VARINT32)
    case None => None
    case Some(Scan(v, len)) => Some((v % TWO_32, input[len..]))
  }

  function Varint64(input: bytes): (r: Option<(uint64, bytes)>)
    ensures r.Some? ==> |r.value.1| < |input|
  {
    match ReadVarint(input, MAX_VARINT64)
    case None => None
    case Some(Scan(v, len)) => Some((v % TWO_64, input[len..]))
  }

  // ---- Length-prefixed slices ----

  function Prefixed(s: bytes): bytes
    requires |s| < TWO_32
  {
    Varint(|s|) + s
  }

  method PutPrefixed(dst0: bytes, s: bytes) returns (dst: bytes)
    requires |s| < TWO_32
    ensures dst == dst0 + Prefixed(s)
  {
    var len := EncodeVarint32(|s|);
    dst := dst0 + len + s;
  }

  function Slice32(input: bytes): (r: Option<(bytes, bytes)>)
    ensures r.Some? ==> |r.value.1| < |input|
  {
    match Varint32(input)
    case None => None
    case Some((len, rest)) => if len <= |rest| then Some((rest[..len], rest[len..])) else None
  }

  method GetLengthPrefixedSlice(input: bytes) returns (r: Option<(bytes, bytes)>)
    ensures forall s: bytes, rest: bytes :: |s| < TWO_32 && input == Prefixed(s) + rest ==> r == Some((s, rest))
    ensures r == Slice32(input)
  {
    var head := GetVarint32(input);
    forall s: bytes, rest: bytes | |s| < TWO_32 && input == Prefixed(s) + rest
      ensures Slice32(input) == Some((s, rest))
    {
      SliceRoundTrip(s, rest);
    }
    match head
    case None => r := None;
    case Some((len, tail)) => r := if len <= |tail| then Some((tail[..len], tail[len..])) else None;
  }

  lemma Varint32RoundTrip(v: uint32, rest: bytes)
    ensures Varint32(Varint(v) + rest) == Some((v, rest))
  {
    VarintRoundTrip(v, rest, MAX_VARINT32);
    Varint32Limit(v);
    Halved(Varint(v), rest);
  }

  lemma Varint64RoundTrip(v: uint64, rest: bytes)
    ensures Varint64(Varint(v) + rest) == Some((v, rest))
  {
    VarintRoundTrip(v, rest, MAX_VARINT64);
    Varint64Limit(v);
    Halved(Varint(v), rest);
  }

  lemma SliceRoundTrip(s: bytes, rest: bytes)
    requires |s| < TWO_32
    ensures Slice32(Prefixed(s) + rest) == Some((s, rest))
  {
    assert Prefixed(s) + rest == Varint(|s|) + (s + rest);
    Varint32RoundTrip(|s|, s + rest);
    Halved(s, rest);
  }
}
