/**
 The Bloom filter: bits set by double hashing, tested by the same walk (util/bloom.cc).
 */
module Bloom {
  import opened Coding

  predicate TestBit(b: nat, i: nat) {
    if i == 0 then b % 2 == 1 else TestBit(b / 2, i - 1)
  }

  /** Bitwise or with one bit. */
  function OrBit(b: nat, i: nat): nat {
    if i == 0 then b / 2 * 2 + 1 else OrBit(b / 2, i - 1) * 2 + b % 2
  }

  /** The bit is set afterwards, and every other bit is what it was. */
  lemma {:induction false} OrBitSets(b: nat, i: nat, j: nat)
    ensures TestBit(OrBit(b, i), j) <==> j == i || TestBit(b, j)
  {
    if i > 0 && j > 0 {
      OrBitSets(b / 2, i - 1, j - 1);
    }
  }

  lemma {:induction false} OrBitFits(b: nat, i: nat, n: nat)
    requires b < Pow2(n) && i < n
    ensures OrBit(b, i) < Pow2(n)
  {
    if i > 0 {
      OrBitFits(b / 2, i - 1, n - 1);
    }
  }

  function SetBit(b: byte, i: nat): byte
    requires i < 8
  {
    assert Pow2(4) == 16 && Pow2(8) == 256;
    OrBitFits(b, i, 8);
    OrBit(b, i)
  }

  type Hash = bytes -> uint32

  function Rotated(h: uint32): uint32 {
    h / 0x2_0000 + (h % 0x2_0000) * 0x8000
  }

  function Sum32(a: uint32, b: uint32): uint32 {
    (a + b) % TWO_32
  }

  /** The hash before probe `j`. */
  function Probe(h: uint32, delta: uint32, j: nat): uint32 {
    if j == 0 then h else Sum32(Probe(h, delta, j - 1), delta)
  }

  predicate Marked(table: bytes, pos: nat)
    requires pos < 8 * |table|
  {
    TestBit(table[pos / 8], pos % 8)
  }

  /** The bit a probe falls on. */
  function Position(h: uint32, bits: nat): (pos: nat)
    requires bits > 0
    ensures pos < bits
  {
    h % bits
  }

  /** The first `k` probes of the key are marked. */
  predicate ProbesMarked(table: bytes, h: uint32, k: nat)
    requires table != []
  {
    forall j :: 0 <= j < k ==> Marked(table, Position(Probe(h, Rotated(h), j), 8 * |table|))
  }

  /** The position is one of the first `k` probes. */
  ghost predicate Probed(h: uint32, k: nat, bits: nat, pos: nat)
    requires bits > 0
  {
    exists j :: 0 <= j < k && Position(Probe(h, Rotated(h), j), bits) == pos
  }

  /** Nothing but probes of the keys is marked. */
  ghost predicate OnlyProbes(table: bytes, hashes: seq<uint32>, k: nat) {
    forall pos: nat :: pos < 8 * |table| && Marked(table, pos) ==>
      exists n :: 0 <= n < |hashes| && Probed(hashes[n], k, 8 * |table|, pos)
  }

  const MAX_PROBES: nat := 30

  /** 0.69 probes for each bit per key, at least one and at most thirty. */
  function ProbesFor(bitsPerKey: nat): (k: nat)
    ensures 1 <= k <= MAX_PROBES
    ensures 1 < k < MAX_PROBES ==> 100 * k <= 69 * bitsPerKey < 100 * (k + 1)
  {
    var k := bitsPerKey * 69 / 100;
    if k < 1 then 1 else if k > MAX_PROBES then MAX_PROBES else k
  }

  /** The bytes of the bit table: at least eight, else enough for the bits. */
  function TableSize(keys: nat, bitsPerKey: nat): (n: nat)
    ensures n >= 8 && 8 * n >= keys * bitsPerKey && (n == 8 || 8 * n < keys * bitsPerKey + 8)
  {
    ((if keys * bitsPerKey < 64 then 64 else keys * bitsPerKey) + 7) / 8
  }

  /** What the test of a filter comes to. */
  predicate MayMatch(hash: Hash, key: bytes, filter: bytes) {
    && |filter| >= 2
    && var k := filter[|filter| - 1];
       k > MAX_PROBES || ProbesMarked(filter[..|filter| - 1], hash(key), k)
  }

  lemma NothingMarked(table: bytes, k: nat)
    requires forall i :: 0 <= i < |table| ==> table[i] == 0
    ensures OnlyProbes(table, [], k)
  {
    forall pos: nat | pos < 8 * |table|
      ensures !Marked(table, pos)
    {
      NoBits(pos % 8);
    }
  }

  /** A filter after other bytes: its table, and the number of probes in its last byte. */
  lemma FilterParts(before: bytes, table: bytes, k: byte)
    ensures
      var all := before + table + [k];
      && all[|before|..] == table + [k] && all[|before|..|all| - 1] == table && all[|all| - 1] == k
      && (table + [k])[..|table|] == table && (table + [k])[|table|] == k
  {
  }

  lemma MarkedIn(filter: bytes, n: nat, pos: nat)
    requires n <= |filter| && pos < 8 * n
    ensures Marked(filter[..n], pos) == TestBit(filter[pos / 8], pos % 8)
  {
  }

  lemma NoProbe(table: bytes, h: uint32)
    requires table != []
    ensures ProbesMarked(table, h, 0)
  {
  }

  lemma ProbeMore(table: bytes, h: uint32, j: nat, k: nat)
    requires table != [] && j < k
    ensures
      var marked := Marked(table, Position(Probe(h, Rotated(h), j), 8 * |table|));
      && (ProbesMarked(table, h, j + 1) <==> ProbesMarked(table, h, j) && marked)
      && (ProbesMarked(table, h, k) ==> marked)
  {
    hide Marked, Probe, Position;
  }

  class BloomFilterPolicy {
    const hash: Hash
    const bitsPerKey: nat
    const probes: nat

    constructor (hash: Hash, bitsPerKey: nat)
      ensures this.hash == hash && this.bitsPerKey == bitsPerKey && probes == ProbesFor(bitsPerKey)
    {
      this.hash, this.bitsPerKey, probes := hash, bitsPerKey, ProbesFor(bitsPerKey);
    }

    /** Append a filter with the probes of all the keys and no other bits. */
    method CreateFilter(keys: seq<bytes>, dst0: bytes) returns (dst: bytes)
      requires 1 <= probes <= MAX_PROBES
      ensures dst0 <= dst && |dst| == |dst0| + TableSize(|keys|, bitsPerKey) + 1 && dst[|dst| - 1] == probes
      ensures forall key :: key in keys ==> MayMatch(hash, key, dst[|dst0|..])
      ensures OnlyProbes(dst[|dst0|..|dst| - 1], Hashes(keys), probes)
    {
      var bits := |keys| * bitsPerKey;
      if bits < 64 {
        bits := 64;
      }
      var size := (bits + 7) / 8;
      bits := 8 * size;
      var table := new byte[size](i => 0);
      NothingMarked(table[..], probes);
      hide OnlyProbes, ProbesMarked;
      assert keys[..0] == [] && Hashes([]) == [];
      hide Hashes;
      for i := 0 to |keys|
        invariant forall n :: 0 <= n < i ==> ProbesMarked(table[..], hash(keys[n]), probes)
        invariant OnlyProbes(table[..], Hashes(keys[..i]), probes)
      {
        OneMoreHash(keys, i);
        AddHash(table, hash(keys[i]), keys[..i]);
      }
      assert keys[..|keys|] == keys;
      dst := dst0 + table[..] + [probes];
      FilterParts(dst0, table[..], probes);
      forall key | key in keys
        ensures MayMatch(hash, key, dst[|dst0|..])
      {
        var n: nat :| n < |keys| && keys[n] == key;
        assert ProbesMarked(table[..], hash(keys[n]), probes);
      }
    }

    lemma OneMoreHash(keys: seq<bytes>, i: nat)
      requires i < |keys|
      ensures Hashes(keys[..i + 1]) == Hashes(keys[..i]) + [hash(keys[i])]
    {
    }

    function Hashes(keys: seq<bytes>): (r: seq<uint32>)
      ensures |r| == |keys|
    {
      seq(|keys|, i requires 0 <= i < |keys| => hash(keys[i]))
    }

    method AddHash(table: array<byte>, h0: uint32, ghost before: seq<bytes>)
      requires table.Length > 0
      requires forall n :: 0 <= n < |before| ==> ProbesMarked(table[..], hash(before[n]), probes)
      requires OnlyProbes(table[..], Hashes(before), probes)
      modifies table
      ensures ProbesMarked(table[..], h0, probes)
      ensures forall n :: 0 <= n < |before| ==> ProbesMarked(table[..], hash(before[n]), probes)
      ensures OnlyProbes(table[..], Hashes(before) + [h0], probes)
    {
      hide SetBit, Probe, TestBit, OnlyProbes, Position, Sum32;
      var h, delta := h0, Rotated(h0);
      var bits := 8 * table.Length;
      ghost var hashes := Hashes(before) + [h0];
      MoreHashes(table[..], Hashes(before), h0, probes);
      FirstProbe(h0);
      for j := 0 to probes
        invariant h == Probe(h0, delta, j) && ProbesMarked(table[..], h0, j)
        invariant forall n :: 0 <= n < |before| ==> ProbesMarked(table[..], hash(before[n]), probes)
        invariant OnlyProbes(table[..], hashes, probes)
      {
        var bitpos := Position(h, bits);
        ghost var was := table[..];
        table[bitpos / 8] := SetBit(table[bitpos / 8], bitpos % 8);
        MarkOne(was, table[..], bitpos, h0, j);
        OneProbeMore(was, table[..], bitpos, hashes, probes, j);
        forall n | 0 <= n < |before|
          ensures ProbesMarked(table[..], hash(before[n]), probes)
        {
          StillMarked(was, table[..], bitpos, hash(before[n]), probes);
        }
        NextProbe(h0, delta, j);
        h := Sum32(h, delta);
      }
    }

    method KeyMayMatch(key: bytes, filter: bytes) returns (r: bool)
      ensures r == MayMatch(hash, key, filter)
    {
      var len := |filter|;
      if len < 2 {
        return false;
      }
      var bits := (len - 1) * 8;
      var k := filter[len - 1];
      if k > MAX_PROBES {
        return true;
      }
      var h := hash(key);
      var delta := Rotated(h);
      ghost var table := filter[..len - 1];
      FirstProbe(h);
      hide Probe, TestBit, Marked, Position, ProbesMarked, Rotated, Sum32;
      NoProbe(table, h);
      for j := 0 to k
        invariant h == Probe(hash(key), delta, j) && ProbesMarked(table, hash(key), j)
      {
        var bitpos := Position(h, bits);
        MarkedIn(filter, len - 1, bitpos);
        ProbeMore(table, hash(key), j, k);
        if !TestBit(filter[bitpos / 8], bitpos % 8) {
          return false;
        }
        NextProbe(hash(key), delta, j);
        h := Sum32(h, delta);
      }
      r := true;
    }
  }

  /** Setting a bit keeps what is marked. */
  lemma KeepsMark(was: bytes, now: bytes, bitpos: nat, pos: nat)
    requires |was| == |now| && bitpos < 8 * |was| && pos < 8 * |was|
    requires now == was[bitpos / 8 := SetBit(was[bitpos / 8], bitpos % 8)]
    ensures Marked(was, pos) ==> Marked(now, pos)
    ensures Marked(now, bitpos)
  {
    OrBitSets(was[bitpos / 8], bitpos % 8, pos % 8);
    OrBitSets(was[bitpos / 8], bitpos % 8, bitpos % 8);
  }

  lemma StillMarked(was: bytes, now: bytes, bitpos: nat, h: uint32, k: nat)
    requires |was| == |now| > 0 && bitpos < 8 * |was|
    requires now == was[bitpos / 8 := SetBit(was[bitpos / 8], bitpos % 8)]
    requires ProbesMarked(was, h, k)
    ensures ProbesMarked(now, h, k)
  {
    hide SetBit, Probe;
    forall j | 0 <= j < k
      ensures Marked(now, Position(Probe(h, Rotated(h), j), 8 * |now|))
    {
      KeepsMark(was, now, bitpos, Position(Probe(h, Rotated(h), j), 8 * |now|));
    }
  }

  lemma MarkOne(was: bytes, now: bytes, bitpos: nat, h0: uint32, j: nat)
    requires |was| == |now| > 0 && bitpos == Position(Probe(h0, Rotated(h0), j), 8 * |was|)
    requires now == was[bitpos / 8 := SetBit(was[bitpos / 8], bitpos % 8)]
    requires ProbesMarked(was, h0, j)
    ensures ProbesMarked(now, h0, j + 1)
  {
    hide SetBit, Probe;
    StillMarked(was, now, bitpos, h0, j);
    KeepsMark(was, now, bitpos, bitpos);
  }

  lemma FirstProbe(h: uint32)
    ensures Probe(h, Rotated(h), 0) == h
  {
  }

  lemma NextProbe(h: uint32, delta: uint32, j: nat)
    ensures Probe(h, delta, j + 1) == Sum32(Probe(h, delta, j), delta)
  {
  }

  lemma {:induction false} NoBits(i: nat)
    ensures !TestBit(0, i)
  {
    if i > 0 {
      NoBits(i - 1);
    }
  }

  lemma MoreHashes(table: bytes, hashes: seq<uint32>, h: uint32, k: nat)
    requires OnlyProbes(table, hashes, k)
    ensures OnlyProbes(table, hashes + [h], k)
  {
    hide Probed, Marked;
    forall pos: nat | pos < 8 * |table| && Marked(table, pos)
      ensures exists n :: 0 <= n < |hashes + [h]| && Probed((hashes + [h])[n], k, 8 * |table|, pos)
    {
      var n :| 0 <= n < |hashes| && Probed(hashes[n], k, 8 * |table|, pos);
      assert (hashes + [h])[n] == hashes[n];
    }
  }

  /** Setting a probe of the last hash marks nothing else. */
  lemma OneProbeMore(was: bytes, now: bytes, bitpos: nat, hashes: seq<uint32>, k: nat, j: nat)
    requires |was| == |now| > 0 && hashes != [] && j < k
    requires var h := hashes[|hashes| - 1]; bitpos == Position(Probe(h, Rotated(h), j), 8 * |was|)
    requires now == was[bitpos / 8 := SetBit(was[bitpos / 8], bitpos % 8)]
    requires OnlyProbes(was, hashes, k)
    ensures OnlyProbes(now, hashes, k)
  {
    hide SetBit, Probe, Marked;
    forall pos: nat | pos < 8 * |now| && Marked(now, pos)
      ensures exists n :: 0 <= n < |hashes| && Probed(hashes[n], k, 8 * |now|, pos)
    {
      OnlyMark(was, now, bitpos, pos);
      if pos == bitpos {
        assert Probed(hashes[|hashes| - 1], k, 8 * |now|, pos);
      }
    }
  }

  lemma OnlyMark(was: bytes, now: bytes, bitpos: nat, pos: nat)
    requires |was| == |now| && bitpos < 8 * |was| && pos < 8 * |was|
    requires now == was[bitpos / 8 := SetBit(was[bitpos / 8], bitpos % 8)]
    ensures Marked(now, pos) ==> Marked(was, pos) || pos == bitpos
  {
    OrBitSets(was[bitpos / 8], bitpos % 8, pos % 8);
  }
}
