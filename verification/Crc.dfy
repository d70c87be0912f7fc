/**
 Stored checksums: the checksum itself stays abstract, its masked form is what files hold
 (util/crc32c.h).
 */
module Crc {
  import opened Coding

  /** The checksum stays abstract: any function of the bytes it covers. */
  type Checksum = bytes -> uint32

  const MASK_DELTA: int := 0xa282_ead8

  function Mask(c: uint32): uint32 {
    (c / 0x8000 + (c % 0x8000) * 0x2_0000 + MASK_DELTA) % TWO_32
  }

  function Unmask(m: uint32): uint32 {
    var rot := (m - MASK_DELTA) % TWO_32;
    rot / 0x2_0000 + (rot % 0x2_0000) * 0x8000
  }

  lemma MaskRoundTrip(c: uint32)
    ensures Unmask(Mask(c)) == c
  {
    var high, low := c / 0x8000, c % 0x8000;
    var r := high + low * 0x2_0000;
    assert (Mask(c) - MASK_DELTA) % TWO_32 == r;
    Halves(high, low);
  }

  lemma UnmaskRoundTrip(m: uint32)
    ensures Mask(Unmask(m)) == m
  {
    var rot := (m - MASK_DELTA) % TWO_32;
    var high, low := rot / 0x2_0000, rot % 0x2_0000;
    HalvesBack(high, low);
    assert (rot + MASK_DELTA) % TWO_32 == m;
  }

  lemma HalvesBack(high: nat, low: nat)
    requires high < 0x8000
    ensures (high + low * 0x8000) / 0x8000 == low && (high + low * 0x8000) % 0x8000 == high
  {
  }

  lemma Halves(high: nat, low: nat)
    requires high < 0x2_0000
    ensures (high + low * 0x2_0000) / 0x2_0000 == low && (high + low * 0x2_0000) % 0x2_0000 == high
  {
  }

  function DecodeCrc(s: bytes): (r: uint32)
    requires |s| == 4
    ensures r == DecodeFixed(s)
  {
    DecodedFits(s);
    Widths();
    DecodeFixed(s)
  }
}
