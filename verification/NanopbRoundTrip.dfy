/**
 Decoding what was encoded (nanopb pb_encode.c against pb_decode.c): every message comes back,
 unless text in it fills its buffer without a terminator.
 */
module NanopbRoundTrip {
  import opened Coding
  import opened Nanopb
  import opened NanopbEncode
  import opened NanopbDecode

  // ---- Numbers ----

  lemma SevenMore(n: nat)
    ensures Pow2(n + 7) == 128 * Pow2(n)
  {
    assert Pow2(n + 7) == 2 * Pow2(n + 6) && Pow2(n + 6) == 2 * Pow2(n + 5) && Pow2(n + 5) == 2 * Pow2(n + 4);
    assert Pow2(n + 4) == 2 * Pow2(n + 3) && Pow2(n + 3) == 2 * Pow2(n + 2) && Pow2(n + 2) == 2 * Pow2(n + 1);
  }

  lemma GroupPlaces()
    ensures Pow2(7) == 0x80 && Pow2(14) == 0x4000 && Pow2(21) == 0x20_0000 && Pow2(28) == 0x1000_0000
    ensures Pow2(32) == TWO_32
  {
    SevenMore(0);
    SevenMore(7);
    SevenMore(14);
    SevenMore(21);
    Width32();
  }

  lemma Split(w: nat, scale: nat)
    ensures w * scale == (w % 128) * scale + (w / 128) * (128 * scale)
  {
    var q, r := w / 128, w % 128;
    assert w == 128 * q + r;
    assert (128 * q + r) * scale == 128 * q * scale + r * scale;
    assert q * (128 * scale) == 128 * q * scale;
  }

  lemma GroupAdded(result: nat, g: nat, bitpos: nat)
    requires bitpos < 32 && result < Pow2(bitpos) && g < 128 && result + g * Pow2(bitpos) < TWO_32
    ensures Or(result, Shifted(g, bitpos), 32) == result + g * Pow2(bitpos)
  {
    hide Or, Pow2;
    Width32();
    OrDisjoint(result, g, bitpos, 32);
  }

  lemma Grows(w: nat, bound: nat, scale: nat)
    ensures w >= bound ==> w * scale >= bound * scale
  {
    if w >= bound {
      assert w * scale == bound * scale + (w - bound) * scale;
    }
  }

  /** One byte of the tail while its group still fits. */
  lemma TailStep(input: bytes, bitpos: nat, result: nat)
    requires input != [] && bitpos in {7, 14, 21, 28} && result < Pow2(bitpos)
    requires result + input[0] % 128 * Pow2(bitpos) < TWO_32
    ensures Varint32Tail(input, bitpos, result) ==
            if input[0] >= 128 then Varint32Tail(input[1..], bitpos + 7, result + input[0] % 128 * Pow2(bitpos))
            else if bitpos == 28 && input[0] >= 16 then Bad
            else Parsed(result + input[0] % 128 * Pow2(bitpos), input[1..])
  {
    hide Or, Shifted, Pow2;
    GroupAdded(result, input[0] % 128, bitpos);
  }

  /** What the groups add up to when one is taken off. */
  lemma GroupBounds(w: nat, scale: nat, result: nat)
    requires result < scale && result + w * scale < TWO_32
    ensures result + w % 128 * scale < TWO_32 && result + w % 128 * scale < 128 * scale
    ensures result + w % 128 * scale + (w / 128) * (128 * scale) == result + w * scale
    ensures 0x1000_0000 <= scale ==> w < 16
  {
    Split(w, scale);
    Grows(127, w % 128, scale);
    Grows(w, 16, scale);
    assert (w / 128) * (128 * scale) >= 0;
  }

  /** The groups of a varint after the first are put in place one by one. */
  lemma {:induction false} TailRoundTrip(w: nat, rest: bytes, bitpos: nat, result: nat)
    requires bitpos in {7, 14, 21, 28} && result < Pow2(bitpos) && result + w * Pow2(bitpos) < TWO_32
    ensures Varint32Tail(Varint(w) + rest, bitpos, result) == Parsed(result + w * Pow2(bitpos), rest)
    decreases 28 - bitpos
  {
    hide Or, Shifted, Pow2, Varint32Tail;
    GroupPlaces();
    GroupBounds(w, Pow2(bitpos), result);
    var input := Varint(w) + rest;
    if w < 128 {
      assert input[1..] == rest;
      TailStep(input, bitpos, result);
    } else {
      assert input[1..] == Varint(w / 128) + rest;
      TailStep(input, bitpos, result);
      TailRoundTrip(w / 128, rest, bitpos + 7, result + w % 128 * Pow2(bitpos));
    }
  }

  /** The 32-bit reader inverts the encoder below 2^32. */
  lemma Varint32Inverts(v: uint32, rest: bytes)
    ensures DecodeVarint32(Varint(v) + rest) == Parsed(v, rest)
  {
    hide Or, Pow2, Varint32Tail;
    var input := Varint(v) + rest;
    GroupPlaces();
    if v < 128 {
      assert input[1..] == rest;
    } else {
      assert input[1..] == Varint(v / 128) + rest;
      TailRoundTrip(v / 128, rest, 7, v % 128);
    }
  }

  lemma Quotient(a: int, m: int, q: int, r: int)
    requires 0 <= r < m && a == m * q + r
    ensures a % m == r
  {
    var q', r' := a / m, a % m;
    assert a == m * q' + r';
    assert m * (q - q') == r' - r by {
      assert m * (q - q') == m * q - m * q';
    }
    Multiples(m, q - q');
  }

  lemma WrapBack(n: int, m: int)
    requires 0 < m && -m <= n < 2 * m
    ensures n % m == if n < 0 then n + m else if n < m then n else n - m
  {
    if n < 0 {
      Quotient(n, m, -1, n + m);
    } else if n < m {
      Quotient(n, m, 0, n);
    } else {
      Quotient(n, m, 1, n - m);
    }
  }

  /** A signed number within a width is its own value there. */
  lemma SignedIs(n: int, size: nat)
    requires IntSize(size) && 0 - Half(size) <= n < Half(size)
    ensures Signed(n, size) == n
  {
    WrapBack(n, 2 * Half(size));
  }

  lemma LowWord(n: int)
    requires 0 - 0x8000_0000 <= n < 0x8000_0000
    ensures (n % TWO_64) % TWO_32 == n % TWO_32
  {
    WrapBack(n, TWO_64);
    WrapBack(n, TWO_32);
    if n < 0 {
      Quotient(n + TWO_64, TWO_32, TWO_32 - 1, n + TWO_32);
    }
  }

  lemma SignedRoundTrip(n: int, size: nat)
    requires IntSize(size) && 0 - Half(size) <= n < Half(size)
    ensures ToSigned(n % TWO_64, size) == Some(n)
  {
    SignedIs(n, size);
    if size == 8 {
      WrapBack(n, TWO_64);
      WrapBack(n % TWO_64, TWO_64);
    } else {
      LowWord(n);
      WrapBack(n, TWO_32);
      WrapBack(n % TWO_32, TWO_32);
    }
  }

  lemma UnsignedRoundTrip(n: nat, size: nat)
    requires IntSize(size) && n < 2 * Half(size)
    ensures n % TWO_64 == n && ToUnsigned(n % TWO_64, size) == Some(n)
  {
  }

  lemma ZigZagRoundTrip(n: int, size: nat)
    requires IntSize(size) && 0 - Half(size) <= n < Half(size)
    ensures ZigZag(n) < TWO_64 && ToZigZagged(ZigZag(n), size) == Some(n)
  {
    SignedIs(n, size);
    assert UnZigZag(ZigZag(n)) == n;
  }

  lemma CountedRoundTrip(s: bytes, rest: bytes)
    requires |s| < TWO_32
    ensures TakeCounted(Counted(s) + rest) == Parsed(s, rest)
  {
    assert Counted(s) + rest == Varint(|s|) + (s + rest);
    Varint32Inverts(|s|, s + rest);
    Halved(s, rest);
  }

  lemma TagRoundTrip(tag: nat, wt: nat, rest: bytes)
    requires 1 <= tag < TAG_LIMIT && wt < 8
    ensures DecodeTag(TagBytes(tag, wt) + rest) == TagRead(tag, wt, rest)
  {
    hide Varint, DecodeVarint32;
    Varint32Inverts(tag * 8 + wt, rest);
  }

  lemma ScalarRoundTrip(f: Field, v: Value, rest: bytes, before: Value)
    requires FieldOk(f) && ValueFits(f, v) && ValueFits(f, before) && ValueEncodes(f, v)
    requires Packable(f.kind)
    ensures ReadValue(f, EncodeValue(f, v) + rest, before) == Parsed(v, rest)
  {
    hide Varint, DecodeVarint32, Varint64, ToSigned, ToUnsigned, ToZigZagged, Fixed, DecodeFixed;
    match f.kind
    case LBool =>
      Varint32Inverts(if v.b then 1 else 0, rest);
    case LVarint =>
      SignedRoundTrip(v.n, f.dataSize);
      Varint64RoundTrip(v.n % TWO_64, rest);
    case LUvarint =>
      UnsignedRoundTrip(v.n, f.dataSize);
      Varint64RoundTrip(v.n, rest);
    case LSvarint =>
      ZigZagRoundTrip(v.n, f.dataSize);
      Varint64RoundTrip(ZigZag(v.n), rest);
    case LFixed32 =>
      Fixed32RoundTrip(v.n);
      Halved(Fixed(v.n, 4), rest);
    case LFixed64 =>
      Fixed64RoundTrip(v.n);
      Halved(Fixed(v.n, 8), rest);
  }

  // ---- The message that comes back ----

  /** A value as the decoder leaves it: text up to its terminator, a record with its defaults filled in. */
  function SettleValue(f: Field, v: Value): (r: Value)
    requires ValueFits(f, v)
    decreases f, 0
  {
    if f.kind.LString? then Data(Text(v.data) + [0])
    else if f.kind.LSubmessage? then Record(Settle(f.fields, v.slots, |f.fields|))
    else v
  }

  function SettleItems(f: Field, items: seq<Value>): (r: seq<Value>)
    requires AllFit(f, items)
    ensures |r| == |items|
    decreases f, 1, |items|
  {
    if items == [] then [] else [SettleValue(f, items[0])] + SettleItems(f, items[1..])
  }

  /** The slot of a field that is present. */
  function SettleSlot(f: Field, s: Slot): Slot
    requires SlotFits(f, s) && Emitted(f, s) != []
    decreases f, 2
  {
    if f.rule.Repeated? then Many(SettleItems(f, Emitted(f, s))) else Stored(f, SettleValue(f, Emitted(f, s)[0]))
  }

  predicate Present(fields: seq<Field>, slots: seq<Slot>, i: nat)
    requires MessageFits(fields, slots) && i < |fields|
  {
    assert SlotAt(fields, slots, i);
    Emitted(fields[i], slots[SlotOf(fields, i)]) != []
  }

  /** The defaults, with those of the first `i` fields that are present put in. */
  function Settle(fields: seq<Field>, slots: seq<Slot>, i: nat): (r: seq<Slot>)
    requires MessageFits(fields, slots) && i <= |fields|
    ensures |r| == SlotCount(fields, |fields|)
    decreases fields, 1, i
  {
    if i == 0 then InitialSlots(fields, |fields|)
    else
      var r := Settle(fields, slots, i - 1);
      SlotsBounded(fields, i - 1);
      assert SlotAt(fields, slots, i - 1);
      if Present(fields, slots, i - 1)
      then r[SlotOf(fields, i - 1) := SettleSlot(fields[i - 1], slots[SlotOf(fields, i - 1)])] else r
  }

  // ---- Which messages come back ----

  /** Text is terminated within its buffer, here and in every record. */
  predicate Readable(f: Field, v: Value)
    requires ValueFits(f, v)
    decreases f, 0
  {
    (f.kind.LString? ==> TextLength(v.data) < |v.data|) && (f.kind.LSubmessage? ==> ReadableFrom(f.fields, v.slots, 0))
  }

  predicate AllReadable(f: Field, items: seq<Value>)
    requires AllFit(f, items)
    decreases f, 1, |items|
  {
    items == [] || (Readable(f, items[0]) && AllReadable(f, items[1..]))
  }

  predicate ReadableAt(fields: seq<Field>, slots: seq<Slot>, i: nat)
    requires MessageFits(fields, slots) && i < |fields|
    decreases fields, 0
  {
    assert SlotAt(fields, slots, i);
    AllReadable(fields[i], Emitted(fields[i], slots[SlotOf(fields, i)]))
  }

  predicate ReadableFrom(fields: seq<Field>, slots: seq<Slot>, i: nat)
    requires MessageFits(fields, slots) && i <= |fields|
    decreases fields, 1, |fields| - i
  {
    i == |fields| || (ReadableAt(fields, slots, i) && ReadableFrom(fields, slots, i + 1))
  }

  // ---- One step of the decoding loop ----

  /** A field on the wire takes the loop through its slot, or stops it. */
  lemma OneField(fields: seq<Field>, i: nat, wt: nat, tail: bytes, st: State, noted: State)
    requires i < |fields| && wt < 8 && DescriptorOk(fields) && StateOk(fields, st)
    requires Note(fields, i, st) == Some(noted)
    ensures DecodeLoop(fields, TagBytes(fields[i].tag, wt) + tail, st) ==
            match ReadField(fields, i, wt, tail, noted) {
              case Bad => Bad
              case Parsed(next, rest) => DecodeLoop(fields, rest, next)
            }
  {
    hide DecodeVarint32, ReadField, MessageFits, DecodeTag;
    var tag := fields[i].tag;
    assert FieldOk(fields[i]);
    TagRoundTrip(tag, wt, tail);
    UniqueTag(fields, i);
  }

  // ---- What comes back fits ----

  lemma {:induction false} SettleValueFits(f: Field, v: Value)
    requires FieldOk(f) && ValueFits(f, v) && Readable(f, v)
    ensures ValueFits(f, SettleValue(f, v))
    decreases f, 0
  {
    if f.kind.LString? {
      assert DataOf(Parsed(Text(v.data), []), [0]).value.data == Text(v.data) + [0];
    } else if f.kind.LSubmessage? {
      ReadableAll(f.fields, v.slots, 0);
      SettleFits(f.fields, v.slots, |f.fields|);
    }
  }

  lemma {:induction false} SettleItemsFit(f: Field, items: seq<Value>)
    requires FieldOk(f) && AllFit(f, items) && AllReadable(f, items)
    ensures AllFit(f, SettleItems(f, items))
    decreases f, 1, |items|
  {
    if items != [] {
      SettleValueFits(f, items[0]);
      SettleItemsFit(f, items[1..]);
    }
  }

  lemma SettleSlotFits(f: Field, s: Slot)
    requires FieldOk(f) && SlotFits(f, s) && Emitted(f, s) != [] && AllReadable(f, Emitted(f, s))
    ensures SlotFits(f, SettleSlot(f, s))
    decreases f, 2
  {
    var items := Emitted(f, s);
    SettleItemsFit(f, items);
    assert SettleItems(f, items)[0] == SettleValue(f, items[0]);
    assert ValueFits(f, SettleItems(f, items)[0]);
  }

  lemma {:induction false} SettleFits(fields: seq<Field>, slots: seq<Slot>, i: nat)
    requires DescriptorOk(fields) && MessageFits(fields, slots) && i <= |fields|
    requires forall k :: 0 <= k < i ==> ReadableAt(fields, slots, k)
    ensures MessageFits(fields, Settle(fields, slots, i))
    decreases fields, 1, i
  {
    if i == 0 {
      InitialFits(fields);
    } else {
      SettleFits(fields, slots, i - 1);
      var f := fields[i - 1];
      assert SlotAt(fields, slots, i - 1) && FieldOk(f) && ReadableAt(fields, slots, i - 1);
      if Present(fields, slots, i - 1) {
        SettleSlotFits(f, slots[SlotOf(fields, i - 1)]);
        SlotsBounded(fields, i - 1);
        SlotReplaced(fields, Settle(fields, slots, i - 1), i - 1, SettleSlot(f, slots[SlotOf(fields, i - 1)]));
      }
    }
  }

  lemma {:induction false} ReadableAll(fields: seq<Field>, slots: seq<Slot>, i: nat)
    requires MessageFits(fields, slots) && i <= |fields| && ReadableFrom(fields, slots, i)
    ensures forall k :: i <= k < |fields| ==> ReadableAt(fields, slots, k)
    decreases |fields| - i
  {
    hide MessageFits, ReadableAt;
    if i < |fields| {
      ReadableAll(fields, slots, i + 1);
    }
  }

  // ---- Arrays ----

  function PutAll(f: Field, a: Filled, vs: seq<Value>): (r: Filled)
    requires FilledOk(f, a) && AllFit(f, vs) && a.size + |vs| <= f.arraySize
    ensures FilledOk(f, r)
    decreases |vs|
  {
    if vs == [] then a else PutAll(f, PutItem(f, a, vs[0]), vs[1..])
  }

  lemma {:induction false} PutAllCounted(f: Field, a: Filled, vs: seq<Value>)
    requires FilledOk(f, a) && AllFit(f, vs) && a.size + |vs| <= f.arraySize && f.rule.counted
    ensures PutAll(f, a, vs) == Filled(a.items + vs, a.size + |vs|)
    decreases |vs|
  {
    hide ValueFits;
    if vs == [] {
      assert a.items + vs == a.items;
    } else {
      PutAllCounted(f, PutItem(f, a, vs[0]), vs[1..]);
      assert [vs[0]] + vs[1..] == vs;
      Assoc(a.items, [vs[0]], vs[1..]);
    }
  }

  lemma {:induction false} PutAllFixed(f: Field, a: Filled, vs: seq<Value>)
    requires FilledOk(f, a) && AllFit(f, vs) && a.size + |vs| <= f.arraySize && !f.rule.counted
    ensures PutAll(f, a, vs) == Filled(a.items[..a.size] + vs + a.items[a.size + |vs|..], a.size + |vs|)
    decreases |vs|
  {
    hide ValueFits, PutAll, AllFit, PutItem, FilledOk;
    PutAllStep(f, a, vs);
    PutItemFixed(f, a, vs);
    if vs == [] {
      Cut(a.items, a.size);
    } else {
      PutAllFixed(f, PutItem(f, a, vs[0]), vs[1..]);
      Overwrite(a.items, a.size, vs);
    }
  }

  lemma PutItemFixed(f: Field, a: Filled, vs: seq<Value>)
    requires FilledOk(f, a) && AllFit(f, vs) && a.size + |vs| <= f.arraySize && !f.rule.counted
    ensures |a.items| == f.arraySize
    ensures vs != [] ==> ValueFits(f, vs[0]) && PutItem(f, a, vs[0]) == Filled(a.items[a.size := vs[0]], a.size + 1)
  {
    hide ValueFits;
  }

  lemma PutAllStep(f: Field, a: Filled, vs: seq<Value>)
    requires FilledOk(f, a) && AllFit(f, vs) && a.size + |vs| <= f.arraySize
    ensures vs == [] ==> PutAll(f, a, vs) == a
    ensures vs != [] ==>
              && ValueFits(f, vs[0]) && AllFit(f, vs[1..])
              && PutAll(f, a, vs) == PutAll(f, PutItem(f, a, vs[0]), vs[1..])
  {
    hide ValueFits;
  }

  lemma Cut<T>(items: seq<T>, n: nat)
    requires n <= |items|
    ensures items[..n] + [] + items[n..] == items
  {
  }

  lemma Overwrite<T>(items: seq<T>, n: nat, vs: seq<T>)
    requires vs != [] && n + |vs| <= |items|
    ensures items[n := vs[0]][..n + 1] + vs[1..] + items[n := vs[0]][n + |vs|..] == items[..n] + vs + items[n + |vs|..]
  {
  }

  /** A packed stretch fills the array with its numbers. */
  lemma {:induction false} PackedRoundTrip(f: Field, items: seq<Value>, a: Filled)
    requires FieldOk(f) && Packable(f.kind) && AllFit(f, items) && FilledOk(f, a) && ItemsEncode(f, items)
    requires a.size + |items| <= f.arraySize
    ensures ReadPacked(f, EncodeItems(f, items), a) == Some(PutAll(f, a, items))
    decreases |items|
  {
    hide ValueFits, ReadValue, EncodeValue, ValueEncodes;
    if items != [] {
      var v, later := items[0], items[1..];
      assert ValueFits(f, v) && ValueEncodes(f, v);
      assert ValueFits(f, f.initial) by {
        Scalars(f);
      }
      ScalarRoundTrip(f, v, EncodeItems(f, later), f.initial);
      PackedRoundTrip(f, later, PutItem(f, a, v));
    }
  }

  lemma Scalars(f: Field)
    requires FieldOk(f) && Packable(f.kind)
    ensures ValueFits(f, f.initial)
  {
  }

  lemma {:induction false} ScalarsSettle(f: Field, items: seq<Value>)
    requires Packable(f.kind) && AllFit(f, items)
    ensures SettleItems(f, items) == items && AllReadable(f, items)
    decreases |items|
  {
    if items != [] {
      ScalarsSettle(f, items[1..]);
    }
  }

  // ---- Values, arrays, fields and messages come back ----

  lemma DataRoundTrip(f: Field, v: Value, rest: bytes)
    requires FieldOk(f) && ValueFits(f, v) && ValueEncodes(f, v) && |EncodeValue(f, v)| < TWO_32
    requires f.kind.LBytes? || f.kind.LFixedLengthBytes?
    ensures ReadData(f, EncodeValue(f, v) + rest) == Parsed(v, rest)
  {
    hide Varint, DecodeVarint32, DataOf, MessageFits;
    var s := v.data;
    Assoc(Varint(|s|), s, rest);
    Varint32Inverts(|s|, s + rest);
    Halved(s, rest);
    Unterminated(s, rest);
    assert f.kind.LFixedLengthBytes? && |s| == 0 ==> Zero(f).data == s;
  }

  lemma Unterminated(s: bytes, rest: bytes)
    ensures DataOf(Parsed(s, rest), []) == Parsed(Data(s), rest)
  {
    assert s + [] == s;
  }

  lemma TextRoundTrip(f: Field, v: Value, rest: bytes)
    requires FieldOk(f) && ValueFits(f, v) && f.kind.LString? && |EncodeValue(f, v)| < TWO_32
    ensures ReadData(f, EncodeValue(f, v) + rest) == if Readable(f, v) then Parsed(SettleValue(f, v), rest) else Bad
  {
    hide Varint, DecodeVarint32, TextLength, MessageFits, Settle, ReadableFrom;
    var s := Text(v.data);
    Assoc(Varint(|s|), s, rest);
    Varint32Inverts(|s|, s + rest);
    Halved(s, rest);
  }

  /** One value comes back, settled; unterminated text is refused. */
  lemma {:induction false} ValueRoundTrip(f: Field, v: Value, rest: bytes, before: Value)
    requires FieldOk(f) && ValueFits(f, v) && ValueEncodes(f, v) && |EncodeValue(f, v)| < TWO_32
    requires ValueFits(f, before) && (f.kind.LSubmessage? && !f.rule.Repeated? ==> before == InitialValue(f))
    ensures ReadValue(f, EncodeValue(f, v) + rest, before) ==
            if Readable(f, v) then Parsed(SettleValue(f, v), rest) else Bad
    decreases f, 0
  {
    if Packable(f.kind) {
      ScalarRoundTrip(f, v, rest, before);
    } else if f.kind.LSubmessage? {
      hide TakeCounted, DecodeMessage, Settle, EncodeFrom, MessageFits, ReadableFrom;
      CountedRoundTrip(EncodeFrom(f.fields, v.slots, 0), rest);
      MessageRoundTrip(f.fields, v.slots);
    } else if f.kind.LString? {
      TextRoundTrip(f, v, rest);
    } else {
      DataRoundTrip(f, v, rest);
    }
  }

  /** The state with so much of the array of field `i` received. */
  function Filling(fields: seq<Field>, i: nat, st: State, a: Filled): (r: State)
    requires i < |fields| && DescriptorOk(fields) && StateOk(fields, st) && FilledOk(fields[i], a)
    ensures StateOk(fields, r)
  {
    SetSlot(fields, i, if fields[i].rule.counted then st else st.(fixedSize := a.size), Many(a.items))
  }

  function Default(f: Field): (v: Value)
    requires FieldOk(f)
    ensures ValueFits(f, v)
  {
    InitialValueFits(f);
    InitialValue(f)
  }

  /** An array item under its own tag joins the array. */
  lemma ItemStep(fields: seq<Field>, i: nat, input: bytes, st: State, a: Filled)
    requires i < |fields| && DescriptorOk(fields) && StateOk(fields, st) && FilledOk(fields[i], a)
    requires !Packable(fields[i].kind) && (!fields[i].rule.counted ==> st.fixedField == i)
    requires a.size < fields[i].arraySize
    ensures DecodeLoop(fields, TagBytes(fields[i].tag, WireType(fields[i].kind)) + input, Filling(fields, i, st, a)) ==
            match ReadValue(fields[i], input, Default(fields[i])) {
              case Bad => Bad
              case Parsed(v, rest) => DecodeLoop(fields, rest, Filling(fields, i, st, PutItem(fields[i], a, v)))
            }
  {
    hide DecodeLoop, ReadValue, ValueFits, MessageFits;
    var f, from := fields[i], Filling(fields, i, st, a);
    FitsAt(fields, st.slots, i);
    FitsAt(fields, from.slots, i);
    OneField(fields, i, WireType(f.kind), input, from, from);
    assert FillOf(f, from.slots[SlotOf(fields, i)], from.fixedSize) == a;
    var r := ReadValue(f, input, Default(f));
    if r.Parsed? {
      var b := PutItem(f, a, r.value);
      assert ReadItems(f, WireType(f.kind), input, a) == Parsed(b, r.rest);
      Refilled(fields, i, st, a, b);
      assert ReadField(fields, i, WireType(f.kind), input, from) == Parsed(Filling(fields, i, st, b), r.rest);
    }
  }

  lemma Refilled(fields: seq<Field>, i: nat, st: State, a: Filled, b: Filled)
    requires i < |fields| && DescriptorOk(fields) && StateOk(fields, st) && FilledOk(fields[i], a) && FilledOk(fields[i], b)
    ensures Filling(fields, i, Filling(fields, i, st, a), b) == Filling(fields, i, st, b)
  {
    hide ValueFits, MessageFits;
    FitsAt(fields, st.slots, i);
    var j := SlotOf(fields, i);
    assert st.slots[j := Many(a.items)][j := Many(b.items)] == st.slots[j := Many(b.items)];
  }

  lemma FitsAt(fields: seq<Field>, slots: seq<Slot>, i: nat)
    requires MessageFits(fields, slots) && i < |fields|
    ensures SlotAt(fields, slots, i)
  {
  }

  /** An array of tagged items comes back item by item. */
  lemma {:induction false} TaggedRoundTrip(fields: seq<Field>, i: nat, items: seq<Value>, rest: bytes, st: State, a: Filled)
    requires i < |fields| && DescriptorOk(fields) && StateOk(fields, st) && FilledOk(fields[i], a)
    requires !Packable(fields[i].kind) && (!fields[i].rule.counted ==> st.fixedField == i)
    requires a.size + |items| <= fields[i].arraySize && AllFit(fields[i], items) && ItemsEncode(fields[i], items)
    requires |EncodeTagged(fields[i], items)| < TWO_32
    ensures !AllReadable(fields[i], items) ==>
            DecodeLoop(fields, EncodeTagged(fields[i], items) + rest, Filling(fields, i, st, a)) == Bad
    ensures AllReadable(fields[i], items) ==>
            && AllFit(fields[i], SettleItems(fields[i], items))
            && DecodeLoop(fields, EncodeTagged(fields[i], items) + rest, Filling(fields, i, st, a)) ==
               DecodeLoop(fields, rest, Filling(fields, i, st, PutAll(fields[i], a, SettleItems(fields[i], items))))
    decreases fields, 0, |items|
  {
    hide DecodeLoop, ReadValue, ValueFits, MessageFits, EncodeValue, ValueEncodes, Readable, SettleValue;
    var f := fields[i];
    if items == [] {
      assert EncodeTagged(f, items) + rest == rest;
    } else {
      var v, later := items[0], items[1..];
      var tail := EncodeTagged(f, later) + rest;
      assert ValueFits(f, v) && ValueEncodes(f, v);
      TaggedSplit(f, items, rest);
      ItemStep(fields, i, EncodeValue(f, v) + tail, st, a);
      ValueRoundTrip(f, v, tail, Default(f));
      if Readable(f, v) {
        SettleValueFits(f, v);
        TaggedRoundTrip(fields, i, later, rest, st, PutItem(f, a, SettleValue(f, v)));
      }
    }
  }

  lemma TaggedSplit(f: Field, items: seq<Value>, rest: bytes)
    requires AllFit(f, items) && items != []
    ensures EncodeTagged(f, items) + rest ==
            TagBytes(f.tag, WireType(f.kind)) + (EncodeValue(f, items[0]) + (EncodeTagged(f, items[1..]) + rest))
    ensures |EncodeTagged(f, items)| ==
            |TagBytes(f.tag, WireType(f.kind))| + |EncodeValue(f, items[0])| + |EncodeTagged(f, items[1..])|
  {
    hide EncodeValue, EncodeTagged, ValueFits, TagBytes;
    TaggedIs(f, items);
    Assoc4(TagBytes(f.tag, WireType(f.kind)), EncodeValue(f, items[0]), EncodeTagged(f, items[1..]), rest);
  }

  lemma TaggedIs(f: Field, items: seq<Value>)
    requires AllFit(f, items) && items != []
    ensures AllFit(f, items[1..])
    ensures EncodeTagged(f, items) ==
            TagBytes(f.tag, WireType(f.kind)) + EncodeValue(f, items[0]) + EncodeTagged(f, items[1..])
  {
    hide EncodeValue, ValueFits;
  }

  lemma Assoc4(a: bytes, b: bytes, c: bytes, d: bytes)
    ensures a + b + c + d == a + (b + (c + d))
  {
  }

  // ---- The states between the fields ----

  function FirstNumbers(n: nat): (r: set<nat>)
    ensures forall k :: k in r <==> 0 <= k < n
  {
    if n == 0 then {} else FirstNumbers(n - 1) + {n - 1}
  }

  function SeenBefore(fields: seq<Field>, i: nat): set<nat>
    requires i <= |fields|
  {
    var n := RequiredBefore(fields, i);
    FirstNumbers(if n < MAX_REQUIRED_FIELDS then n else MAX_REQUIRED_FIELDS)
  }

  /** The last array without a counter among the first `i` fields that are present, or the number of fields. */
  function LastFixed(fields: seq<Field>, slots: seq<Slot>, i: nat): (k: nat)
    requires MessageFits(fields, slots) && i <= |fields|
    ensures k < i || k == |fields|
  {
    if i == 0 then |fields|
    else if fields[i - 1].rule == Repeated(false) && Present(fields, slots, i - 1) then i - 1
    else LastFixed(fields, slots, i - 1)
  }

  function FixedSoFar(fields: seq<Field>, slots: seq<Slot>, i: nat): nat
    requires MessageFits(fields, slots) && i <= |fields|
  {
    if LastFixed(fields, slots, i) == |fields| then 0 else fields[LastFixed(fields, slots, i)].arraySize
  }

  /** The decoder's state when the first `i` fields have been read back. */
  function StateAt(fields: seq<Field>, slots: seq<Slot>, i: nat): (st: State)
    requires MessageFits(fields, slots) && i <= |fields|
    ensures st.fixedField <= |fields|
  {
    State(Settle(fields, slots, i), SeenBefore(fields, i), LastFixed(fields, slots, i), FixedSoFar(fields, slots, i))
  }

  /** Fields still to come have their defaults. */
  lemma {:induction false} Untouched(fields: seq<Field>, slots: seq<Slot>, i: nat, k: nat)
    requires MessageFits(fields, slots) && i <= k < |fields| && !fields[k].rule.OneOf?
    ensures SlotOf(fields, k) < |Settle(fields, slots, i)|
    ensures Settle(fields, slots, i)[SlotOf(fields, k)] == InitialSlot(fields[k])
  {
    SlotsBounded(fields, k);
    if i == 0 {
      InitialSlotIs(fields, k, |fields|);
    } else {
      Untouched(fields, slots, i - 1, k);
      SlotsAscend(fields, i - 1, k);
    }
  }

  /** An absent field is written as nothing and changes nothing. */
  lemma AbsentField(fields: seq<Field>, slots: seq<Slot>, i: nat)
    requires MessageFits(fields, slots) && i < |fields| && !Present(fields, slots, i)
    ensures EncodeAt(fields, slots, i) == [] && ReadableAt(fields, slots, i)
    ensures StateAt(fields, slots, i + 1) == StateAt(fields, slots, i)
  {
    FitsAt(fields, slots, i);
    assert Emitted(fields[i], slots[SlotOf(fields, i)]) == [];
    assert EncodeSlot(fields[i], slots[SlotOf(fields, i)]) == [];
  }

  /** What every step of the round trip starts from. */
  predicate Midway(fields: seq<Field>, slots: seq<Slot>, i: nat) {
    && DescriptorOk(fields)
    && MessageFits(fields, slots)
    && Encodes(fields, slots)
    && i <= |fields|
    && forall k :: 0 <= k < i ==> ReadableAt(fields, slots, k)
  }

  lemma MidwayOk(fields: seq<Field>, slots: seq<Slot>, i: nat)
    requires Midway(fields, slots, i)
    ensures StateOk(fields, StateAt(fields, slots, i))
  {
    hide Settle;
    SettleFits(fields, slots, i);
  }

  /** The state once the field's tag has been noted. */
  function NotedAt(fields: seq<Field>, slots: seq<Slot>, i: nat): (st: State)
    requires Midway(fields, slots, i) && i < |fields|
    ensures StateOk(fields, st)
  {
    MidwayOk(fields, slots, i);
    var st := StateAt(fields, slots, i);
    if fields[i].rule == Repeated(false) then st.(fixedField := i, fixedSize := 0)
    else if fields[i].rule.Required? then st.(seen := SeenBefore(fields, i + 1))
    else st
  }

  lemma NotedIs(fields: seq<Field>, slots: seq<Slot>, i: nat)
    requires Midway(fields, slots, i) && i < |fields|
    ensures StateOk(fields, StateAt(fields, slots, i))
    ensures Note(fields, i, StateAt(fields, slots, i)) == Some(NotedAt(fields, slots, i))
  {
    hide Settle, MessageFits;
    MidwayOk(fields, slots, i);
    var n := RequiredBefore(fields, i);
    assert fields[i].rule.Required? && n < MAX_REQUIRED_FIELDS ==>
      SeenBefore(fields, i + 1) == SeenBefore(fields, i) + {n};
    assert fields[i].rule.Required? && n >= MAX_REQUIRED_FIELDS ==> SeenBefore(fields, i + 1) == SeenBefore(fields, i);
  }

  lemma EncodesHere(fields: seq<Field>, slots: seq<Slot>, i: nat)
    requires MessageFits(fields, slots) && Encodes(fields, slots) && i < |fields|
    ensures SlotAt(fields, slots, i) && SlotEncodes(fields[i], slots[SlotOf(fields, i)])
    ensures ItemsEncode(fields[i], Emitted(fields[i], slots[SlotOf(fields, i)]))
  {
    FitsAt(fields, slots, i);
    assert EncodesAt(fields, slots, i);
  }

  /** A field that is not repeated comes back. */
  lemma SingleRoundTrip(fields: seq<Field>, slots: seq<Slot>, i: nat, rest: bytes)
    requires Midway(fields, slots, i) && i < |fields| && Present(fields, slots, i) && !fields[i].rule.Repeated?
    requires |EncodeAt(fields, slots, i)| < TWO_32
    ensures StateOk(fields, StateAt(fields, slots, i))
    ensures !ReadableAt(fields, slots, i) ==>
            DecodeLoop(fields, EncodeAt(fields, slots, i) + rest, StateAt(fields, slots, i)) == Bad
    ensures ReadableAt(fields, slots, i) ==>
            && StateOk(fields, StateAt(fields, slots, i + 1))
            && DecodeLoop(fields, EncodeAt(fields, slots, i) + rest, StateAt(fields, slots, i)) ==
               DecodeLoop(fields, rest, StateAt(fields, slots, i + 1))
    decreases fields, 0, 0
  {
    hide DecodeLoop, ReadValue, MessageFits, EncodeValue, ValueEncodes, Readable, SettleValue, InitialValue;
    hide EncodeAt, ReadableAt, Encodes, Emitted, Present, Note;
    var f := fields[i];
    assert FieldOk(f);
    var v := OneOnWire(fields, slots, i, rest);
    var from, noted := StateAt(fields, slots, i), NotedAt(fields, slots, i);
    NotedIs(fields, slots, i);
    OneField(fields, i, WireType(f.kind), EncodeValue(f, v) + rest, from, noted);
    FitsAt(fields, noted.slots, i);
    var before := Before(f, noted.slots[SlotOf(fields, i)]);
    assert before == InitialValue(f) by {
      if !f.rule.OneOf? {
        Untouched(fields, slots, i, i);
      }
    }
    ValueRoundTrip(f, v, rest, before);
    if Readable(f, v) {
      OneLands(fields, slots, i, v);
    }
  }

  /** The one value of a field that is no array, as it is written. */
  lemma OneOnWire(fields: seq<Field>, slots: seq<Slot>, i: nat, rest: bytes) returns (v: Value)
    requires MessageFits(fields, slots) && Encodes(fields, slots) && i < |fields|
    requires Present(fields, slots, i) && !fields[i].rule.Repeated?
    ensures SlotAt(fields, slots, i) && Emitted(fields[i], slots[SlotOf(fields, i)]) == [v]
    ensures ValueFits(fields[i], v) && ValueEncodes(fields[i], v) && (ReadableAt(fields, slots, i) <==> Readable(fields[i], v))
    ensures |EncodeValue(fields[i], v)| <= |EncodeAt(fields, slots, i)|
    ensures EncodeAt(fields, slots, i) + rest ==
            TagBytes(fields[i].tag, WireType(fields[i].kind)) + (EncodeValue(fields[i], v) + rest)
  {
    hide MessageFits, EncodeValue, ValueEncodes, Readable, TagBytes, ValueFits;
    var f := fields[i];
    EncodesHere(fields, slots, i);
    v := Emitted(f, slots[SlotOf(fields, i)])[0];
    assert Emitted(f, slots[SlotOf(fields, i)]) == [v];
    TaggedSplit(f, [v], rest);
    assert EncodeTagged(f, [v][1..]) + rest == rest;
    assert AllReadable(f, [v]) == Readable(f, v);
  }

  /** Storing the value in its slot is the next state. */
  lemma OneLands(fields: seq<Field>, slots: seq<Slot>, i: nat, v: Value)
    requires Midway(fields, slots, i) && i < |fields| && Present(fields, slots, i) && !fields[i].rule.Repeated?
    requires SlotAt(fields, slots, i) && Emitted(fields[i], slots[SlotOf(fields, i)]) == [v]
    requires ValueFits(fields[i], v) && Readable(fields[i], v) && ReadableAt(fields, slots, i)
    ensures FieldOk(fields[i]) && ValueFits(fields[i], SettleValue(fields[i], v))
    ensures StateOk(fields, StateAt(fields, slots, i + 1)) && StateOk(fields, NotedAt(fields, slots, i))
    ensures SetSlot(fields, i, NotedAt(fields, slots, i), Stored(fields[i], SettleValue(fields[i], v))) ==
            StateAt(fields, slots, i + 1)
  {
    hide MessageFits, Readable, SettleValue, ValueFits, ReadableAt, Encodes;
    var f := fields[i];
    SettleValueFits(f, v);
    MidwayOk(fields, slots, i + 1);
    SlotsBounded(fields, i);
    assert SettleSlot(f, slots[SlotOf(fields, i)]) == Stored(f, SettleValue(f, v));
    assert Settle(fields, slots, i + 1) ==
           Settle(fields, slots, i)[SlotOf(fields, i) := SettleSlot(f, slots[SlotOf(fields, i)])];
  }

  /** The array the decoder starts to fill. */
  function Empty(f: Field): (a: Filled)
    requires FieldOk(f) && f.rule.Repeated?
    ensures FilledOk(f, a) && a.size == 0
  {
    InitialValueFits(f);
    Filled(if f.rule.counted then [] else Copies(InitialValue(f), f.arraySize), 0)
  }

  lemma StartsEmpty(fields: seq<Field>, slots: seq<Slot>, i: nat)
    requires Midway(fields, slots, i) && i < |fields| && fields[i].rule.Repeated?
    ensures Filling(fields, i, NotedAt(fields, slots, i), Empty(fields[i])) == NotedAt(fields, slots, i)
    ensures SlotAt(fields, NotedAt(fields, slots, i).slots, i)
    ensures FillOf(fields[i], NotedAt(fields, slots, i).slots[SlotOf(fields, i)],
                   NotedAt(fields, slots, i).fixedSize) == Empty(fields[i])
  {
    hide Settle, MessageFits, ValueFits, InitialValue;
    var noted := NotedAt(fields, slots, i);
    FitsAt(fields, noted.slots, i);
    Untouched(fields, slots, i, i);
    assert noted.slots[SlotOf(fields, i) := noted.slots[SlotOf(fields, i)]] == noted.slots;
  }

  lemma FullIs(f: Field, all: seq<Value>)
    requires FieldOk(f) && f.rule.Repeated? && AllFit(f, all)
    requires if f.rule.counted then |all| <= f.arraySize else |all| == f.arraySize
    ensures PutAll(f, Empty(f), all) == Filled(all, |all|)
  {
    hide ValueFits, InitialValue, PutAll;
    if f.rule.counted {
      PutAllCounted(f, Empty(f), all);
      assert [] + all == all;
    } else {
      PutAllFixed(f, Empty(f), all);
      assert Empty(f).items[..0] + all + Empty(f).items[|all|..] == all;
    }
  }

  lemma ArraySettles(fields: seq<Field>, slots: seq<Slot>, i: nat)
    requires Midway(fields, slots, i) && i < |fields| && fields[i].rule.Repeated? && Present(fields, slots, i)
    ensures SlotAt(fields, slots, i) && slots[SlotOf(fields, i)].Many? && SlotOf(fields, i) < |Settle(fields, slots, i)|
    ensures AllFit(fields[i], slots[SlotOf(fields, i)].items)
    ensures !fields[i].rule.counted ==> |slots[SlotOf(fields, i)].items| == fields[i].arraySize
    ensures Settle(fields, slots, i + 1) ==
            Settle(fields, slots, i)[SlotOf(fields, i) := Many(SettleItems(fields[i], slots[SlotOf(fields, i)].items))]
  {
    hide MessageFits, ValueFits, InitialValue, SettleValue;
    FitsAt(fields, slots, i);
    SlotsBounded(fields, i);
    var s := slots[SlotOf(fields, i)];
    assert SettleSlot(fields[i], s) == Many(SettleItems(fields[i], s.items));
  }

  /** The whole array has come. */
  lemma EndsFull(fields: seq<Field>, slots: seq<Slot>, i: nat, all: seq<Value>)
    requires Midway(fields, slots, i) && i < |fields| && fields[i].rule.Repeated? && Present(fields, slots, i)
    requires AllFit(fields[i], all) && |all| <= fields[i].arraySize
    requires SlotAt(fields, slots, i) && slots[SlotOf(fields, i)].Many?
    requires all == SettleItems(fields[i], slots[SlotOf(fields, i)].items)
    ensures Filling(fields, i, NotedAt(fields, slots, i), PutAll(fields[i], Empty(fields[i]), all)) ==
            StateAt(fields, slots, i + 1)
  {
    hide MessageFits, ValueFits, InitialValue, SettleItems, Settle, PutAll, Empty;
    ArraySettles(fields, slots, i);
    FullIs(fields[i], all);
  }

  /** An array comes back, packed or item by item. */
  lemma ArrayRoundTrip(fields: seq<Field>, slots: seq<Slot>, i: nat, rest: bytes)
    requires Midway(fields, slots, i) && i < |fields| && Present(fields, slots, i) && fields[i].rule.Repeated?
    requires |EncodeAt(fields, slots, i)| < TWO_32
    ensures StateOk(fields, StateAt(fields, slots, i))
    ensures !ReadableAt(fields, slots, i) ==>
            DecodeLoop(fields, EncodeAt(fields, slots, i) + rest, StateAt(fields, slots, i)) == Bad
    ensures ReadableAt(fields, slots, i) ==>
            && StateOk(fields, StateAt(fields, slots, i + 1))
            && DecodeLoop(fields, EncodeAt(fields, slots, i) + rest, StateAt(fields, slots, i)) ==
               DecodeLoop(fields, rest, StateAt(fields, slots, i + 1))
    decreases fields, 1, 0
  {
    hide DecodeLoop, MessageFits, ValueFits, Settle, NotedAt, Filling, PutAll, Empty, AllReadable, EncodeTagged, EncodeItems;
    var f := fields[i];
    NotedIs(fields, slots, i);
    ArraySettles(fields, slots, i);
    var items := slots[SlotOf(fields, i)].items;
    EncodesHere(fields, slots, i);
    assert FieldOk(f) && EncodeSlot(f, slots[SlotOf(fields, i)]) == EncodeArray(f, items);
    if ReadableAt(fields, slots, i) {
      MidwayOk(fields, slots, i + 1);
      SettleItemsFit(f, items);
      EndsFull(fields, slots, i, SettleItems(f, items));
    }
    if Packable(f.kind) {
      PackedField(fields, slots, i, items, rest);
    } else {
      TaggedField(fields, slots, i, items, rest);
    }
  }

  lemma PackedField(fields: seq<Field>, slots: seq<Slot>, i: nat, items: seq<Value>, rest: bytes)
    requires Midway(fields, slots, i) && i < |fields| && fields[i].rule.Repeated? && Packable(fields[i].kind)
    requires AllFit(fields[i], items) && ItemsEncode(fields[i], items) && |items| <= fields[i].arraySize
    requires items != [] && |EncodeArray(fields[i], items)| < TWO_32
    ensures StateOk(fields, StateAt(fields, slots, i))
    ensures SettleItems(fields[i], items) == items && AllReadable(fields[i], items)
    ensures DecodeLoop(fields, EncodeArray(fields[i], items) + rest, StateAt(fields, slots, i)) ==
            DecodeLoop(fields, rest, Filling(fields, i, NotedAt(fields, slots, i), PutAll(fields[i], Empty(fields[i]), items)))
  {
    hide DecodeLoop, MessageFits, ValueFits, Settle, PutAll, Empty, NotedAt, EncodeItems, ReadPacked;
    hide StateOk, Note, StateAt, AllFit, FilledOk, AllReadable, SettleItems, SlotFits, FieldOk;
    var f, from, noted := fields[i], StateAt(fields, slots, i), NotedAt(fields, slots, i);
    ScalarsSettle(f, items);
    NotedIs(fields, slots, i);
    StartsEmpty(fields, slots, i);
    var body := Counted(EncodeItems(f, items)) + rest;
    assert EncodeArray(f, items) + rest == TagBytes(f.tag, WT_STRING) + body;
    OneField(fields, i, WT_STRING, body, from, noted);
    CountedRoundTrip(EncodeItems(f, items), rest);
    PackedRoundTrip(f, items, Empty(f));
    var all := PutAll(f, Empty(f), items);
    assert ReadItems(f, WT_STRING, body, Empty(f)) == Parsed(all, rest);
    assert ReadField(fields, i, WT_STRING, body, noted) == Parsed(Filling(fields, i, noted, all), rest);
  }

  lemma TaggedField(fields: seq<Field>, slots: seq<Slot>, i: nat, items: seq<Value>, rest: bytes)
    requires Midway(fields, slots, i) && i < |fields| && fields[i].rule.Repeated? && !Packable(fields[i].kind)
    requires AllFit(fields[i], items) && ItemsEncode(fields[i], items) && |items| <= fields[i].arraySize
    requires items != [] && |EncodeArray(fields[i], items)| < TWO_32
    ensures StateOk(fields, StateAt(fields, slots, i))
    ensures !AllReadable(fields[i], items) ==>
            DecodeLoop(fields, EncodeArray(fields[i], items) + rest, StateAt(fields, slots, i)) == Bad
    ensures AllReadable(fields[i], items) ==>
            && AllFit(fields[i], SettleItems(fields[i], items))
            && DecodeLoop(fields, EncodeArray(fields[i], items) + rest, StateAt(fields, slots, i)) ==
               DecodeLoop(fields, rest, Filling(fields, i, NotedAt(fields, slots, i),
                                                PutAll(fields[i], Empty(fields[i]), SettleItems(fields[i], items))))
    decreases fields, 0, |items| + 1
  {
    hide DecodeLoop, MessageFits, ValueFits, Settle, PutAll, Empty, Filling, EncodeTagged;
    var f, from, noted := fields[i], StateAt(fields, slots, i), NotedAt(fields, slots, i);
    NotedIs(fields, slots, i);
    StartsEmpty(fields, slots, i);
    TaggedSplit(f, items, rest);
    var tail := EncodeValue(f, items[0]) + (EncodeTagged(f, items[1..]) + rest);
    OneField(fields, i, WireType(f.kind), tail, from, noted);
    OneField(fields, i, WireType(f.kind), tail, noted, noted);
    TaggedRoundTrip(fields, i, items, rest, noted, Empty(f));
  }

  /** What a field wrote takes the loop from the state before it to the one after it. */
  lemma FieldStep(fields: seq<Field>, slots: seq<Slot>, i: nat, rest: bytes)
    requires Midway(fields, slots, i) && i < |fields| && |EncodeAt(fields, slots, i)| < TWO_32
    ensures StateOk(fields, StateAt(fields, slots, i))
    ensures !ReadableAt(fields, slots, i) ==>
            DecodeLoop(fields, EncodeAt(fields, slots, i) + rest, StateAt(fields, slots, i)) == Bad
    ensures ReadableAt(fields, slots, i) ==>
            && StateOk(fields, StateAt(fields, slots, i + 1))
            && DecodeLoop(fields, EncodeAt(fields, slots, i) + rest, StateAt(fields, slots, i)) ==
               DecodeLoop(fields, rest, StateAt(fields, slots, i + 1))
    decreases fields, 1, 1
  {
    hide MessageFits, StateAt, EncodeAt, ReadableAt, Present, DecodeLoop, StateOk;
    MidwayOk(fields, slots, i);
    if !Present(fields, slots, i) {
      AbsentField(fields, slots, i);
      assert EncodeAt(fields, slots, i) + rest == rest;
    } else if fields[i].rule.Repeated? {
      ArrayRoundTrip(fields, slots, i, rest);
    } else {
      SingleRoundTrip(fields, slots, i, rest);
    }
  }

  /** The loop reads the fields back one after the other, up to text that was not terminated. */
  lemma {:induction false} FieldsRoundTrip(fields: seq<Field>, slots: seq<Slot>, i: nat)
    requires Midway(fields, slots, i) && |EncodeFrom(fields, slots, i)| < TWO_32
    ensures StateOk(fields, StateAt(fields, slots, i))
    ensures !ReadableFrom(fields, slots, i) ==>
            DecodeLoop(fields, EncodeFrom(fields, slots, i), StateAt(fields, slots, i)) == Bad
    ensures ReadableFrom(fields, slots, i) ==>
            DecodeLoop(fields, EncodeFrom(fields, slots, i), StateAt(fields, slots, i)) ==
            Parsed(StateAt(fields, slots, |fields|), [])
    decreases fields, 2, |fields| - i
  {
    hide MessageFits, StateAt, EncodeAt, ReadableAt, Present, DecodeLoop, StateOk;
    MidwayOk(fields, slots, i);
    if i < |fields| {
      FieldStep(fields, slots, i, EncodeFrom(fields, slots, i + 1));
      if ReadableAt(fields, slots, i) {
        FieldsRoundTrip(fields, slots, i + 1);
      }
    } else {
      DecodeNothing(fields, StateAt(fields, slots, i));
    }
  }

  lemma {:induction false} AllSeen(fields: seq<Field>, slots: seq<Slot>)
    requires MessageFits(fields, slots)
    ensures Complete(fields, StateAt(fields, slots, |fields|))
  {
    hide Settle;
  }

  /**
   Decoding the encoding of a message gives the message, with absent fields at their defaults,
   exactly when all the text that was written is terminated; otherwise it fails.
   */
  lemma MessageRoundTrip(fields: seq<Field>, slots: seq<Slot>)
    requires DescriptorOk(fields) && MessageFits(fields, slots) && Encodes(fields, slots)
    requires |EncodeFrom(fields, slots, 0)| < TWO_32
    ensures MessageFits(fields, InitialSlots(fields, |fields|))
    ensures DecodeMessage(fields, EncodeFrom(fields, slots, 0), InitialSlots(fields, |fields|)) ==
            if ReadableFrom(fields, slots, 0) then Parsed(Settle(fields, slots, |fields|), []) else Bad
    decreases fields, 3
  {
    hide DecodeLoop, MessageFits, EncodeFrom, ReadableFrom, Complete;
    InitialFits(fields);
    assert StateAt(fields, slots, 0) == Start(fields, InitialSlots(fields, |fields|));
    FieldsRoundTrip(fields, slots, 0);
    AllSeen(fields, slots);
  }
}
