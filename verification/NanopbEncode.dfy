/**
 Encoding a message (nanopb pb_encode.c): the bytes a message stands for, and the stream
 methods, which produce those bytes or, on a sizing stream, count them.
 */
module NanopbEncode {
  import opened Coding
  import opened Nanopb

  // ---- The bytes of a message ----

  function TagBytes(tag: nat, wt: nat): bytes {
    Varint(tag * 8 + wt)
  }

  function ZigZag(n: int): nat {
    if n < 0 then -2 * n - 1 else 2 * n
  }

  function Counted(s: bytes): bytes {
    Varint(|s|) + s
  }

  function Text(data: bytes): bytes {
    data[..TextLength(data)]
  }

  function EncodeValue(f: Field, v: Value): (r: bytes)
    requires ValueFits(f, v)
    ensures r != []
    decreases f, 0
  {
    match f.kind
    case LBool => Varint(if v.b then 1 else 0)
    case LVarint | LUvarint => Varint(v.n % TWO_64)
    case LSvarint => Varint(ZigZag(v.n))
    case LFixed32 => Fixed(v.n, 4)
    case LFixed64 => Fixed(v.n, 8)
    case LBytes | LFixedLengthBytes => Counted(v.data)
    case LString => Counted(Text(v.data))
    case LSubmessage => Counted(EncodeFrom(f.fields, v.slots, 0))
  }

  /** Whether the value is left out of a field without a has-flag. */
  predicate ZeroValue(f: Field, v: Value)
    requires ValueFits(f, v)
    decreases f, 0
  {
    match f.kind
    case LBool => !v.b
    case LBytes => v.data == []
    case LString => v.data[0] == 0
    case LFixedLengthBytes => f.dataSize == 0
    case LSubmessage => forall i :: 0 <= i < |f.fields| ==> ZeroAt(f.fields, v.slots, i)
    case _ => v.n == 0
  }

  predicate ZeroAt(fields: seq<Field>, slots: seq<Slot>, i: nat)
    requires MessageFits(fields, slots) && i < |fields|
    decreases fields, 0
  {
    assert SlotAt(fields, slots, i);
    ZeroSlot(fields[i], slots[SlotOf(fields, i)])
  }

  predicate ZeroSlot(f: Field, s: Slot)
    requires SlotFits(f, s)
    decreases f, 1
  {
    match f.rule
    case Required => false
    case Repeated(counted) => counted && s.items == []
    case OneOf(_) => s.Unchosen?
    case Optional(hasFlag) => if hasFlag then !s.has else ZeroValue(f, s.value)
  }

  /** The values the field contributes to the encoding. */
  function Emitted(f: Field, s: Slot): (r: seq<Value>)
    requires SlotFits(f, s)
    ensures forall k :: 0 <= k < |r| ==> ValueFits(f, r[k])
    ensures !f.rule.Repeated? ==> |r| <= 1
  {
    match f.rule
    case Required => [s.value]
    case Optional(hasFlag) => if (if hasFlag then s.has else !ZeroValue(f, s.value)) then [s.value] else []
    case Repeated(_) => s.items
    case OneOf(_) => if s.Chosen? && s.tag == f.tag then [s.value] else []
  }

  function EncodeItems(f: Field, items: seq<Value>): bytes
    requires AllFit(f, items)
    decreases f, 1, |items|
  {
    if items == [] then [] else EncodeValue(f, items[0]) + EncodeItems(f, items[1..])
  }

  function EncodeTagged(f: Field, items: seq<Value>): bytes
    requires AllFit(f, items)
    decreases f, 1, |items|
  {
    if items == [] then []
    else TagBytes(f.tag, WireType(f.kind)) + EncodeValue(f, items[0]) + EncodeTagged(f, items[1..])
  }

  /** Numbers of an array go packed under one tag; everything else is tagged value by value. */
  function EncodeArray(f: Field, items: seq<Value>): bytes
    requires AllFit(f, items)
    decreases f, 2
  {
    if items == [] then []
    else if Packable(f.kind) then TagBytes(f.tag, WT_STRING) + Counted(EncodeItems(f, items))
    else EncodeTagged(f, items)
  }

  function EncodeSlot(f: Field, s: Slot): bytes
    requires SlotFits(f, s)
    decreases f, 3
  {
    if f.rule.Repeated? then EncodeArray(f, Emitted(f, s)) else EncodeTagged(f, Emitted(f, s))
  }

  function EncodeAt(fields: seq<Field>, slots: seq<Slot>, i: nat): bytes
    requires MessageFits(fields, slots) && i < |fields|
    decreases fields, 0
  {
    assert SlotAt(fields, slots, i);
    EncodeSlot(fields[i], slots[SlotOf(fields, i)])
  }

  /** The fields from the `i`th on. */
  function EncodeFrom(fields: seq<Field>, slots: seq<Slot>, i: nat): bytes
    requires MessageFits(fields, slots) && i <= |fields|
    decreases fields, 1, |fields| - i
  {
    if i == |fields| then [] else EncodeAt(fields, slots, i) + EncodeFrom(fields, slots, i + 1)
  }

  // ---- What the encoder refuses ----

  predicate ValueEncodes(f: Field, v: Value)
    requires ValueFits(f, v)
    decreases f, 0
  {
    match f.kind
    case LVarint | LUvarint | LSvarint => IntSize(f.dataSize)
    case LBytes => |v.data| + BYTES_HEADER <= f.dataSize
    case LSubmessage => Encodes(f.fields, v.slots)
    case _ => true
  }

  predicate ItemsEncode(f: Field, items: seq<Value>)
    requires AllFit(f, items)
    decreases f, 1
  {
    forall k :: 0 <= k < |items| ==> ValueEncodes(f, items[k])
  }

  predicate SlotEncodes(f: Field, s: Slot)
    requires SlotFits(f, s)
    decreases f, 2
  {
    (f.rule.Repeated? ==> |s.items| <= f.arraySize) && ItemsEncode(f, Emitted(f, s))
  }

  predicate EncodesAt(fields: seq<Field>, slots: seq<Slot>, i: nat)
    requires MessageFits(fields, slots) && i < |fields|
    decreases fields, 0
  {
    assert SlotAt(fields, slots, i);
    SlotEncodes(fields[i], slots[SlotOf(fields, i)])
  }

  /** Integers have a supported width, and what is present fits its buffers. */
  predicate Encodes(fields: seq<Field>, slots: seq<Slot>)
    requires MessageFits(fields, slots)
    decreases fields, 1
  {
    forall i :: 0 <= i < |fields| ==> EncodesAt(fields, slots, i)
  }

  // ---- The output stream ----

  /** A stream that counts what it is given and, unless it only sizes, passes it on. */
  class OStream {
    const sizing: bool
    const maxSize: nat
    var out: bytes
    var bytesWritten: nat

    constructor (sizing: bool, maxSize: nat, out: bytes)
      ensures this.sizing == sizing && this.maxSize == maxSize && this.out == out && bytesWritten == 0
    {
      this.sizing, this.maxSize, this.out, bytesWritten := sizing, maxSize, out, 0;
    }

    ghost predicate Valid()
      reads this
    {
      sizing || bytesWritten <= maxSize
    }

    ghost predicate Room(n: nat)
      reads this
    {
      sizing || bytesWritten + n <= maxSize
    }

    /** All of `data` went through since the stream held `out0` and had counted `n0`. */
    ghost predicate Wrote(data: bytes, out0: bytes, n0: nat)
      reads this
    {
      bytesWritten == n0 + |data| && out == if sizing then out0 else out0 + data
    }

    method Write(data: bytes) returns (ok: bool)
      requires Valid()
      modifies this
      ensures Valid()
      ensures ok == old(Room(|data|))
      ensures ok ==> Wrote(data, old(out), old(bytesWritten))
    {
      if |data| > 0 && !sizing {
        if bytesWritten + |data| > maxSize {
          return false;
        }
        out := out + data;
      }
      bytesWritten := bytesWritten + |data|;
      ok := true;
    }

    /** Writing without data, as a sizing stream allows. */
    method Count(n: nat)
      requires sizing
      modifies this
      ensures bytesWritten == old(bytesWritten) + n && out == old(out)
    {
      bytesWritten := bytesWritten + n;
    }

    method EncodeVarint(value: uint64) returns (ok: bool)
      requires Valid()
      modifies this
      ensures Valid()
      ensures ok == old(Room(|Varint(value)|))
      ensures ok ==> Wrote(Varint(value), old(out), old(bytesWritten))
    {
      if value <= 0x7F {
        ok := Write([value]);
        return;
      }
      var buffer := new byte[10];
      var i: nat, left: nat := 0, value;
      Varint64Limit(value);
      GroupStart(value);
      assert buffer[..0] == [];
      hide Varint, Groups;
      while left != 0
        invariant i <= |Varint(value)| <= buffer.Length && Groups(value, left, buffer[..i])
        invariant out == old(out) && bytesWritten == old(bytesWritten)
        invariant fresh(buffer)
      {
        GroupStep(value, left, buffer[..i]);
        ghost var done := buffer[..i];
        buffer[i] := left % 128 + 128;
        left := left / 128;
        i := i + 1;
        assert buffer[..i] == done + [buffer[i - 1]];
      }
      GroupEnd(value, buffer[..i]);
      ghost var last := buffer[..i];
      buffer[i - 1] := buffer[i - 1] - 128;
      assert buffer[..i] == last[..i - 1] + [last[i - 1] - 128];
      ok := Write(buffer[..i]);
    }

    method EncodeSvarint(value: int) returns (ok: bool)
      requires Valid() && -0x8000_0000_0000_0000 <= value < 0x8000_0000_0000_0000
      modifies this
      ensures Valid()
      ensures ok == old(Room(|Varint(ZigZag(value))|))
      ensures ok ==> Wrote(Varint(ZigZag(value)), old(out), old(bytesWritten))
    {
      var doubled: nat := (value % TWO_64) * 2 % TWO_64;
      var zigzagged: nat := if value < 0 then TWO_64 - 1 - doubled else doubled;
      Doubled(value);
      ok := EncodeVarint(zigzagged);
    }

    method EncodeTag(wt: nat, tag: nat) returns (ok: bool)
      requires Valid() && wt < 8 && 0 <= tag < TWO_32
      modifies this
      ensures Valid()
      ensures ok == old(Room(|TagBytes(tag, wt)|))
      ensures ok ==> Wrote(TagBytes(tag, wt), old(out), old(bytesWritten))
    {
      ok := EncodeVarint(tag * 8 + wt);
    }

    method EncodeString(data: bytes) returns (ok: bool)
      requires Valid() && |data| < TWO_64
      modifies this
      ensures Valid()
      ensures ok == old(Room(|Counted(data)|))
      ensures ok ==> Wrote(Counted(data), old(out), old(bytesWritten))
    {
      ok := EncodeVarint(|data|);
      if !ok {
        return;
      }
      ok := Write(data);
      assert old(out) + Varint(|data|) + data == old(out) + Counted(data);
    }
  }

  // ---- Progress through a run of bytes ----

  /** The groups written so far all have the top bit set, the last one too many in the end. */
  ghost predicate Groups(v: nat, left: nat, done: bytes) {
    if left != 0 then done + Varint(left) == Varint(v)
    else done != [] && done[|done| - 1] >= 128 && done[..|done| - 1] + [done[|done| - 1] - 128] == Varint(v)
  }

  lemma GroupStep(v: nat, left: nat, done: bytes)
    requires left != 0 && Groups(v, left, done)
    ensures |done| < |Varint(v)| && Groups(v, left / 128, done + [left % 128 + 128])
  {
    if left >= 128 {
      VarintStep(done, left);
    } else {
      assert Varint(left) == [left];
    }
  }

  lemma GroupStart(v: nat)
    requires v != 0
    ensures Groups(v, v, [])
  {
    assert [] + Varint(v) == Varint(v);
  }

  lemma GroupEnd(v: nat, done: bytes)
    requires Groups(v, 0, done)
    ensures done != [] && done[|done| - 1] >= 128
    ensures done[..|done| - 1] + [done[|done| - 1] - 128] == Varint(v)
  {
  }

  /** `rest` of the `total` bytes is still to be written. */
  ghost predicate Owes(s: OStream, rest: bytes, total: bytes, out0: bytes, n0: nat)
    reads s
  {
    Owing(s.sizing, s.out, s.bytesWritten, rest, total, out0, n0)
  }

  ghost predicate Owing(sizing: bool, out: bytes, n: nat, rest: bytes, total: bytes, out0: bytes, n0: nat) {
    && |rest| <= |total|
    && n + |rest| == n0 + |total|
    && (if sizing then out == out0 else out + rest == out0 + total)
  }

  /** The next piece has been paid off. */
  lemma Paid(s: OStream, out: bytes, n: nat, piece: bytes, rest: bytes, total: bytes, out0: bytes, n0: nat)
    requires Owing(s.sizing, out, n, piece + rest, total, out0, n0)
    requires s.Wrote(piece, out, n)
    ensures Owes(s, rest, total, out0, n0)
  {
    Assoc(out, piece, rest);
  }

  // ---- Encoding values, arrays, fields and messages ----

  method ScanText(data: bytes) returns (size: nat)
    ensures size == TextLength(data)
  {
    size := 0;
    while size < |data| && data[size] != 0
      invariant size <= |data| && TextLength(data) == size + TextLength(data[size..])
    {
      assert data[size..][1..] == data[size + 1..];
      size := size + 1;
    }
  }

  method EncodeOne(s: OStream, f: Field, v: Value) returns (ok: bool)
    requires s.Valid() && ValueFits(f, v) && |EncodeValue(f, v)| < TWO_64
    modifies s
    ensures s.Valid()
    ensures ok == (ValueEncodes(f, v) && old(s.Room(|EncodeValue(f, v)|)))
    ensures ok ==> s.Wrote(EncodeValue(f, v), old(s.out), old(s.bytesWritten))
    decreases f, 0
  {
    match f.kind
    case LBool =>
      ok := s.EncodeVarint(if v.b then 1 else 0);
    case LVarint | LUvarint =>
      if !IntSize(f.dataSize) {
        return false;
      }
      ok := s.EncodeVarint(v.n % TWO_64);
    case LSvarint =>
      if !IntSize(f.dataSize) {
        return false;
      }
      ok := s.EncodeSvarint(v.n);
    case LFixed32 =>
      ok := s.Write(Fixed(v.n, 4));
    case LFixed64 =>
      ok := s.Write(Fixed(v.n, 8));
    case LBytes =>
      if |v.data| + BYTES_HEADER > f.dataSize {
        return false;
      }
      ok := s.EncodeString(v.data);
    case LString =>
      var size := ScanText(v.data);
      ok := s.EncodeString(v.data[..size]);
    case LFixedLengthBytes =>
      ok := s.EncodeString(v.data);
    case LSubmessage =>
      ok := EncodeSubmessage(s, f.fields, v.slots);
  }

  /** Sizes the message on a stream of its own, writes the size, then the message with exactly that much room. */
  method EncodeSubmessage(s: OStream, fields: seq<Field>, slots: seq<Slot>) returns (ok: bool)
    requires s.Valid() && MessageFits(fields, slots) && |Counted(EncodeFrom(fields, slots, 0))| < TWO_64
    modifies s
    ensures s.Valid()
    ensures ok == (Encodes(fields, slots) && old(s.Room(|Counted(EncodeFrom(fields, slots, 0))|)))
    ensures ok ==> s.Wrote(Counted(EncodeFrom(fields, slots, 0)), old(s.out), old(s.bytesWritten))
    decreases fields, 2
  {
    ghost var body := EncodeFrom(fields, slots, 0);
    var sizer := new OStream(true, 0, []);
    ok := Encode(sizer, fields, slots);
    if !ok {
      return;
    }
    var size := sizer.bytesWritten;
    ok := s.EncodeVarint(size);
    if !ok {
      return;
    }
    if s.sizing {
      s.Count(size);
      return;
    }
    if s.bytesWritten + size > s.maxSize {
      return false;
    }
    var substream := new OStream(false, size, s.out);
    ok := Encode(substream, fields, slots);
    s.bytesWritten := s.bytesWritten + substream.bytesWritten;
    s.out := substream.out;
    if substream.bytesWritten != size {
      return false;
    }
    Assoc(old(s.out), Varint(size), body);
  }

  method EncodeRun(s: OStream, f: Field, items: seq<Value>) returns (ok: bool)
    requires s.Valid() && AllFit(f, items) && |EncodeItems(f, items)| < TWO_64
    modifies s
    ensures s.Valid()
    ensures ok == (ItemsEncode(f, items) && old(s.Room(|EncodeItems(f, items)|)))
    ensures ok ==> s.Wrote(EncodeItems(f, items), old(s.out), old(s.bytesWritten))
    decreases f, 1
  {
    hide EncodeValue, ValueEncodes, ValueFits;
    ghost var total, out0, n0 := EncodeItems(f, items), s.out, s.bytesWritten;
    for i := 0 to |items|
      invariant s.Valid() && Owes(s, EncodeItems(f, items[i..]), total, out0, n0)
      invariant forall k :: 0 <= k < i ==> ValueEncodes(f, items[k])
    {
      ghost var rest := EncodeItems(f, items[i + 1..]);
      assert items[i..][1..] == items[i + 1..];
      ghost var out1, n1 := s.out, s.bytesWritten;
      ok := EncodeOne(s, f, items[i]);
      if !ok {
        return;
      }
      Paid(s, out1, n1, EncodeValue(f, items[i]), rest, total, out0, n0);
    }
    ok := true;
  }

  method EncodeTaggedRun(s: OStream, f: Field, items: seq<Value>) returns (ok: bool)
    requires s.Valid() && AllFit(f, items) && |EncodeTagged(f, items)| < TWO_64
    modifies s
    ensures s.Valid()
    ensures ok == (ItemsEncode(f, items) && old(s.Room(|EncodeTagged(f, items)|)))
    ensures ok ==> s.Wrote(EncodeTagged(f, items), old(s.out), old(s.bytesWritten))
    decreases f, 1
  {
    hide EncodeValue, ValueEncodes, ValueFits;
    ghost var total, out0, n0 := EncodeTagged(f, items), s.out, s.bytesWritten;
    for i := 0 to |items|
      invariant s.Valid() && Owes(s, EncodeTagged(f, items[i..]), total, out0, n0)
      invariant forall k :: 0 <= k < i ==> ValueEncodes(f, items[k])
    {
      ghost var tag, value := TagBytes(f.tag, WireType(f.kind)), EncodeValue(f, items[i]);
      ghost var rest := EncodeTagged(f, items[i + 1..]);
      assert items[i..][1..] == items[i + 1..];
      Assoc(tag, value, rest);
      ghost var out1, n1 := s.out, s.bytesWritten;
      ok := s.EncodeTag(WireType(f.kind), f.tag);
      if !ok {
        return;
      }
      Paid(s, out1, n1, tag, value + rest, total, out0, n0);
      ghost var out2, n2 := s.out, s.bytesWritten;
      ok := EncodeOne(s, f, items[i]);
      if !ok {
        return;
      }
      Paid(s, out2, n2, value, rest, total, out0, n0);
    }
    ok := true;
  }

  lemma {:induction false} FixedItems(f: Field, items: seq<Value>)
    requires AllFit(f, items)
    ensures f.kind.LFixed32? ==> |EncodeItems(f, items)| == 4 * |items|
    ensures f.kind.LFixed64? ==> |EncodeItems(f, items)| == 8 * |items|
    decreases |items|
  {
    if items != [] {
      FixedItems(f, items[1..]);
    }
  }

  /** What the size prefix of a packed array says. */
  method PackedSize(f: Field, items: seq<Value>) returns (ok: bool, size: nat)
    requires AllFit(f, items) && |EncodeItems(f, items)| < TWO_64 && Packable(f.kind)
    ensures ok == ItemsEncode(f, items)
    ensures ok ==> size == |EncodeItems(f, items)|
    decreases f, 2
  {
    ok := true;
    FixedItems(f, items);
    if f.kind.LFixed32? {
      size := 4 * |items|;
    } else if f.kind.LFixed64? {
      size := 8 * |items|;
    } else {
      var sizer := new OStream(true, 0, []);
      ok := EncodeRun(sizer, f, items);
      size := sizer.bytesWritten;
    }
  }

  method EncodePacked(s: OStream, f: Field, items: seq<Value>) returns (ok: bool)
    requires s.Valid() && AllFit(f, items) && |Counted(EncodeItems(f, items))| < TWO_64
    requires Packable(f.kind)
    modifies s
    ensures s.Valid()
    ensures ok == (ItemsEncode(f, items) && old(s.Room(|TagBytes(f.tag, WT_STRING) + Counted(EncodeItems(f, items))|)))
    ensures ok ==> s.Wrote(TagBytes(f.tag, WT_STRING) + Counted(EncodeItems(f, items)), old(s.out), old(s.bytesWritten))
    decreases f, 3
  {
    ghost var tag, body := TagBytes(f.tag, WT_STRING), EncodeItems(f, items);
    ghost var total, out0, n0 := tag + Counted(body), s.out, s.bytesWritten;
    ghost var out1, n1 := s.out, s.bytesWritten;
    ok := s.EncodeTag(WT_STRING, f.tag);
    if !ok {
      return;
    }
    Paid(s, out1, n1, tag, Counted(body), total, out0, n0);
    var size;
    ok, size := PackedSize(f, items);
    if !ok {
      return;
    }
    ghost var out2, n2 := s.out, s.bytesWritten;
    ok := s.EncodeVarint(size);
    if !ok {
      return;
    }
    Paid(s, out2, n2, Varint(|body|), body, total, out0, n0);
    if s.sizing {
      s.Count(size);
      return;
    }
    ghost var out3, n3 := s.out, s.bytesWritten;
    ok := EncodeRun(s, f, items);
    assert body + [] == body;
    if ok {
      Paid(s, out3, n3, body, [], total, out0, n0);
    }
  }

  method EncodeArrayTo(s: OStream, f: Field, items: seq<Value>) returns (ok: bool)
    requires s.Valid() && AllFit(f, items) && |EncodeArray(f, items)| < TWO_64
    modifies s
    ensures s.Valid()
    ensures ok == (|items| <= f.arraySize && ItemsEncode(f, items) && old(s.Room(|EncodeArray(f, items)|)))
    ensures ok ==> s.Wrote(EncodeArray(f, items), old(s.out), old(s.bytesWritten))
    decreases f, 4
  {
    if |items| == 0 {
      return true;
    }
    if |items| > f.arraySize {
      return false;
    }
    if Packable(f.kind) {
      ok := EncodePacked(s, f, items);
    } else {
      ok := EncodeTaggedRun(s, f, items);
    }
  }

  /** One field: nothing when absent, else its tagged value, or its array. */
  method EncodeField(s: OStream, f: Field, slot: Slot) returns (ok: bool)
    requires s.Valid() && SlotFits(f, slot) && |EncodeSlot(f, slot)| < TWO_64
    modifies s
    ensures s.Valid()
    ensures ok == (SlotEncodes(f, slot) && old(s.Room(|EncodeSlot(f, slot)|)))
    ensures ok ==> s.Wrote(EncodeSlot(f, slot), old(s.out), old(s.bytesWritten))
    decreases f, 5
  {
    match f.rule
    case Required =>
      ok := EncodeTaggedRun(s, f, [slot.value]);
    case Optional(hasFlag) =>
      var has := if hasFlag then slot.has else !ZeroSlot(f, slot);
      if has {
        ok := EncodeTaggedRun(s, f, [slot.value]);
      } else {
        ok := true;
      }
    case Repeated(_) =>
      ok := EncodeArrayTo(s, f, slot.items);
    case OneOf(_) =>
      if slot.Chosen? && slot.tag == f.tag {
        ok := EncodeTaggedRun(s, f, [slot.value]);
      } else {
        ok := true;
      }
  }

  /**
   Writes the message, or counts its bytes on a sizing stream: the same number either way.
   It fails exactly when a value is refused or the stream has no room for the whole.
   */
  method Encode(s: OStream, fields: seq<Field>, slots: seq<Slot>) returns (ok: bool)
    requires s.Valid() && MessageFits(fields, slots) && |EncodeFrom(fields, slots, 0)| < TWO_64
    modifies s
    ensures s.Valid()
    ensures ok == (Encodes(fields, slots) && old(s.Room(|EncodeFrom(fields, slots, 0)|)))
    ensures ok ==> s.Wrote(EncodeFrom(fields, slots, 0), old(s.out), old(s.bytesWritten))
    decreases fields, 1
  {
    ghost var total, out0, n0 := EncodeFrom(fields, slots, 0), s.out, s.bytesWritten;
    hide EncodeFrom, EncodeAt, EncodesAt, Encodes, EncodedUpTo, EncodeSlot, SlotEncodes, SlotFits, MessageFits, SlotOf;
    EncodeEnds(fields, slots);
    var iter := new FieldIter(fields);
    var more := fields != [];
    ghost var i: nat := 0;
    while more
      invariant if more then i < |fields| && i == iter.pos else i == |fields|
      invariant s.Valid() && iter.Valid() && iter.fields == fields && fresh(iter)
      invariant Owes(s, EncodeFrom(fields, slots, i), total, out0, n0) && EncodedUpTo(fields, slots, i)
      decreases |fields| - i
    {
      EncodeStep(fields, slots, i);
      ghost var out1, n1 := s.out, s.bytesWritten;
      ok := EncodeField(s, fields[iter.pos], slots[iter.slot]);
      if !ok {
        return;
      }
      Paid(s, out1, n1, EncodeAt(fields, slots, i), EncodeFrom(fields, slots, i + 1), total, out0, n0);
      more := iter.Next();
      i := i + 1;
    }
    ok := true;
  }

  ghost predicate EncodedUpTo(fields: seq<Field>, slots: seq<Slot>, n: nat)
    requires MessageFits(fields, slots) && n <= |fields|
  {
    forall k :: 0 <= k < n ==> EncodesAt(fields, slots, k)
  }

  lemma EncodeStep(fields: seq<Field>, slots: seq<Slot>, i: nat)
    requires MessageFits(fields, slots) && i < |fields|
    ensures SlotOf(fields, i) < |slots| && SlotFits(fields[i], slots[SlotOf(fields, i)])
    ensures EncodeAt(fields, slots, i) == EncodeSlot(fields[i], slots[SlotOf(fields, i)])
    ensures EncodeFrom(fields, slots, i) == EncodeAt(fields, slots, i) + EncodeFrom(fields, slots, i + 1)
    ensures
      var encodes := SlotEncodes(fields[i], slots[SlotOf(fields, i)]);
      && (EncodedUpTo(fields, slots, i + 1) <==> EncodedUpTo(fields, slots, i) && encodes)
      && (Encodes(fields, slots) ==> encodes)
  {
    assert SlotAt(fields, slots, i);
    hide EncodeSlot, SlotEncodes, SlotFits, MessageFits;
    assert EncodesAt(fields, slots, i) == SlotEncodes(fields[i], slots[SlotOf(fields, i)]);
  }

  lemma EncodeEnds(fields: seq<Field>, slots: seq<Slot>)
    requires MessageFits(fields, slots)
    ensures EncodedUpTo(fields, slots, 0) && EncodeFrom(fields, slots, |fields|) == []
    ensures EncodedUpTo(fields, slots, |fields|) ==> Encodes(fields, slots)
  {
    hide EncodesAt, MessageFits;
  }

  /** Sizing alone tells how many bytes writing will take. */
  method GetEncodedSize(fields: seq<Field>, slots: seq<Slot>) returns (ok: bool, size: nat)
    requires MessageFits(fields, slots) && |EncodeFrom(fields, slots, 0)| < TWO_64
    ensures ok == Encodes(fields, slots)
    ensures ok ==> size == |EncodeFrom(fields, slots, 0)|
  {
    var stream := new OStream(true, 0, []);
    ok := Encode(stream, fields, slots);
    size := stream.bytesWritten;
  }

  lemma Doubled(value: int)
    requires -0x8000_0000_0000_0000 <= value < 0x8000_0000_0000_0000
    ensures (value % TWO_64) * 2 % TWO_64 == if value < 0 then TWO_64 + 2 * value else 2 * value
  {
    if value < 0 {
      assert value % TWO_64 == TWO_64 + value;
    }
  }
}
