/**
 The decoder at work (nanopb pb_decode.c): an input stream and the methods that read it, each
 proved to read what `NanopbDecode` says the bytes mean.
 */
module NanopbReader {
  import opened Coding
  import opened Nanopb
  import opened NanopbDecode
  import opened NanopbRecords
  import opened NanopbLimits
  import opened NanopbArrays

  /** A stretch of a buffer; substreams share the buffer and end earlier. */
  class IStream {
    const data: bytes
    var state: nat
    var bytesLeft: nat

    constructor (data: bytes, state: nat, bytesLeft: nat)
      requires state + bytesLeft <= |data|
      ensures this.data == data && this.state == state && this.bytesLeft == bytesLeft
    {
      this.data, this.state, this.bytesLeft := data, state, bytesLeft;
    }

    ghost predicate Valid()
      reads this
    {
      state + bytesLeft <= |data|
    }

    ghost function View(): bytes
      requires Valid()
      reads this
    {
      data[state..state + bytesLeft]
    }

    /** Where the stretch ends; reading never moves it. */
    ghost function End(): nat
      reads this
    {
      state + bytesLeft
    }

    method ReadByte() returns (ok: bool, b: byte)
      requires Valid()
      modifies this
      ensures Valid() && End() == old(End())
      ensures ok == (old(View()) != [])
      ensures ok ==> b == old(View())[0] && View() == old(View())[1..]
      ensures !ok ==> View() == old(View())
    {
      b := 0;
      if bytesLeft == 0 {
        return false, b;
      }
      b := data[state];
      state, bytesLeft := state + 1, bytesLeft - 1;
      ok := true;
    }

    method Read(count: nat) returns (ok: bool, s: bytes)
      requires Valid()
      modifies this
      ensures Valid() && End() == old(End())
      ensures ok == Take(old(View()), count).Parsed?
      ensures ok ==> Parsed(s, View()) == Take(old(View()), count)
    {
      s := [];
      if count == 0 {
        assert View()[..0] == [] && View()[0..] == View();
        return true, s;
      }
      if bytesLeft < count {
        return false, s;
      }
      s := data[state..state + count];
      assert s == View()[..count] && data[state + count..state + bytesLeft] == View()[count..];
      state, bytesLeft := state + count, bytesLeft - count;
      ok := true;
    }

    // ---- Numbers ----

    /** `eof` when there was nothing to read. */
    method ReadVarint32Eof() returns (ok: bool, v: uint32, eof: bool)
      requires Valid()
      modifies this
      ensures Valid() && End() == old(End())
      ensures ok == DecodeVarint32(old(View())).Parsed?
      ensures ok ==> Parsed(v, View()) == DecodeVarint32(old(View()))
      ensures eof == (old(View()) == []) && (eof ==> View() == [])
    {
      hide AddGroup;
      ghost var whole := DecodeVarint32(View());
      v, eof := 0, false;
      var b;
      ok, b := ReadByte();
      if !ok {
        return ok, v, true;
      }
      if b < 128 {
        return true, b, eof;
      }
      var bitpos: nat := 7;
      var result: uint32 := b % 128;
      var more := true;
      while more
        invariant Valid() && End() == old(End()) && 0 <= bitpos < 256
        invariant more ==> whole == Varint32Tail(View(), bitpos, result)
        invariant !more ==> whole == if bitpos == 35 && b >= 16 then Bad else Parsed(result, View())
        decreases bytesLeft, more
      {
        ok, b := ReadByte();
        if !ok {
          return;
        }
        if bitpos >= 32 {
          var sign := SignExtension(bitpos);
          if b % 128 != 0 && (result < 0x8000_0000 || b != sign) {
            return false, v, eof;
          }
        }
        result := AddGroup(result, b, bitpos);
        bitpos := (bitpos + 7) % 256;
        more := b >= 128;
      }
      if bitpos == 35 && b >= 16 {
        return false, v, eof;
      }
      ok, v := true, result;
    }

    method ReadVarint32() returns (ok: bool, v: uint32)
      requires Valid()
      modifies this
      ensures Valid() && End() == old(End())
      ensures ok == DecodeVarint32(old(View())).Parsed?
      ensures ok ==> Parsed(v, View()) == DecodeVarint32(old(View()))
    {
      var eof;
      ok, v, eof := ReadVarint32Eof();
    }

    /** At most ten bytes; adding equals the source's bitwise or, since the groups do not overlap. */
    method ReadVarint64() returns (ok: bool, v: uint64)
      requires Valid()
      modifies this
      ensures Valid() && End() == old(End())
      ensures ok == Varint64(old(View())).Some?
      ensures ok ==> Some((v, View())) == Varint64(old(View()))
    {
      hide ReadVarint, Rest, Added;
      ghost var input := View();
      var bitpos: nat, scale: nat, result: uint64 := 0, 1, 0;
      ghost var sum: nat, i: nat := 0, 0;
      v := 0;
      assert input[0..] == input;
      RestAll(input);
      while true
        invariant Valid() && End() == old(End()) && i <= |input| && View() == input[i..]
        invariant bitpos == 7 * i && i <= MAX_VARINT64 && 0 < scale && result == sum % TWO_64
        invariant ReadVarint(input, MAX_VARINT64) == Rest(ReadVarint(View(), MAX_VARINT64 - i), sum, scale, i)
        decreases bytesLeft
      {
        if bitpos >= 64 {
          EmptyVarint(View(), MAX_VARINT64 - i);
          RestNone(sum, scale, i);
          return false, v;
        }
        ghost var view := View();
        var b;
        ok, b := ReadByte();
        if !ok {
          EmptyVarint(view, MAX_VARINT64 - i);
          RestNone(sum, scale, i);
          return;
        }
        RestStep(view, MAX_VARINT64 - i, sum, scale, i);
        AddedIs(sum, b % 128, scale);
        result := Added(result, b % 128, scale);
        sum := sum + (b % 128) * scale;
        scale := 128 * scale;
        bitpos := bitpos + 7;
        i := i + 1;
        if b < 128 {
          return true, result;
        }
      }
    }

    // ---- Tags and fields to skip ----

    /** `eof` at the end of the stream and at a zero, which ends a message. */
    method ReadTag() returns (ok: bool, wt: nat, tag: nat, eof: bool)
      requires Valid()
      modifies this
      ensures Valid() && End() == old(End())
      ensures ok == DecodeTag(old(View())).TagRead?
      ensures ok ==> TagRead(tag, wt, View()) == DecodeTag(old(View()))
      ensures eof == DecodeTag(old(View())).Ended?
      ensures eof ==> Ended(View()) == DecodeTag(old(View()))
    {
      wt, tag := 0, 0;
      var v;
      ok, v, eof := ReadVarint32Eof();
      if !ok {
        return;
      }
      if v == 0 {
        return false, wt, tag, true;
      }
      wt, tag := v % 8, v / 8;
    }

    method PassVarint() returns (ok: bool)
      requires Valid()
      modifies this
      ensures Valid() && End() == old(End())
      ensures ok == SkipVarint(old(View())).Some?
      ensures ok ==> Some(View()) == SkipVarint(old(View()))
    {
      var b: byte := 0x80;
      ghost var whole := SkipVarint(View());
      while b >= 128
        invariant Valid() && End() == old(End())
        invariant b >= 128 ==> whole == SkipVarint(View())
        invariant b < 128 ==> whole == Some(View())
        decreases bytesLeft, b
      {
        ok, b := ReadByte();
        if !ok {
          return;
        }
      }
      ok := true;
    }

    method PassString() returns (ok: bool)
      requires Valid()
      modifies this
      ensures Valid() && End() == old(End())
      ensures ok == TakeCounted(old(View())).Parsed?
      ensures ok ==> View() == TakeCounted(old(View())).rest
    {
      hide DecodeVarint32;
      var n, s;
      ok, n := ReadVarint32();
      if ok {
        ok, s := Read(n);
      }
    }

    method PassField(wt: nat) returns (ok: bool)
      requires Valid()
      modifies this
      ensures Valid() && End() == old(End())
      ensures ok == SkipField(old(View()), wt).Some?
      ensures ok ==> Some(View()) == SkipField(old(View()), wt)
    {
      hide TakeCounted, SkipVarint;
      var s;
      if wt == WT_VARINT {
        ok := PassVarint();
      } else if wt == WT_64BIT {
        ok, s := Read(8);
      } else if wt == WT_STRING {
        ok := PassString();
      } else if wt == WT_32BIT {
        ok, s := Read(4);
      } else {
        ok := false;
      }
    }

    // ---- Substreams ----

    /** A stream over the next counted stretch. This one is behind until the substream is closed. */
    method MakeSubstream() returns (ok: bool, sub: IStream)
      requires Valid()
      modifies this
      ensures Valid() && sub.Valid() && fresh(sub) && sub.data == data
      ensures ok == TakeCounted(old(View())).Parsed?
      ensures ok ==> sub.View() == TakeCounted(old(View())).value && sub.End() + bytesLeft == old(End())
      ensures ok ==> sub.End() + bytesLeft <= |data|
      ensures ok ==> data[sub.End()..sub.End() + bytesLeft] == TakeCounted(old(View())).rest
      ensures !ok ==> End() == old(End())
    {
      hide DecodeVarint32;
      var size;
      ok, size := ReadVarint32();
      sub := new IStream(data, state, 0);
      if !ok {
        return;
      }
      if bytesLeft < size {
        return false, sub;
      }
      sub := new IStream(data, state, size);
      ghost var view := View();
      assert view == data[state..state + bytesLeft];
      assert data[state..state + size] == view[..size];
      assert data[state + size..state + bytesLeft] == view[size..];
      bytesLeft := bytesLeft - size;
    }

    /** Goes on behind the substream, skipping what it left. */
    method CloseSubstream(sub: IStream)
      requires sub != this && sub.Valid() && sub.data == data && sub.End() + bytesLeft <= |data|
      modifies this, sub
      ensures Valid() && View() == data[old(sub.End())..old(sub.End() + bytesLeft)]
      ensures End() == old(sub.End() + bytesLeft)
    {
      TakeAll(sub.View());
      hide Take;
      var ok, s := sub.Read(sub.bytesLeft);
      state := sub.state;
    }
  }

  lemma TakeAll(s: bytes)
    ensures Take(s, |s|) == Parsed(s, [])
  {
    assert s[..|s|] == s && s[|s|..] == [];
  }

  function Added(result: uint64, group: nat, scale: nat): uint64 {
    (result + group * scale) % TWO_64
  }

  lemma AddedIs(sum: nat, group: nat, scale: nat)
    ensures Added(sum % TWO_64, group, scale) == (sum + group * scale) % TWO_64
  {
    AddMod(sum, group * scale, TWO_64);
  }

  lemma RestAll(s: bytes)
    ensures ReadVarint(s, MAX_VARINT64) == Rest(ReadVarint(s, MAX_VARINT64), 0, 1, 0)
  {
  }

  lemma RestNone(sum: nat, scale: nat, i: nat)
    ensures Rest(None, sum, scale, i) == None
  {
  }

  lemma EmptyVarint(s: bytes, n: nat)
    ensures n == 0 || s == [] ==> ReadVarint(s, n) == None
  {
  }

  // ---- Values ----

  method ReadNumberFrom(s: IStream, f: Field) returns (ok: bool, v: Value)
    requires s.Valid() && (f.kind.LVarint? || f.kind.LUvarint? || f.kind.LSvarint?)
    modifies s
    ensures s.Valid() && s.End() == old(s.End())
    ensures ok == ReadNumber(f, old(s.View())).Parsed?
    ensures ok ==> Parsed(v, s.View()) == ReadNumber(f, old(s.View()))
  {
    hide Varint64, ToSigned, ToUnsigned, ToZigZagged;
    v := Number(0);
    var value;
    ok, value := s.ReadVarint64();
    if !ok {
      return;
    }
    var number: Option<int> :=
      if f.kind.LVarint? then ToSigned(value, f.dataSize)
      else if f.kind.LUvarint? then ToUnsigned(value, f.dataSize)
      else ToZigZagged(value, f.dataSize);
    if number.None? {
      return false, v;
    }
    v := Number(number.value);
  }

  method ReadDataFrom(s: IStream, f: Field) returns (ok: bool, v: Value)
    requires s.Valid() && (f.kind.LBytes? || f.kind.LString? || f.kind.LFixedLengthBytes?)
    modifies s
    ensures s.Valid() && s.End() == old(s.End())
    ensures ok == ReadData(f, old(s.View())).Parsed?
    ensures ok ==> Parsed(v, s.View()) == ReadData(f, old(s.View()))
  {
    hide DecodeVarint32, TextLength;
    v := Data([]);
    var size, data;
    ok, size := s.ReadVarint32();
    if !ok {
      return;
    }
    if f.kind.LBytes? && size + BYTES_HEADER > f.dataSize {
      return false, v;
    }
    if f.kind.LString? && (size + 1 > f.dataSize || size + 1 == TWO_32) {
      return false, v;
    }
    if f.kind.LFixedLengthBytes? {
      if size == 0 {
        return true, Zero(f);
      }
      if size != f.dataSize {
        return false, v;
      }
    }
    ok, data := s.Read(size);
    v := Data(if f.kind.LString? then data + [0] else data + []);
  }

  /** One value by its kind; a submessage through a substream. */
  method ReadOne(s: IStream, f: Field, before: Value) returns (ok: bool, v: Value)
    requires s.Valid() && FieldOk(f) && ValueFits(f, before)
    modifies s
    ensures s.Valid() && s.End() == old(s.End())
    ensures ok == ReadValue(f, old(s.View()), before).Parsed?
    ensures ok ==> Parsed(v, s.View()) == ReadValue(f, old(s.View()), before)
    decreases f, 0
  {
    hide ReadNumber, ReadData, DecodeVarint32, TakeCounted, DecodeMessage;
    v := before;
    match f.kind
    case LBool =>
      var n;
      ok, n := s.ReadVarint32();
      v := Truth(n != 0);
    case LVarint | LUvarint | LSvarint =>
      ok, v := ReadNumberFrom(s, f);
    case LFixed32 =>
      var raw;
      ok, raw := s.Read(4);
      v := Number(DecodeFixed(raw));
    case LFixed64 =>
      var raw;
      ok, raw := s.Read(8);
      v := Number(DecodeFixed(raw));
    case LBytes | LString | LFixedLengthBytes =>
      ok, v := ReadDataFrom(s, f);
    case LSubmessage =>
      ok, v := ReadSubmessage(s, f, before);
  }

  /** What a submessage's bytes say: array items start from their defaults, anything else from what is there. */
  function Decoded(f: Field, body: bytes, before: Value): Parsed<Value>
    requires FieldOk(f) && ValueFits(f, before) && f.kind.LSubmessage?
  {
    InitialFits(f.fields);
    match DecodeMessage(f.fields, body, if f.rule.Repeated? then InitialSlots(f.fields, |f.fields|) else before.slots)
    case Bad => Bad
    case Parsed(slots, _) => Parsed(Record(slots), [])
  }

  lemma SubmessageIs(f: Field, input: bytes, before: Value)
    requires FieldOk(f) && ValueFits(f, before) && f.kind.LSubmessage?
    ensures
      var c := TakeCounted(input);
      ReadValue(f, input, before) ==
        if c.Bad? || Decoded(f, c.value, before).Bad? then Bad else Parsed(Decoded(f, c.value, before).value, c.rest)
  {
    InitialFits(f.fields);
    hide TakeCounted, DecodeMessage, InitialSlots;
  }

  method ReadSubmessage(s: IStream, f: Field, before: Value) returns (ok: bool, v: Value)
    requires s.Valid() && FieldOk(f) && ValueFits(f, before) && f.kind.LSubmessage?
    modifies s
    ensures s.Valid() && s.End() == old(s.End())
    ensures ok == ReadValue(f, old(s.View()), before).Parsed?
    ensures ok ==> Parsed(v, s.View()) == ReadValue(f, old(s.View()), before)
    decreases f, 0, 0
  {
    hide TakeCounted, Decoded, FieldOk, ReadValue, ValueFits, IStream.View, IStream.End;
    SubmessageIs(f, s.View(), before);
    v := before;
    var sub;
    ok, sub := s.MakeSubstream();
    if !ok {
      return;
    }
    ok, v := DecodeInto(sub, f, before);
    s.CloseSubstream(sub);
  }

  method DecodeInto(sub: IStream, f: Field, before: Value) returns (ok: bool, v: Value)
    requires sub.Valid() && FieldOk(f) && ValueFits(f, before) && f.kind.LSubmessage?
    modifies sub
    ensures sub.Valid() && sub.End() == old(sub.End())
    ensures ok == Decoded(f, old(sub.View()), before).Parsed?
    ensures ok ==> v == Decoded(f, old(sub.View()), before).value
    decreases f, 0, 0, 0
  {
    InitialFits(f.fields);
    hide DecodeMessage, MessageFits, FieldOk, ReadValue, ValueFits, InitialSlots;
    var dest := new Struct(before.slots);
    if f.rule.Repeated? {
      ok := Decode(sub, f.fields, dest);
    } else {
      ok := DecodeNoInit(sub, f.fields, dest);
    }
    v := Record(dest.slots);
  }

  /**
   Every required field has come, each slot holds what the last record for it says, each array
   the items of all its records, and nothing has left its buffer.
   */
  ghost predicate WellDecoded(fields: seq<Field>, input: bytes, before: seq<Slot>, after: seq<Slot>)
    requires DescriptorOk(fields)
  {
    && AllCame(fields, input) && |after| == |before|
    && (forall j :: 0 <= j < |after| ==> SlotIsLast(fields, input, before[j], after[j], j))
    && (forall i :: 0 <= i < |fields| && fields[i].rule.Repeated? ==> ArrayCame(fields, i, input, before, after))
    && (DefaultsWithin(fields) && Within(fields, before) ==> Within(fields, after))
  }

  ghost predicate ArrayCame(fields: seq<Field>, i: nat, input: bytes, before: seq<Slot>, after: seq<Slot>)
    requires i < |fields| && DescriptorOk(fields)
  {
    var j := SlotOf(fields, i);
    j < |before| == |after| && ArrayIs(fields, i, input, before[j], after[j])
  }

  lemma DecodesWell(fields: seq<Field>, input: bytes, slots: seq<Slot>)
    requires DescriptorOk(fields) && MessageFits(fields, slots)
    ensures
      var r := DecodeMessage(fields, input, slots);
      r.Parsed? ==> WellDecoded(fields, input, slots, r.value)
  {
    hide DecodeMessage, DecodeLoop, MessageFits, AllCame, Within, DefaultsWithin, SlotIsLast, DescriptorOk, ArrayIs;
    var r := DecodeMessage(fields, input, slots);
    DecodesIff(fields, input, slots);
    if r.Parsed? {
      if DefaultsWithin(fields) && Within(fields, slots) {
        MessageWithin(fields, input, slots);
      }
      forall j | 0 <= j < |slots|
        ensures |r.value| == |slots| && SlotIsLast(fields, input, slots[j], r.value[j], j)
      {
        LastWins(fields, input, slots, j);
      }
      forall i | 0 <= i < |fields| && fields[i].rule.Repeated?
        ensures ArrayCame(fields, i, input, slots, r.value)
      {
        ArraysCome(fields, i, input, slots);
      }
      SameLength(fields, slots, r.value);
    }
  }

  lemma SameLength(fields: seq<Field>, slots: seq<Slot>, after: seq<Slot>)
    requires MessageFits(fields, slots) && MessageFits(fields, after)
    ensures |slots| == |after|
  {
  }

  /** The structure decoded into. */
  class Struct {
    var slots: seq<Slot>

    constructor (slots: seq<Slot>)
      ensures this.slots == slots
    {
      this.slots := slots;
    }
  }

  /** Decodes after setting the structure to its defaults. */
  method Decode(s: IStream, fields: seq<Field>, dest: Struct) returns (ok: bool)
    requires s.Valid() && DescriptorOk(fields)
    modifies s, dest
    ensures s.Valid() && s.End() == old(s.End())
    ensures MessageFits(fields, InitialSlots(fields, |fields|))
    ensures ok == DecodeMessage(fields, old(s.View()), InitialSlots(fields, |fields|)).Parsed?
    ensures ok ==> Parsed(dest.slots, s.View()) == DecodeMessage(fields, old(s.View()), InitialSlots(fields, |fields|))
    ensures ok ==> WellDecoded(fields, old(s.View()), InitialSlots(fields, |fields|), dest.slots)
    decreases fields, 4
  {
    hide WellDecoded;
    InitialFits(fields);
    dest.slots := SetToDefaults(fields);
    ok := DecodeNoInit(s, fields, dest);
  }

  // ---- Arrays ----

  method ReadPackedFrom(sub: IStream, f: Field, a0: Filled) returns (ok: bool, a: Filled)
    requires sub.Valid() && FieldOk(f) && FilledOk(f, a0) && Packable(f.kind)
    modifies sub
    ensures sub.Valid() && sub.End() == old(sub.End())
    ensures ok == ReadPacked(f, old(sub.View()), a0).Some?
    ensures ok ==> Some(a) == ReadPacked(f, old(sub.View()), a0)
    decreases f, 1
  {
    hide ReadValue, FilledOk;
    ghost var whole := ReadPacked(f, sub.View(), a0);
    a, ok := a0, true;
    while sub.bytesLeft > 0 && a.size < f.arraySize
      invariant sub.Valid() && sub.End() == old(sub.End()) && FilledOk(f, a)
      invariant whole == ReadPacked(f, sub.View(), a)
      decreases sub.bytesLeft
    {
      var v;
      ok, v := ReadOne(sub, f, f.initial);
      if !ok {
        return;
      }
      a := PutItem(f, a, v);
    }
    ok := sub.bytesLeft == 0;
  }

  method ReadItemsFrom(s: IStream, f: Field, wt: nat, a0: Filled) returns (ok: bool, a: Filled)
    requires s.Valid() && FieldOk(f) && FilledOk(f, a0)
    modifies s
    ensures s.Valid() && s.End() == old(s.End())
    ensures ok == ReadItems(f, wt, old(s.View()), a0).Parsed?
    ensures ok ==> Parsed(a, s.View()) == ReadItems(f, wt, old(s.View()), a0)
    decreases f, 2
  {
    hide ReadValue, TakeCounted, ReadPacked, FilledOk, InitialValue;
    a := a0;
    if wt == WT_STRING && Packable(f.kind) {
      var sub;
      ok, sub := s.MakeSubstream();
      if !ok {
        return;
      }
      ok, a := ReadPackedFrom(sub, f, a0);
      s.CloseSubstream(sub);
    } else {
      if a0.size >= f.arraySize {
        return false, a;
      }
      InitialValueFits(f);
      var v;
      ok, v := ReadOne(s, f, InitialValue(f));
      if ok {
        a := PutItem(f, a0, v);
      }
    }
  }

  // ---- Messages ----

  /** The required fields whose bits are set. */
  function SeenSet(bits: seq<bool>): set<nat> {
    set k: nat | k < |bits| && bits[k]
  }

  lemma SetBit(bits: seq<bool>, n: nat)
    requires n < |bits|
    ensures SeenSet(bits[n := true]) == SeenSet(bits) + {n}
  {
  }

  /** Reads the data of the field the iterator stands on into its slot. */
  method ReadFieldInto(s: IStream, iter: FieldIter, wt: nat, dest: Struct, fixedSize: nat, ghost st: State)
    returns (ok: bool, fixedAfter: nat)
    requires s.Valid() && iter.Valid() && iter.fields != [] && DescriptorOk(iter.fields)
    requires StateOk(iter.fields, st) && dest.slots == st.slots && fixedSize == st.fixedSize
    modifies s, dest
    ensures s.Valid() && s.End() == old(s.End())
    ensures ok == ReadField(iter.fields, iter.pos, wt, old(s.View()), st).Parsed?
    ensures ok ==> Parsed(st.(slots := dest.slots, fixedSize := fixedAfter), s.View()) ==
                   ReadField(iter.fields, iter.pos, wt, old(s.View()), st)
    decreases iter.fields, 0
  {
    hide ReadValue, ReadItems, MessageFits, FilledOk, InitialValue;
    var fields, i, f := iter.fields, iter.pos, iter.fields[iter.pos];
    FitsHere(fields, st.slots, i);
    var slot := dest.slots[iter.slot];
    fixedAfter := fixedSize;
    if f.rule.Repeated? {
      var a := FillOf(f, slot, fixedSize);
      ok, a := ReadItemsFrom(s, f, wt, a);
      if !ok {
        return;
      }
      dest.slots := dest.slots[iter.slot := Many(a.items)];
      fixedAfter := if f.rule.counted then fixedSize else a.size;
    } else {
      var v;
      ok, v := ReadOne(s, f, Before(f, slot));
      if !ok {
        return;
      }
      dest.slots := dest.slots[iter.slot := Stored(f, v)];
    }
  }

  lemma FitsHere(fields: seq<Field>, slots: seq<Slot>, i: nat)
    requires MessageFits(fields, slots) && i < |fields|
    ensures SlotAt(fields, slots, i) && SlotOf(fields, i) < |slots|
  {
  }

  /** Notes a field that was met; false when the array received before it is not complete. */
  method NoteInto(iter: FieldIter, seen: array<bool>, fixedField: nat, fixedSize: nat, ghost st: State)
    returns (ok: bool, field: nat, size: nat)
    requires iter.Valid() && iter.fields != [] && seen.Length == MAX_REQUIRED_FIELDS
    requires StateOk(iter.fields, st) && st.seen == SeenSet(seen[..]) && st.fixedField == fixedField && st.fixedSize == fixedSize
    modifies seen
    ensures ok == Note(iter.fields, iter.pos, st).Some?
    ensures ok ==> Some(State(st.slots, SeenSet(seen[..]), field, size)) == Note(iter.fields, iter.pos, st)
  {
    hide SeenSet, MessageFits;
    var f := iter.fields[iter.pos];
    ok, field, size := true, fixedField, fixedSize;
    if f.rule == Repeated(false) && fixedField != iter.pos {
      if fixedField != |iter.fields| && fixedSize != iter.fields[fixedField].arraySize {
        return false, field, size;
      }
      field, size := iter.pos, 0;
    }
    if f.rule.Required? && iter.requiredIndex < MAX_REQUIRED_FIELDS {
      SetBit(seen[..], iter.requiredIndex);
      seen[iter.requiredIndex] := true;
      assert seen[..] == old(seen[..])[iter.requiredIndex := true];
    }
  }

  /** How many required fields to check, by taking the iterator to the end of the ring. */
  method CountRequired(iter: FieldIter) returns (n: nat)
    requires iter.Valid()
    modifies iter
    ensures n == Tracked(iter.fields)
  {
    n := iter.requiredIndex;
    var last := true;
    var more := iter.fields != [];
    while more
      invariant iter.Valid() && (more ==> iter.fields != [])
      invariant !more && iter.fields != [] ==>
        last == iter.fields[|iter.fields| - 1].rule.Required? && n == RequiredBefore(iter.fields, |iter.fields| - 1)
      invariant iter.fields == [] ==> n == 0
      decreases more, |iter.fields| - iter.pos
    {
      n := iter.requiredIndex;
      last := iter.fields[iter.pos].rule.Required?;
      more := iter.Next();
    }
    if last && iter.fields != [] {
      n := n + 1;
    }
    if n > MAX_REQUIRED_FIELDS {
      n := MAX_REQUIRED_FIELDS;
    }
  }

  /** Whether the last array without a counter and all required fields have come. */
  method CheckComplete(iter: FieldIter, seen: array<bool>, fixedField: nat, fixedSize: nat, ghost st: State) returns (ok: bool)
    requires iter.Valid() && seen.Length == MAX_REQUIRED_FIELDS && st.fixedField <= |iter.fields|
    requires st.seen == SeenSet(seen[..]) && st.fixedField == fixedField && st.fixedSize == fixedSize
    modifies iter
    ensures ok == Complete(iter.fields, st)
  {
    if fixedField != |iter.fields| && fixedSize != iter.fields[fixedField].arraySize {
      return false;
    }
    var n := CountRequired(iter);
    for k := 0 to n
      invariant forall m :: 0 <= m < k ==> m in st.seen
    {
      assert k in st.seen <==> seen[..][k];
      if !seen[k] {
        return false;
      }
    }
    ok := true;
  }

  lemma StateParts(fields: seq<Field>, st: State)
    requires StateOk(fields, st)
    ensures MessageFits(fields, st.slots) && st.fixedField <= |fields|
  {
  }

  method ReadAfterTag(s: IStream, iter: FieldIter, seen: array<bool>, dest: Struct, wt: nat, tag: nat, fixedField: nat,
                      fixedSize: nat, ghost st: State)
    returns (ok: bool, field: nat, size: nat, ghost st': State)
    requires s.Valid() && iter.Valid() && DescriptorOk(iter.fields) && seen.Length == MAX_REQUIRED_FIELDS
    requires StateOk(iter.fields, st) && st == State(dest.slots, SeenSet(seen[..]), fixedField, fixedSize)
    modifies s, iter, seen, dest
    ensures s.Valid() && s.End() == old(s.End()) && iter.Valid()
    ensures ok == AfterTag(iter.fields, tag, wt, old(s.View()), st).Parsed?
    ensures ok ==> Parsed(st', s.View()) == AfterTag(iter.fields, tag, wt, old(s.View()), st)
    ensures ok ==> StateOk(iter.fields, st') && st' == State(dest.slots, SeenSet(seen[..]), field, size)
    decreases iter.fields, 1
  {
    hide MessageFits, ReadField, Note, SeenSet, SkipField, DecodeVarint32, StateOk, DescriptorOk;
    field, size, st' := fixedField, fixedSize, st;
    var found := iter.Find(tag);
    if !found {
      ok := s.PassField(wt);
    } else if iter.fields == [] {
      var n;
      ok, n := s.ReadVarint32();
    } else {
      ok, field, size := NoteInto(iter, seen, fixedField, fixedSize, st);
      if ok {
        st' := State(dest.slots, SeenSet(seen[..]), field, size);
        ok, size := ReadFieldInto(s, iter, wt, dest, size, st');
        st' := st'.(slots := dest.slots, fixedSize := size);
      }
    }
  }

  /** Reads fields to the end of the stream, or to a zero tag, into `dest`. */
  method DecodeNoInit(s: IStream, fields: seq<Field>, dest: Struct) returns (ok: bool)
    requires s.Valid() && DescriptorOk(fields) && MessageFits(fields, dest.slots)
    modifies s, dest
    ensures s.Valid() && s.End() == old(s.End())
    ensures ok == DecodeMessage(fields, old(s.View()), old(dest.slots)).Parsed?
    ensures ok ==> Parsed(dest.slots, s.View()) == DecodeMessage(fields, old(s.View()), old(dest.slots))
    ensures ok ==> WellDecoded(fields, old(s.View()), old(dest.slots), dest.slots)
    decreases fields, 3
  {
    hide MessageFits, DecodeTag, DecodeLoop, AfterTag, SeenSet, Complete, StateOk, WellDecoded;
    StartIs(fields, dest.slots);
    DecodesWell(fields, s.View(), dest.slots);
    var seen := new bool[MAX_REQUIRED_FIELDS](_ => false);
    var iter := new FieldIter(fields);
    var fixedField: nat, fixedSize: nat, open := |fields|, 0, true;
    ghost var st := Start(fields, dest.slots);
    ghost var whole := DecodeLoop(fields, s.View(), st);
    NothingSeen(seen[..]);
    while open && s.bytesLeft > 0
      invariant s.Valid() && s.End() == old(s.End()) && iter.Valid() && iter.fields == fields && fresh(iter) && fresh(seen)
      invariant StateOk(fields, st) && st == State(dest.slots, SeenSet(seen[..]), fixedField, fixedSize)
      invariant whole == if open then DecodeLoop(fields, s.View(), st) else Parsed(st, s.View())
      decreases open, s.bytesLeft
    {
      LoopIs(fields, s.View(), st);
      var wt, tag, eof;
      ok, wt, tag, eof := s.ReadTag();
      if !ok && !eof {
        return;
      }
      if eof {
        open := false;
      } else {
        ok, fixedField, fixedSize, st := ReadAfterTag(s, iter, seen, dest, wt, tag, fixedField, fixedSize, st);
        if !ok {
          return;
        }
      }
    }
    DecodeNothing(fields, st);
    StateParts(fields, st);
    ok := CheckComplete(iter, seen, fixedField, fixedSize, st);
  }

  lemma NothingSeen(bits: seq<bool>)
    requires forall k :: 0 <= k < |bits| ==> !bits[k]
    ensures SeenSet(bits) == {}
  {
  }
}
