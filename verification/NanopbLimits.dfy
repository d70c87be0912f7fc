/**
 What decoding refuses: numbers out of range for their field, data too long for its buffer and
 items beyond the end of their array (nanopb pb_decode.c).
 */
module NanopbLimits {
  import opened Coding
  import opened Nanopb
  import opened NanopbEncode
  import opened NanopbDecode

  // ---- Numbers ----

  lemma Halves8(v: int, n: int)
    ensures Signed(v, 1) == n <==> 0 - 0x80 <= n < 0x80 && (v - n) % (2 * 0x80) == 0
  {
  }

  lemma Halves16(v: int, n: int)
    ensures Signed(v, 2) == n <==> 0 - 0x8000 <= n < 0x8000 && (v - n) % (2 * 0x8000) == 0
  {
  }

  lemma Halves32(v: int, n: int)
    ensures Signed(v, 4) == n <==> 0 - 0x8000_0000 <= n < 0x8000_0000 && (v - n) % (2 * 0x8000_0000) == 0
  {
  }

  lemma Halves64(v: int, n: int)
    ensures Signed(v, 8) == n <==> 0 - 0x8000_0000_0000_0000 <= n < 0x8000_0000_0000_0000 && (v - n) % (2 * 0x8000_0000_0000_0000) == 0
  {
  }

  /** Two's complement: the one number of this size that agrees in the low bits. */
  lemma SignedIff(v: int, size: nat, n: int)
    requires IntSize(size)
    ensures Signed(v, size) == n <==> 0 - Half(size) <= n < Half(size) && (v - n) % (2 * Half(size)) == 0
  {
    if size == 1 {
      Halves8(v, n);
    } else if size == 2 {
      Halves16(v, n);
    } else if size == 4 {
      Halves32(v, n);
    } else {
      Halves64(v, n);
    }
  }

  /** A signed field takes the number its low word stands for, if it has that range. */
  lemma SignedExact(v: uint64, size: nat, n: int)
    ensures ToSigned(v, size) == Some(n) <==>
              IntSize(size) && 0 - Half(size) <= n < Half(size) && (v - n) % (if size == 8 then TWO_64 else TWO_32) == 0
  {
    hide Signed;
    var w := if size == 8 then 8 else 4;
    SignedIff(v, w, n);
    if IntSize(size) {
      SignedIff(Signed(v, w), size, Signed(v, w));
      SignedIff(v, w, Signed(v, w));
    }
  }

  lemma UnsignedExact(v: uint64, size: nat, n: nat)
    ensures ToUnsigned(v, size) == Some(n) <==> IntSize(size) && n == v < 2 * Half(size)
  {
  }

  lemma ZigZagExact(v: uint64, size: nat, n: int)
    ensures ToZigZagged(v, size) == Some(n) <==> IntSize(size) && 0 - Half(size) <= n < Half(size) && ZigZag(n) == v
  {
    hide Signed;
    if IntSize(size) {
      SignedIff(UnZigZag(v), size, UnZigZag(v));
    }
  }

  // ---- Buffers ----

  /** The value is within the storage of its field. */
  predicate WithinField(f: Field, v: Value)
    decreases f, 0
  {
    match f.kind
    case LBytes => v.Data? && |v.data| + BYTES_HEADER <= f.dataSize
    case LSubmessage => v.Record? && Within(f.fields, v.slots)
    case _ => true
  }

  predicate SlotWithin(f: Field, s: Slot)
    decreases f, 1
  {
    match f.rule
    case Required => s.Single? && WithinField(f, s.value)
    case Optional(hasFlag) => (if hasFlag then s.Maybe? else s.Single?) && WithinField(f, s.value)
    case Repeated(_) => s.Many? && |s.items| <= f.arraySize && forall k :: 0 <= k < |s.items| ==> WithinField(f, s.items[k])
    case OneOf(_) => s.Chosen? && s.tag == f.tag ==> WithinField(f, s.value)
  }

  /** Every value is within its buffer and every array within its bound, at every depth. */
  predicate Within(fields: seq<Field>, slots: seq<Slot>)
    decreases fields, 2
  {
    forall i :: 0 <= i < |fields| ==> WithinAt(fields, slots, i)
  }

  predicate WithinAt(fields: seq<Field>, slots: seq<Slot>, i: nat)
    requires i < |fields|
    decreases fields, 1
  {
    SlotOf(fields, i) < |slots| && SlotWithin(fields[i], slots[SlotOf(fields, i)])
  }

  /** The defaults are within their buffers. */
  predicate DefaultsWithin(fields: seq<Field>)
    decreases fields
  {
    forall i :: 0 <= i < |fields| ==> DefaultWithin(fields[i])
  }

  predicate DefaultWithin(f: Field)
    decreases f
  {
    if f.kind.LSubmessage? then DefaultsWithin(f.fields) else WithinField(f, f.initial)
  }

  lemma {:induction false} InitialWithin(f: Field)
    requires DefaultWithin(f)
    ensures WithinField(f, InitialValue(f))
    decreases f, 0
  {
    if f.kind.LSubmessage? {
      InitialsWithin(f.fields);
    }
  }

  lemma {:induction false} InitialsWithin(fields: seq<Field>)
    requires DefaultsWithin(fields)
    ensures Within(fields, InitialSlots(fields, |fields|))
    decreases fields, 1
  {
    forall i | 0 <= i < |fields|
      ensures WithinAt(fields, InitialSlots(fields, |fields|), i)
    {
      assert DefaultWithin(fields[i]);
      InitialWithin(fields[i]);
      InitialSlotIs(fields, i, |fields|);
    }
  }

  lemma {:induction false} ValueWithin(f: Field, input: bytes, before: Value)
    requires FieldOk(f) && ValueFits(f, before) && DefaultWithin(f) && WithinField(f, before)
    ensures
      var r := ReadValue(f, input, before);
      r.Parsed? ==> WithinField(f, r.value)
    decreases f, 0
  {
    hide DecodeVarint32, DecodeMessage, MessageFits, Within, InitialSlots, TextLength, Take, DescriptorOk, DefaultsWithin;
    if f.kind.LSubmessage? {
      var t := TakeCounted(input);
      if t.Parsed? {
        SubWithin(f, t.value, before);
      }
    } else if f.kind.LBytes? {
      var n := DecodeVarint32(input);
      if n.Parsed? {
        TakeIs(n.rest, n.value);
      }
    }
  }

  lemma TakeIs(input: bytes, n: nat)
    ensures Take(input, n).Parsed? ==> |DataOf(Take(input, n), []).value.data| == n
  {
  }

  lemma {:induction false} SubWithin(f: Field, body: bytes, before: Value)
    requires FieldOk(f) && f.kind.LSubmessage? && ValueFits(f, before) && DefaultWithin(f) && WithinField(f, before)
    ensures MessageFits(f.fields, InitialSlots(f.fields, |f.fields|))
    ensures
      var slots := if f.rule.Repeated? then InitialSlots(f.fields, |f.fields|) else before.slots;
      var r := DecodeMessage(f.fields, body, slots);
      r.Parsed? ==> Within(f.fields, r.value)
    decreases f, 0, 0
  {
    hide DecodeMessage, MessageFits, Within, InitialSlots;
    InitialFits(f.fields);
    InitialsWithin(f.fields);
    MessageWithin(f.fields, body, if f.rule.Repeated? then InitialSlots(f.fields, |f.fields|) else before.slots);
  }

  /** An array being received is within its bound. */
  predicate FilledWithin(f: Field, a: Filled) {
    |a.items| <= f.arraySize && forall k :: 0 <= k < |a.items| ==> WithinField(f, a.items[k])
  }

  lemma PutWithin(f: Field, a: Filled, v: Value)
    requires FilledOk(f, a) && a.size < f.arraySize && ValueFits(f, v) && FilledWithin(f, a) && WithinField(f, v)
    ensures FilledWithin(f, PutItem(f, a, v))
  {
    hide WithinField, ValueFits;
  }

  lemma {:induction false} PackedWithin(f: Field, input: bytes, a: Filled)
    requires FieldOk(f) && FilledOk(f, a) && Packable(f.kind) && FilledWithin(f, a)
    ensures
      var r := ReadPacked(f, input, a);
      r.Some? ==> FilledWithin(f, r.value)
    decreases |input|
  {
    hide ReadValue, FilledWithin, PutItem, ValueFits, FilledOk;
    if input != [] && a.size < f.arraySize {
      InitialIsOwn(f);
      var v := ReadValue(f, input, f.initial);
      if v.Parsed? {
        PutWithin(f, a, v.value);
        PackedWithin(f, v.rest, PutItem(f, a, v.value));
      }
    }
  }

  lemma InitialIsOwn(f: Field)
    requires FieldOk(f) && Packable(f.kind)
    ensures ValueFits(f, f.initial) && forall v :: WithinField(f, v)
  {
  }

  lemma {:induction false} ItemsWithin(f: Field, wt: nat, input: bytes, a: Filled)
    requires FieldOk(f) && FilledOk(f, a) && DefaultWithin(f) && FilledWithin(f, a)
    ensures
      var r := ReadItems(f, wt, input, a);
      r.Parsed? ==> FilledWithin(f, r.value)
    decreases f, 2
  {
    hide ReadValue, FilledWithin, PutItem, ValueFits, ReadPacked, TakeCounted, FieldOk, FilledOk, DefaultWithin;
    if wt == WT_STRING && Packable(f.kind) {
      var t := TakeCounted(input);
      if t.Parsed? {
        PackedWithin(f, t.value, a);
      }
    } else if a.size < f.arraySize {
      InitialValueFits(f);
      InitialWithin(f);
      ValueWithin(f, input, InitialValue(f));
      var v := ReadValue(f, input, InitialValue(f));
      if v.Parsed? {
        PutWithin(f, a, v.value);
      }
    }
  }

  lemma SetWithin(fields: seq<Field>, i: nat, st: State, s: Slot)
    requires i < |fields| && DescriptorOk(fields) && StateOk(fields, st) && SlotFits(fields[i], s)
    requires fields[i].rule.OneOf? ==> s.Chosen? && s.tag == fields[i].tag
    requires Within(fields, st.slots) && SlotWithin(fields[i], s)
    ensures Within(fields, SetSlot(fields, i, st, s).slots)
  {
    hide ValueFits, WithinField, FieldOk;
    var after := SetSlot(fields, i, st, s).slots;
    forall k | 0 <= k < |fields|
      ensures WithinAt(fields, after, k)
    {
      assert WithinAt(fields, st.slots, k);
      if k < i {
        SlotsAscend(fields, k, i);
        assert fields[k].tag != fields[i].tag;
      } else if i < k {
        SlotsAscend(fields, i, k);
        assert fields[i].tag != fields[k].tag;
      }
    }
  }

  lemma {:induction false} FieldWithin(fields: seq<Field>, i: nat, wt: nat, input: bytes, st: State)
    requires i < |fields| && DescriptorOk(fields) && StateOk(fields, st)
    requires DefaultsWithin(fields) && Within(fields, st.slots)
    ensures
      var r := ReadField(fields, i, wt, input, st);
      r.Parsed? ==> Within(fields, r.value.slots)
    decreases fields, 0, 0
  {
    var f := fields[i];
    assert FieldOk(f) && SlotAt(fields, st.slots, i) && WithinAt(fields, st.slots, i) && DefaultWithin(f);
    var s := st.slots[SlotOf(fields, i)];
    assert SlotWithin(f, s);
    hide ReadValue, ReadItems, ValueFits, WithinField, FieldOk, DefaultWithin, Within, DescriptorOk, MessageFits;
    if f.rule.Repeated? {
      var a := FillOf(f, s, st.fixedSize);
      ItemsWithin(f, wt, input, a);
      var r := ReadItems(f, wt, input, a);
      if r.Parsed? {
        SetWithin(fields, i, if f.rule.counted then st else st.(fixedSize := r.value.size), Many(r.value.items));
      }
    } else {
      BeforeWithin(f, s);
      ValueWithin(f, input, Before(f, s));
      var r := ReadValue(f, input, Before(f, s));
      if r.Parsed? {
        SetWithin(fields, i, st, Stored(f, r.value));
      }
    }
  }

  lemma BeforeWithin(f: Field, s: Slot)
    requires FieldOk(f) && SlotFits(f, s) && !f.rule.Repeated? && DefaultWithin(f) && SlotWithin(f, s)
    ensures WithinField(f, Before(f, s))
  {
    InitialWithin(f);
  }

  lemma {:induction false} LoopWithin(fields: seq<Field>, input: bytes, st: State)
    requires DescriptorOk(fields) && StateOk(fields, st) && DefaultsWithin(fields) && Within(fields, st.slots)
    ensures
      var r := DecodeLoop(fields, input, st);
      r.Parsed? ==> Within(fields, r.value.slots)
    decreases fields, 1, |input|
  {
    hide DecodeLoop, AfterTag, DecodeTag, StateOk, Within, DefaultsWithin, DescriptorOk;
    if input == [] {
      DecodeNothing(fields, st);
    } else {
      LoopIs(fields, input, st);
      var read := DecodeTag(input);
      if read.TagRead? {
        TurnWithin(fields, read.tag, read.wt, read.rest, st);
        var next := AfterTag(fields, read.tag, read.wt, read.rest, st);
        if next.Parsed? {
          LoopWithin(fields, next.rest, next.value);
        }
      }
    }
  }

  lemma {:induction false} TurnWithin(fields: seq<Field>, tag: nat, wt: nat, input: bytes, st: State)
    requires DescriptorOk(fields) && StateOk(fields, st) && DefaultsWithin(fields) && Within(fields, st.slots)
    ensures
      var r := AfterTag(fields, tag, wt, input, st);
      r.Parsed? ==> Within(fields, r.value.slots)
    decreases fields, 0, 1
  {
    hide ReadField, SkipField, SkipBool, StateOk, Within, DefaultsWithin, DescriptorOk;
    var i := FieldWith(fields, tag, 0);
    if i < |fields| && Note(fields, i, st).Some? {
      FieldWithin(fields, i, wt, input, Note(fields, i, st).value);
    }
  }

  /**
   Whatever the bytes, what is decoded stays within the buffers and arrays of the structure, at
   every depth, provided the defaults and what was there before do.
   */
  lemma {:induction false} MessageWithin(fields: seq<Field>, input: bytes, slots: seq<Slot>)
    requires DescriptorOk(fields) && MessageFits(fields, slots) && DefaultsWithin(fields) && Within(fields, slots)
    ensures
      var r := DecodeMessage(fields, input, slots);
      r.Parsed? ==> Within(fields, r.value)
    decreases fields, 2
  {
    StartIs(fields, slots);
    LoopWithin(fields, input, Start(fields, slots));
  }
}
