/**
 Messages that come back unchanged: what the decoder cannot restore, the bytes behind a
 terminator and the data of absent fields, holds what the decoder would put there.
 */
module NanopbPlain {
  import opened Nanopb
  import opened NanopbEncode
  import opened NanopbDecode
  import opened NanopbRoundTrip
  import opened Coding

  predicate PlainValue(f: Field, v: Value)
    requires ValueFits(f, v)
    decreases f, 0
  {
    && (f.kind.LString? ==> v.data == Text(v.data) + [0])
    && (f.kind.LSubmessage? ==> Plain(f.fields, v.slots))
  }

  predicate PlainSlot(f: Field, s: Slot)
    requires SlotFits(f, s)
    decreases f, 1
  {
    match f.rule
    case Required => PlainValue(f, s.value)
    case Optional(hasFlag) => if hasFlag && !s.has then s.value == InitialValue(f) else PlainValue(f, s.value)
    case Repeated(_) => forall k :: 0 <= k < |s.items| ==> PlainValue(f, s.items[k])
    case OneOf(_) => s.Chosen? && s.tag == f.tag ==> PlainValue(f, s.value)
  }

  predicate PlainAt(fields: seq<Field>, slots: seq<Slot>, i: nat)
    requires MessageFits(fields, slots) && i < |fields|
    decreases fields, 0
  {
    assert SlotAt(fields, slots, i);
    PlainSlot(fields[i], slots[SlotOf(fields, i)])
  }

  /** The union's tag is that of one of its members. */
  predicate ChoiceKnown(fields: seq<Field>, slots: seq<Slot>, i: nat)
    requires MessageFits(fields, slots) && i < |fields|
  {
    assert SlotAt(fields, slots, i);
    var s := slots[SlotOf(fields, i)];
    fields[i].rule.OneOf? && s.Chosen? ==>
      exists k: nat :: k < |fields| && SlotOf(fields, k) == SlotOf(fields, i) && fields[k].tag == s.tag
  }

  predicate Plain(fields: seq<Field>, slots: seq<Slot>)
    requires MessageFits(fields, slots)
    decreases fields, 1
  {
    forall i :: 0 <= i < |fields| ==> PlainAt(fields, slots, i) && ChoiceKnown(fields, slots, i)
  }

  // ---- What settling leaves in each slot ----

  lemma OnePresent(fields: seq<Field>, slots: seq<Slot>, i: nat, k: nat)
    requires DescriptorOk(fields) && MessageFits(fields, slots) && i < k < |fields|
    requires SlotOf(fields, i) == SlotOf(fields, k)
    ensures !(Present(fields, slots, i) && Present(fields, slots, k))
  {
    SlotsAscend(fields, i, k);
    FitsAt(fields, slots, i);
    FitsAt(fields, slots, k);
    assert fields[i].tag != fields[k].tag;
  }

  predicate Shares(fields: seq<Field>, k: nat, m: nat) {
    k < |fields| && m < |fields| && SlotOf(fields, k) == SlotOf(fields, m)
  }

  lemma {:induction false} SettledPresent(fields: seq<Field>, slots: seq<Slot>, i: nat, k: nat)
    requires DescriptorOk(fields) && MessageFits(fields, slots) && k < i <= |fields| && Present(fields, slots, k)
    ensures SlotAt(fields, slots, k) && SlotOf(fields, k) < |Settle(fields, slots, i)|
    ensures Settle(fields, slots, i)[SlotOf(fields, k)] == SettleSlot(fields[k], slots[SlotOf(fields, k)])
  {
    hide MessageFits, DescriptorOk, SettleSlot;
    FitsAt(fields, slots, k);
    SlotsBounded(fields, k);
    if k < i - 1 {
      SettledPresent(fields, slots, i - 1, k);
      SlotsBounded(fields, i - 1);
      if SlotOf(fields, k) == SlotOf(fields, i - 1) {
        OnePresent(fields, slots, k, i - 1);
      }
    }
  }

  lemma {:induction false} SettledAbsent(fields: seq<Field>, slots: seq<Slot>, i: nat, k: nat)
    requires DescriptorOk(fields) && MessageFits(fields, slots) && k < |fields| && i <= |fields|
    requires forall m :: 0 <= m < i && Shares(fields, k, m) ==> !Present(fields, slots, m)
    ensures SlotOf(fields, k) < |Settle(fields, slots, i)|
    ensures Settle(fields, slots, i)[SlotOf(fields, k)] == InitialSlot(fields[k])
  {
    hide MessageFits, DescriptorOk, InitialSlot, SettleSlot;
    SlotsBounded(fields, k);
    if i == 0 {
      InitialSlotIs(fields, k, |fields|);
    } else {
      SettledAbsent(fields, slots, i - 1, k);
      assert Shares(fields, k, i - 1) ==> !Present(fields, slots, i - 1);
    }
  }

  /** Every slot belongs to a field. */
  lemma {:induction false} SlotOwner(fields: seq<Field>, n: nat, j: nat) returns (k: nat)
    requires n <= |fields| && j < SlotCount(fields, n)
    ensures k < n && SlotOf(fields, k) == j
  {
    if SlotOf(fields, n - 1) == j {
      k := n - 1;
    } else {
      k := SlotOwner(fields, n - 1, j);
    }
  }

  // ---- Plain values settle to themselves ----

  lemma {:induction false} PlainValueSettles(f: Field, v: Value)
    requires FieldOk(f) && ValueFits(f, v) && PlainValue(f, v)
    ensures SettleValue(f, v) == v && Readable(f, v)
    decreases f, 0
  {
    if f.kind.LSubmessage? {
      PlainSettles(f.fields, v.slots);
    } else if f.kind.LString? {
      assert |Text(v.data)| == TextLength(v.data);
    }
  }

  lemma {:induction false} PlainItemsSettle(f: Field, items: seq<Value>)
    requires FieldOk(f) && AllFit(f, items)
    requires forall k :: 0 <= k < |items| ==> PlainValue(f, items[k])
    ensures SettleItems(f, items) == items && AllReadable(f, items)
    decreases f, 1, |items|
  {
    hide ValueFits, PlainValue, SettleValue, Readable;
    if items != [] {
      PlainValueSettles(f, items[0]);
      PlainItemsSettle(f, items[1..]);
    }
  }

  /** A value that is not written because it is zero is what the decoder starts from. */
  lemma ZeroIsInitial(f: Field, v: Value)
    requires FieldOk(f) && ValueFits(f, v) && PlainValue(f, v) && f.rule == Optional(false) && ZeroValue(f, v)
    ensures v == InitialValue(f)
    decreases f, 0
  {
    if f.kind.LSubmessage? {
      forall i | 0 <= i < |f.fields|
        ensures !Present(f.fields, v.slots, i)
      {
        assert ZeroAt(f.fields, v.slots, i);
        FitsAt(f.fields, v.slots, i);
        ZeroIsAbsent(f.fields[i], v.slots[SlotOf(f.fields, i)]);
      }
      NothingPresent(f.fields, v.slots, |f.fields|);
      PlainSettles(f.fields, v.slots);
    } else if f.kind.LString? {
      assert Text(v.data) == [];
    }
  }

  lemma ZeroIsAbsent(f: Field, s: Slot)
    requires SlotFits(f, s) && ZeroSlot(f, s)
    ensures Emitted(f, s) == []
  {
  }

  lemma {:induction false} NothingPresent(fields: seq<Field>, slots: seq<Slot>, i: nat)
    requires MessageFits(fields, slots) && i <= |fields|
    requires forall k :: 0 <= k < i ==> !Present(fields, slots, k)
    ensures Settle(fields, slots, i) == InitialSlots(fields, |fields|)
  {
    hide MessageFits;
    if i > 0 {
      NothingPresent(fields, slots, i - 1);
    }
  }

  /** The slot of a plain field is what settling makes of it. */
  lemma PlainSlotSettles(f: Field, s: Slot)
    requires FieldOk(f) && SlotFits(f, s) && PlainSlot(f, s)
    ensures AllReadable(f, Emitted(f, s))
    ensures Emitted(f, s) != [] ==> SettleSlot(f, s) == s
    ensures Emitted(f, s) == [] && !f.rule.OneOf? ==> s == InitialSlot(f)
    decreases f, 2
  {
    hide ValueFits, PlainValue, SettleValue, Readable, ZeroValue;
    var items := Emitted(f, s);
    PlainItemsSettle(f, items);
    if items != [] {
      assert SettleItems(f, items)[0] == SettleValue(f, items[0]);
    } else if f.rule == Optional(false) {
      ZeroIsInitial(f, s.value);
    }
  }

  lemma PlainSettles(fields: seq<Field>, slots: seq<Slot>)
    requires DescriptorOk(fields) && MessageFits(fields, slots) && Plain(fields, slots)
    ensures Settle(fields, slots, |fields|) == slots && ReadableFrom(fields, slots, 0)
    decreases fields, 2
  {
    var n := |fields|;
    assert |slots| == SlotCount(fields, n);
    hide MessageFits, Settle, SettleSlot, PlainSlot, Present, ReadableFrom, ReadableAt;
    forall i | 0 <= i < n
      ensures ReadableAt(fields, slots, i)
    {
      PlainHere(fields, slots, i);
    }
    AllReadableFrom(fields, slots, 0);
    forall j | 0 <= j < |slots|
      ensures Settle(fields, slots, n)[j] == slots[j]
    {
      var k := SlotOwner(fields, n, j);
      PlainHere(fields, slots, k);
      SlotSettles(fields, slots, k);
    }
  }

  lemma PlainHere(fields: seq<Field>, slots: seq<Slot>, i: nat)
    requires DescriptorOk(fields) && MessageFits(fields, slots) && Plain(fields, slots) && i < |fields|
    ensures SlotAt(fields, slots, i) && ReadableAt(fields, slots, i)
    ensures Present(fields, slots, i) ==>
            SettleSlot(fields[i], slots[SlotOf(fields, i)]) == slots[SlotOf(fields, i)]
    ensures !Present(fields, slots, i) && !fields[i].rule.OneOf? ==>
            slots[SlotOf(fields, i)] == InitialSlot(fields[i])
    decreases fields, 0
  {
    hide MessageFits, SettleSlot, Emitted, InitialSlot, AllReadable;
    FitsAt(fields, slots, i);
    assert PlainAt(fields, slots, i) && FieldOk(fields[i]);
    PlainSlotSettles(fields[i], slots[SlotOf(fields, i)]);
  }

  lemma {:induction false} AllReadableFrom(fields: seq<Field>, slots: seq<Slot>, i: nat)
    requires MessageFits(fields, slots) && i <= |fields|
    requires forall k :: i <= k < |fields| ==> ReadableAt(fields, slots, k)
    ensures ReadableFrom(fields, slots, i)
    decreases |fields| - i
  {
    hide ReadableAt;
    if i < |fields| {
      AllReadableFrom(fields, slots, i + 1);
    }
  }

  lemma SlotSettles(fields: seq<Field>, slots: seq<Slot>, k: nat)
    requires DescriptorOk(fields) && MessageFits(fields, slots) && Plain(fields, slots) && k < |fields|
    ensures SlotOf(fields, k) < |Settle(fields, slots, |fields|)| && SlotOf(fields, k) < |slots|
    ensures Settle(fields, slots, |fields|)[SlotOf(fields, k)] == slots[SlotOf(fields, k)]
    decreases fields, 1
  {
    hide MessageFits, Settle, SettleSlot, ReadableAt, DescriptorOk;
    var n := |fields|;
    PlainHere(fields, slots, k);
    FitsAt(fields, slots, k);
    if m: nat :| m < n && PresentHere(fields, slots, k, m) {
      SettledPresent(fields, slots, n, m);
      PlainHere(fields, slots, m);
    } else {
      AbsentHere(fields, slots, k);
      SettledAbsent(fields, slots, n, k);
      if fields[k].rule.OneOf? {
        KnownChoice(fields, slots, k);
      }
    }
  }

  predicate PresentHere(fields: seq<Field>, slots: seq<Slot>, k: nat, m: nat)
    requires MessageFits(fields, slots)
  {
    Shares(fields, k, m) && Present(fields, slots, m)
  }

  lemma AbsentHere(fields: seq<Field>, slots: seq<Slot>, k: nat)
    requires MessageFits(fields, slots) && k < |fields|
    requires forall m: nat :: m < |fields| ==> !PresentHere(fields, slots, k, m)
    ensures !Present(fields, slots, k)
    ensures forall m :: 0 <= m < |fields| && Shares(fields, k, m) ==> !Present(fields, slots, m)
  {
    hide Present, MessageFits;
    assert !PresentHere(fields, slots, k, k);
    forall m | 0 <= m < |fields| && Shares(fields, k, m)
      ensures !Present(fields, slots, m)
    {
      assert !PresentHere(fields, slots, k, m);
    }
  }

  /** A chosen member of a union is a present field. */
  lemma KnownChoice(fields: seq<Field>, slots: seq<Slot>, k: nat)
    requires MessageFits(fields, slots) && Plain(fields, slots) && k < |fields| && fields[k].rule.OneOf?
    ensures SlotAt(fields, slots, k)
    ensures slots[SlotOf(fields, k)].Chosen? ==> exists m: nat :: m < |fields| && PresentHere(fields, slots, k, m)
  {
    hide MessageFits, SlotOf;
    FitsAt(fields, slots, k);
    if slots[SlotOf(fields, k)].Chosen? {
      assert ChoiceKnown(fields, slots, k);
      var m: nat :| m < |fields| && SlotOf(fields, m) == SlotOf(fields, k) && fields[m].tag == slots[SlotOf(fields, k)].tag;
      FitsAt(fields, slots, m);
      Members(fields, k, m);
      assert PresentHere(fields, slots, k, m);
    }
  }

  lemma Members(fields: seq<Field>, k: nat, m: nat)
    requires Shares(fields, k, m) && fields[k].rule.OneOf?
    ensures fields[m].rule.OneOf?
  {
    if k < m {
      SlotsAscend(fields, k, m);
    } else if m < k {
      SlotsAscend(fields, m, k);
    }
  }

  /** A plain message that the encoder accepts is decoded to exactly itself. */
  lemma PlainRoundTrip(fields: seq<Field>, slots: seq<Slot>)
    requires DescriptorOk(fields) && MessageFits(fields, slots) && Plain(fields, slots) && Encodes(fields, slots)
    requires |EncodeFrom(fields, slots, 0)| < TWO_32
    ensures MessageFits(fields, InitialSlots(fields, |fields|))
    ensures DecodeMessage(fields, EncodeFrom(fields, slots, 0), InitialSlots(fields, |fields|)) == Parsed(slots, [])
  {
    PlainSettles(fields, slots);
    MessageRoundTrip(fields, slots);
  }
}
