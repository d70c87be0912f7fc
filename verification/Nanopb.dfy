/**
 Message descriptors and the values of message structures, for fields with static
 allocation (nanopb pb.h), and the ring iterator over a descriptor (nanopb pb_common.c).
 */
module Nanopb {
  import opened Coding

  /** How one value is stored and written, the LTYPE of a field. */
  datatype Kind =
    | LBool | LVarint | LUvarint | LSvarint | LFixed32 | LFixed64
    | LBytes | LString | LSubmessage | LFixedLengthBytes

  predicate Packable(kind: Kind) {
    kind.LBool? || kind.LVarint? || kind.LUvarint? || kind.LSvarint? || kind.LFixed32? || kind.LFixed64?
  }

  const WT_VARINT: nat := 0
  const WT_64BIT: nat := 1
  const WT_STRING: nat := 2
  const WT_32BIT: nat := 5

  function WireType(kind: Kind): (wt: nat)
    ensures wt < 8
  {
    match kind
    case LBool | LVarint | LUvarint | LSvarint => WT_VARINT
    case LFixed32 => WT_32BIT
    case LFixed64 => WT_64BIT
    case _ => WT_STRING
  }

  /**
   How often the field occurs, the HTYPE, and where its presence is recorded: an optional
   field may lack a has-flag, an array may lack a counter (it then always holds `arraySize`
   items), and a member of a union may share its storage with the field before it.
   */
  datatype Rule = Required | Optional(hasFlag: bool) | Repeated(counted: bool) | OneOf(joins: bool)

  /** A field of a descriptor; `fields` describes the submessage, `initial` is the default of the other kinds. */
  datatype Field = Field(tag: uint32, kind: Kind, rule: Rule, dataSize: nat, arraySize: nat, initial: Value,
                         fields: seq<Field>)

  /** Text is a buffer read up to its terminator; Record is a nested structure. */
  datatype Value = Truth(b: bool) | Number(n: int) | Data(data: bytes) | Record(slots: seq<Slot>)

  /** What one member of the structure holds. The fields of a union have one slot together. */
  datatype Slot =
    | Single(value: Value)
    | Maybe(has: bool, value: Value)
    | Many(items: seq<Value>)
    | Chosen(tag: nat, value: Value)
    | Unchosen

  const PB_SIZE_MAX: nat := 0xFFFF_FFFF
  const BYTES_HEADER: nat := 4
  const TAG_LIMIT: nat := 0x2000_0000
  const MAX_REQUIRED_FIELDS: nat := 64

  // ---- Where the fields are stored ----

  predicate Joins(fields: seq<Field>, i: nat)
    requires 0 < i < |fields|
  {
    fields[i - 1].rule.OneOf? && fields[i].rule.OneOf? && fields[i].rule.joins
  }

  function SlotOf(fields: seq<Field>, i: nat): (j: nat)
    requires i < |fields|
    ensures j <= i
  {
    if i == 0 then 0 else if Joins(fields, i) then SlotOf(fields, i - 1) else SlotOf(fields, i - 1) + 1
  }

  /** How many slots the first `i` fields take. */
  function SlotCount(fields: seq<Field>, i: nat): nat
    requires i <= |fields|
  {
    if i == 0 then 0 else SlotOf(fields, i - 1) + 1
  }

  function RequiredBefore(fields: seq<Field>, i: nat): (n: nat)
    requires i <= |fields|
    ensures n <= i
  {
    if i == 0 then 0 else RequiredBefore(fields, i - 1) + if fields[i - 1].rule.Required? then 1 else 0
  }

  /** Slots come in field order, and only the members of a union share one. */
  lemma {:induction false} SlotsAscend(fields: seq<Field>, i: nat, k: nat)
    requires i < k < |fields|
    ensures SlotOf(fields, i) <= SlotOf(fields, k)
    ensures SlotOf(fields, i) == SlotOf(fields, k) ==> fields[i].rule.OneOf? && fields[k].rule.OneOf?
  {
    if i + 1 < k {
      SlotsAscend(fields, i, k - 1);
    }
  }

  lemma SlotsBounded(fields: seq<Field>, i: nat)
    requires i < |fields|
    ensures SlotOf(fields, i) < SlotCount(fields, |fields|)
  {
    if i < |fields| - 1 {
      SlotsAscend(fields, i, |fields| - 1);
    }
  }

  // ---- What a structure may hold ----

  predicate IntSize(size: nat) {
    size == 1 || size == 2 || size == 4 || size == 8
  }

  function Half(size: nat): nat {
    if size == 1 then 0x80 else if size == 2 then 0x8000 else if size == 4 then 0x8000_0000
    else 0x8000_0000_0000_0000
  }

  function TextLength(data: bytes): (n: nat)
    ensures n <= |data| && 0 !in data[..n] && (n < |data| ==> data[n] == 0)
  {
    if data == [] || data[0] == 0 then 0
    else
      var n := TextLength(data[1..]);
      assert data[..n + 1] == [data[0]] + data[1..][..n];
      n + 1
  }

  /** A value of the C type the field is declared with. */
  predicate ValueFits(f: Field, v: Value)
    decreases f, 0
  {
    match f.kind
    case LBool => v.Truth?
    case LVarint => v.Number? && (IntSize(f.dataSize) ==> 0 - Half(f.dataSize) <= v.n < Half(f.dataSize))
    case LSvarint => v.Number? && (IntSize(f.dataSize) ==> 0 - Half(f.dataSize) <= v.n < Half(f.dataSize))
    case LUvarint => v.Number? && 0 <= v.n && (IntSize(f.dataSize) ==> v.n < 2 * Half(f.dataSize))
    case LFixed32 => v.Number? && 0 <= v.n < TWO_32
    case LFixed64 => v.Number? && 0 <= v.n < TWO_64
    case LBytes => v.Data? && |v.data| <= PB_SIZE_MAX
    case LString => v.Data? && 0 < |v.data| <= f.dataSize && (TextLength(v.data) == |v.data| ==> |v.data| == f.dataSize)
    case LFixedLengthBytes => v.Data? && |v.data| == f.dataSize
    case LSubmessage => v.Record? && MessageFits(f.fields, v.slots)
  }

  predicate AllFit(f: Field, items: seq<Value>) {
    forall k :: 0 <= k < |items| ==> ValueFits(f, items[k])
  }

  predicate SlotFits(f: Field, s: Slot)
    decreases f, 1
  {
    match f.rule
    case Required => s.Single? && ValueFits(f, s.value)
    case Optional(hasFlag) => if hasFlag then s.Maybe? && ValueFits(f, s.value) else s.Single? && ValueFits(f, s.value)
    case Repeated(counted) =>
      && s.Many?
      && (counted || |s.items| == f.arraySize)
      && forall k :: 0 <= k < |s.items| ==> ValueFits(f, s.items[k])
    case OneOf(_) => s.Unchosen? || (s.Chosen? && (s.tag == f.tag ==> ValueFits(f, s.value)))
  }

  predicate MessageFits(fields: seq<Field>, slots: seq<Slot>)
    decreases fields, 2
  {
    && |slots| == SlotCount(fields, |fields|)
    && forall i :: 0 <= i < |fields| ==> SlotAt(fields, slots, i)
  }

  predicate SlotAt(fields: seq<Field>, slots: seq<Slot>, i: nat)
    requires i < |fields|
    decreases fields, 1
  {
    SlotOf(fields, i) < |slots| && SlotFits(fields[i], slots[SlotOf(fields, i)])
  }

  // ---- Well-formed descriptors ----

  predicate FieldOk(f: Field)
    decreases f
  {
    && 1 <= f.tag < TAG_LIMIT
    && (f.kind.LSubmessage? ==> DescriptorOk(f.fields))
    && (!f.kind.LSubmessage? ==> ValueFits(f, f.initial))
    && (f.kind.LFixedLengthBytes? ==> f.dataSize <= PB_SIZE_MAX)
    && (f.rule == Optional(false) && !f.kind.LSubmessage? ==> f.initial == Zero(f))
  }

  predicate DescriptorOk(fields: seq<Field>)
    decreases fields
  {
    && (forall i :: 0 <= i < |fields| ==> FieldOk(fields[i]))
    && (forall i, k :: 0 <= i < k < |fields| ==> fields[i].tag != fields[k].tag)
  }

  function Zero(f: Field): Value {
    match f.kind
    case LBool => Truth(false)
    case LBytes => Data([])
    case LString => Data([0])
    case LFixedLengthBytes => Data(seq(f.dataSize, i => 0))
    case LSubmessage => Record([])
    case _ => Number(0)
  }

  // ---- Initial contents ----

  function InitialValue(f: Field): Value
    decreases f, 0
  {
    if f.kind.LSubmessage? then Record(InitialSlots(f.fields, |f.fields|)) else f.initial
  }

  function InitialSlot(f: Field): Slot
    decreases f, 1
  {
    match f.rule
    case Required => Single(InitialValue(f))
    case Optional(hasFlag) => if hasFlag then Maybe(false, InitialValue(f)) else Single(InitialValue(f))
    case Repeated(counted) => Many(if counted then [] else Copies(InitialValue(f), f.arraySize))
    case OneOf(_) => Unchosen
  }

  function Copies(v: Value, n: nat): (r: seq<Value>)
    ensures |r| == n && forall k :: 0 <= k < n ==> r[k] == v
  {
    seq(n, i => v)
  }

  /** The slots of the first `i` fields as the defaults leave them. */
  function InitialSlots(fields: seq<Field>, i: nat): (slots: seq<Slot>)
    requires i <= |fields|
    ensures |slots| == SlotCount(fields, i)
    decreases fields, 2, i
  {
    if i == 0 then []
    else if i > 1 && Joins(fields, i - 1) then InitialSlots(fields, i - 1)
    else InitialSlots(fields, i - 1) + [InitialSlot(fields[i - 1])]
  }

  lemma {:induction false} InitialSlotIs(fields: seq<Field>, i: nat, n: nat)
    requires i < n <= |fields|
    ensures SlotOf(fields, i) < SlotCount(fields, n)
    ensures InitialSlots(fields, n)[SlotOf(fields, i)] == InitialSlot(fields[i])
  {
    if n == i + 1 {
      if i > 0 && Joins(fields, i) {
        InitialSlotIs(fields, i - 1, n - 1);
      }
    } else {
      InitialSlotIs(fields, i, n - 1);
      SlotsBounded(fields, i);
      SlotsAscend(fields, i, n - 1);
    }
  }

  /** The defaults are values of the declared types. */
  lemma {:induction false} InitialValueFits(f: Field)
    requires FieldOk(f)
    ensures ValueFits(f, InitialValue(f))
    decreases f, 0
  {
    if f.kind.LSubmessage? {
      InitialFits(f.fields);
    }
  }

  lemma {:induction false} InitialFits(fields: seq<Field>)
    requires DescriptorOk(fields)
    ensures MessageFits(fields, InitialSlots(fields, |fields|))
    decreases fields, 1
  {
    forall i | 0 <= i < |fields|
      ensures SlotAt(fields, InitialSlots(fields, |fields|), i)
    {
      assert FieldOk(fields[i]);
      InitialValueFits(fields[i]);
      InitialSlotIs(fields, i, |fields|);
    }
  }

  // ---- The ring iterator ----

  /** The field with the tag, if any. */
  function FieldWith(fields: seq<Field>, tag: nat, from: nat): (i: nat)
    requires from <= |fields|
    ensures from <= i <= |fields|
    ensures forall k :: from <= k < i ==> fields[k].tag != tag
    ensures i < |fields| ==> fields[i].tag == tag
    decreases |fields| - from
  {
    if from == |fields| || fields[from].tag == tag then from else FieldWith(fields, tag, from + 1)
  }

  /**
   A position in the ring of fields, with the slot and the number of required fields passed.
   An empty descriptor leaves the iterator on the terminator.
   */
  class FieldIter {
    const fields: seq<Field>
    var pos: nat
    var slot: nat
    var requiredIndex: nat

    ghost predicate Valid()
      reads this
    {
      && (fields == [] ==> pos == 0 && slot == 0 && requiredIndex == 0)
      && (fields != [] ==> pos < |fields| && slot == SlotOf(fields, pos) && requiredIndex == RequiredBefore(fields, pos))
    }

    constructor (fields: seq<Field>)
      ensures Valid() && this.fields == fields && pos == 0
    {
      this.fields := fields;
      pos, slot, requiredIndex := 0, 0, 0;
    }

    method Begin() returns (any: bool)
      modifies this
      ensures Valid() && pos == 0 && any == (fields != [])
    {
      pos, slot, requiredIndex := 0, 0, 0;
      any := fields != [];
    }

    method Next() returns (more: bool)
      requires Valid()
      modifies this
      ensures Valid()
      ensures more == (old(pos) + 1 < |fields|)
      ensures pos == if more then old(pos) + 1 else 0
    {
      if fields == [] {
        return false;
      }
      if pos + 1 == |fields| {
        var _ := Begin();
        return false;
      }
      var prev := fields[pos];
      pos := pos + 1;
      if prev.rule.OneOf? && fields[pos].rule.OneOf? && fields[pos].rule.joins {
        return true;
      }
      if prev.rule.Required? {
        requiredIndex := requiredIndex + 1;
      }
      slot := slot + 1;
      return true;
    }

    /** Goes round the ring once from where it stands; a field with the tag is found wherever it is. */
    method Find(tag: nat) returns (found: bool)
      requires Valid() && DescriptorOk(fields)
      modifies this
      ensures Valid()
      ensures fields != [] ==> found == (FieldWith(fields, tag, 0) < |fields|)
      ensures fields != [] && found ==> pos == FieldWith(fields, tag, 0)
      ensures fields != [] && !found ==> pos == old(pos)
      ensures fields == [] ==> found == (tag == 0)
    {
      hide DescriptorOk, RequiredBefore, SlotOf;
      var start := pos;
      var steps := 0;
      if fields == [] {
        return tag == 0;
      }
      ghost var n := |fields|;
      while true
        invariant Valid() && start < n && steps < n
        invariant pos == if start + steps < n then start + steps else start + steps - n
        invariant forall k :: start <= k < n && k < start + steps ==> fields[k].tag != tag
        invariant forall k :: 0 <= k < start + steps - n ==> fields[k].tag != tag
        decreases n - steps
      {
        if fields[pos].tag == tag {
          UniqueTag(fields, pos);
          return true;
        }
        var _ := Next();
        if pos == start {
          return false;
        }
        steps := steps + 1;
      }
    }
  }

  lemma UniqueTag(fields: seq<Field>, i: nat)
    requires DescriptorOk(fields) && i < |fields|
    ensures FieldWith(fields, fields[i].tag, 0) == i
  {
    assert forall k :: 0 <= k < i ==> fields[k].tag != fields[i].tag;
  }

  /** The slots as pb_message_set_to_defaults leaves them. */
  method SetToDefaults(fields: seq<Field>) returns (slots: seq<Slot>)
    ensures slots == InitialSlots(fields, |fields|)
    decreases fields, 1
  {
    slots := [];
    var iter := new FieldIter(fields);
    var more := fields != [];
    while more
      invariant iter.Valid() && iter.fields == fields && fresh(iter)
      invariant slots == InitialSlots(fields, if more then iter.pos else |fields|)
      invariant more ==> fields != []
      decreases if more then |fields| - iter.pos else 0
    {
      var f := fields[iter.pos];
      if iter.slot == |slots| {
        var s := FieldDefault(f);
        slots := slots + [s];
      }
      more := iter.Next();
    }
  }

  method FieldDefault(f: Field) returns (s: Slot)
    ensures s == InitialSlot(f)
    decreases f, 0
  {
    var v := f.initial;
    if f.kind.LSubmessage? && !f.rule.Repeated? && !f.rule.OneOf? {
      var slots := SetToDefaults(f.fields);
      v := Record(slots);
    }
    match f.rule
    case Required => s := Single(v);
    case Optional(hasFlag) => s := if hasFlag then Maybe(false, v) else Single(v);
    case Repeated(counted) => s := InitialSlot(f);
    case OneOf(_) => s := Unchosen;
  }
}
