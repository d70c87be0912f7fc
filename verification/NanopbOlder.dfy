/**
 A reader whose descriptor lacks some of the writer's fields: it skips them by their wire types
 and gets the others as if the writer had not known them either (nanopb pb_decode.c).
 */
module NanopbOlder {
  import opened Coding
  import opened Nanopb
  import opened NanopbEncode
  import opened NanopbDecode
  import opened NanopbRoundTrip

  // ---- Skipping ----

  lemma {:induction false} VarintSkipped(v: nat, rest: bytes)
    ensures SkipVarint(Varint(v) + rest) == Some(rest)
  {
    if v < 128 {
      assert (Varint(v) + rest)[1..] == rest;
    } else {
      VarintSkipped(v / 128, rest);
      assert (Varint(v) + rest)[1..] == Varint(v / 128) + rest;
    }
  }

  lemma CountedSkipped(s: bytes, rest: bytes)
    requires |s| < TWO_32
    ensures SkipField(Counted(s) + rest, WT_STRING) == Some(rest)
  {
    hide TakeCounted, Counted;
    CountedRoundTrip(s, rest);
  }

  /** Every value is skipped by the wire type it is written with. */
  lemma ValueSkipped(f: Field, v: Value, rest: bytes)
    requires ValueFits(f, v) && |EncodeValue(f, v)| < TWO_32
    ensures SkipField(EncodeValue(f, v) + rest, WireType(f.kind)) == Some(rest)
  {
    hide SkipVarint, TakeCounted, Varint, Fixed, EncodeFrom, MessageFits, TextLength;
    match f.kind
    case LBool => VarintSkipped(if v.b then 1 else 0, rest);
    case LVarint | LUvarint => VarintSkipped(v.n % TWO_64, rest);
    case LSvarint => VarintSkipped(ZigZag(v.n), rest);
    case LFixed32 => Halved(Fixed(v.n, 4), rest);
    case LFixed64 => Halved(Fixed(v.n, 8), rest);
    case LBytes | LFixedLengthBytes => CountedSkipped(v.data, rest);
    case LString => CountedSkipped(Text(v.data), rest);
    case LSubmessage => CountedSkipped(EncodeFrom(f.fields, v.slots, 0), rest);
  }

  ghost predicate Unknown(fields: seq<Field>, tag: nat) {
    forall i :: 0 <= i < |fields| ==> fields[i].tag != tag
  }

  lemma OneUnknown(fields: seq<Field>, tag: nat, wt: nat, tail: bytes, after: bytes, st: State)
    requires DescriptorOk(fields) && StateOk(fields, st) && Unknown(fields, tag) && 1 <= tag < TAG_LIMIT && wt < 8
    requires SkipField(tail, wt) == Some(after)
    ensures DecodeLoop(fields, TagBytes(tag, wt) + tail, st) == DecodeLoop(fields, after, st)
  {
    hide DecodeTag, SkipField, StateOk, TagBytes, DecodeLoop;
    TagRoundTrip(tag, wt, tail);
    TagIsThere(tag, wt);
    LoopIs(fields, TagBytes(tag, wt) + tail, st);
    assert FieldWith(fields, tag, 0) == |fields|;
  }

  lemma TagIsThere(tag: nat, wt: nat)
    ensures TagBytes(tag, wt) != []
  {
  }

  lemma {:induction false} TaggedSkipped(fields: seq<Field>, f: Field, items: seq<Value>, rest: bytes, st: State)
    requires DescriptorOk(fields) && StateOk(fields, st) && FieldOk(f) && Unknown(fields, f.tag)
    requires AllFit(f, items) && |EncodeTagged(f, items)| < TWO_32
    ensures DecodeLoop(fields, EncodeTagged(f, items) + rest, st) == DecodeLoop(fields, rest, st)
    decreases |items|
  {
    hide DecodeLoop, StateOk, EncodeValue, ValueFits, SkipField, Unknown, DescriptorOk;
    if items == [] {
      assert EncodeTagged(f, items) + rest == rest;
    } else {
      var tail := EncodeTagged(f, items[1..]) + rest;
      TaggedSplit(f, items, rest);
      ValueSkipped(f, items[0], tail);
      OneUnknown(fields, f.tag, WireType(f.kind), EncodeValue(f, items[0]) + tail, tail, st);
      TaggedSkipped(fields, f, items[1..], rest, st);
    }
  }

  /** Whatever an unknown field holds, its bytes change nothing. */
  lemma SlotSkipped(fields: seq<Field>, f: Field, s: Slot, rest: bytes, st: State)
    requires DescriptorOk(fields) && StateOk(fields, st) && FieldOk(f) && Unknown(fields, f.tag)
    requires SlotFits(f, s) && |EncodeSlot(f, s)| < TWO_32
    ensures DecodeLoop(fields, EncodeSlot(f, s) + rest, st) == DecodeLoop(fields, rest, st)
  {
    hide DecodeLoop, StateOk, EncodeItems, EncodeTagged, SkipField, Unknown, DescriptorOk, Counted, TagBytes, ValueFits;
    var items := Emitted(f, s);
    if items == [] {
      NothingWritten(f, s);
      assert [] + rest == rest;
    } else if f.rule.Repeated? && Packable(f.kind) {
      var body := EncodeItems(f, items);
      CountedIsLonger(body);
      CountedSkipped(body, rest);
      Assoc(TagBytes(f.tag, WT_STRING), Counted(body), rest);
      OneUnknown(fields, f.tag, WT_STRING, Counted(body) + rest, rest, st);
    } else {
      TaggedSkipped(fields, f, items, rest, st);
    }
  }

  lemma NothingWritten(f: Field, s: Slot)
    requires SlotFits(f, s) && Emitted(f, s) == []
    ensures EncodeSlot(f, s) == []
  {
  }

  lemma CountedIsLonger(s: bytes)
    ensures |s| <= |Counted(s)|
  {
  }

  // ---- The older reader ----

  ghost predicate Ascends(at: seq<nat>) {
    forall j, k :: 0 <= j < k < |at| ==> at[j] < at[k]
  }

  /** The reader's fields are some of the writer's, in order, and hold what the writer's do. */
  ghost predicate PartOf(older: seq<Field>, held: seq<Slot>, at: seq<nat>, fields: seq<Field>, slots: seq<Slot>) {
    && |at| == |older| && |held| == SlotCount(older, |older|) && Ascends(at)
    && (forall j :: 0 <= j < |at| ==>
          && at[j] < |fields| && older[j] == fields[at[j]]
          && SlotOf(older, j) < |held| && SlotOf(fields, at[j]) < |slots|
          && held[SlotOf(older, j)] == slots[SlotOf(fields, at[j])])
  }

  lemma PartFits(older: seq<Field>, held: seq<Slot>, at: seq<nat>, fields: seq<Field>, slots: seq<Slot>)
    requires PartOf(older, held, at, fields, slots)
    requires DescriptorOk(fields) && MessageFits(fields, slots) && Encodes(fields, slots)
    ensures DescriptorOk(older) && MessageFits(older, held) && Encodes(older, held)
    ensures forall j :: 0 <= j < |older| ==> EncodeAt(older, held, j) == EncodeAt(fields, slots, at[j])
  {
    forall j | 0 <= j < |older|
      ensures SlotAt(older, held, j) && FieldOk(older[j])
    {
      assert SlotAt(fields, slots, at[j]);
    }
    forall j, k | 0 <= j < k < |older|
      ensures older[j].tag != older[k].tag
    {
      assert at[j] < at[k];
    }
    assert MessageFits(older, held);
    forall j | 0 <= j < |older|
      ensures EncodesAt(older, held, j) && EncodeAt(older, held, j) == EncodeAt(fields, slots, at[j])
    {
      assert EncodesAt(fields, slots, at[j]);
    }
  }

  /** The writer's field `i` is not among the reader's from the `j`th on, where all before come earlier. */
  lemma SkippedIsUnknown(older: seq<Field>, at: seq<nat>, fields: seq<Field>, i: nat)
    requires |at| == |older| && i < |fields| && DescriptorOk(fields)
    requires forall j :: 0 <= j < |at| ==> at[j] < |fields| && at[j] != i && older[j] == fields[at[j]]
    ensures Unknown(older, fields[i].tag) && FieldOk(fields[i])
  {
    hide FieldOk;
  }

  lemma ReadableSplits(fields: seq<Field>, slots: seq<Slot>, j: nat)
    requires MessageFits(fields, slots) && j < |fields|
    ensures ReadableFrom(fields, slots, j) <==> ReadableAt(fields, slots, j) && ReadableFrom(fields, slots, j + 1)
  {
  }

  lemma MidwayOn(fields: seq<Field>, slots: seq<Slot>, j: nat)
    requires Midway(fields, slots, j) && j < |fields| && ReadableAt(fields, slots, j)
    ensures Midway(fields, slots, j + 1)
  {
    hide ReadableAt, MessageFits, Encodes, DescriptorOk;
  }

  /** The reader's fields before `j` are the writer's before `i`, the others still to come. */
  ghost predicate CutAt(at: seq<nat>, j: nat, i: nat) {
    && j <= |at| && (forall k :: 0 <= k < j ==> at[k] < i) && (forall k :: j <= k < |at| ==> i <= at[k])
  }

  lemma CutMoves(at: seq<nat>, j: nat, i: nat)
    requires Ascends(at) && CutAt(at, j, i)
    ensures j <= |at|
    ensures j < |at| && at[j] == i ==> CutAt(at, j + 1, i + 1)
    ensures !(j < |at| && at[j] == i) ==> CutAt(at, j, i + 1) && forall k :: 0 <= k < |at| ==> at[k] != i
  {
  }

  lemma CutEnds(at: seq<nat>, j: nat, n: nat)
    requires CutAt(at, j, n) && forall k :: 0 <= k < |at| ==> at[k] < n
    ensures j == |at|
  {
    if j < |at| {
      StillToCome(at, j, n);
    }
  }

  lemma StillToCome(at: seq<nat>, j: nat, i: nat)
    requires CutAt(at, j, i) && j < |at|
    ensures i <= at[j]
  {
  }

  /** What the loop makes of the reader's fields from `j` on. */
  ghost function Outcome(fields: seq<Field>, slots: seq<Slot>, j: nat): Parsed<State>
    requires MessageFits(fields, slots) && j <= |fields|
  {
    if ReadableFrom(fields, slots, j) then Parsed(StateAt(fields, slots, |fields|), []) else Bad
  }

  lemma KnownTurn(fields: seq<Field>, slots: seq<Slot>, j: nat, rest: bytes)
    requires Midway(fields, slots, j) && j < |fields| && |EncodeAt(fields, slots, j)| < TWO_32
    requires ReadableAt(fields, slots, j) ==>
               && StateOk(fields, StateAt(fields, slots, j + 1))
               && DecodeLoop(fields, rest, StateAt(fields, slots, j + 1)) == Outcome(fields, slots, j + 1)
    ensures StateOk(fields, StateAt(fields, slots, j))
    ensures DecodeLoop(fields, EncodeAt(fields, slots, j) + rest, StateAt(fields, slots, j)) == Outcome(fields, slots, j)
  {
    hide MessageFits, Encodes, StateAt, StateOk, DecodeLoop, EncodeAt, ReadableAt, ReadableFrom, DescriptorOk;
    ReadableSplits(fields, slots, j);
    FieldStep(fields, slots, j, rest);
  }

  lemma {:induction false} OlderLoop(older: seq<Field>, held: seq<Slot>, at: seq<nat>, fields: seq<Field>,
                                     slots: seq<Slot>, j: nat, i: nat)
    requires PartOf(older, held, at, fields, slots) && CutAt(at, j, i) && i <= |fields|
    requires DescriptorOk(fields) && MessageFits(fields, slots) && Encodes(fields, slots) && Midway(older, held, j)
    requires |EncodeFrom(fields, slots, i)| < TWO_32
    ensures StateOk(older, StateAt(older, held, j))
    ensures DecodeLoop(older, EncodeFrom(fields, slots, i), StateAt(older, held, j)) == Outcome(older, held, j)
    decreases |fields| - i
  {
    hide MessageFits, Encodes, PartOf, CutAt, StateAt, StateOk, DecodeLoop, EncodeFrom, EncodeAt, EncodeSlot, ReadableAt;
    hide ReadableFrom, Midway, DescriptorOk, FieldOk, SlotFits, Outcome, Unknown, Ascends, SlotEncodes, EncodedUpTo;
    PartKnown(older, held, at, fields, slots);
    MidwayOk(older, held, j);
    if i == |fields| {
      AllPassed(older, held, at, fields, slots, j);
      EncodeEnds(fields, slots);
      NothingLeft(older, held);
      DecodeNothing(older, StateAt(older, held, j));
    } else {
      var rest := EncodeFrom(fields, slots, i + 1);
      EncodeStep(fields, slots, i);
      if j < |at| && at[j] == i {
        KnownNext(older, held, at, fields, slots, j);
        if ReadableAt(older, held, j) {
          MidwayOn(older, held, j);
          OlderLoop(older, held, at, fields, slots, j + 1, i + 1);
        }
        KnownTurn(older, held, j, rest);
      } else {
        SkippedTurn(older, held, at, fields, slots, j, i, rest);
        OlderLoop(older, held, at, fields, slots, j, i + 1);
      }
    }
  }

  lemma PartKnown(older: seq<Field>, held: seq<Slot>, at: seq<nat>, fields: seq<Field>, slots: seq<Slot>)
    requires PartOf(older, held, at, fields, slots)
    requires DescriptorOk(fields) && MessageFits(fields, slots) && Encodes(fields, slots)
    ensures DescriptorOk(older) && MessageFits(older, held) && Encodes(older, held) && |at| == |older|
  {
    PartFits(older, held, at, fields, slots);
  }

  lemma AllPassed(older: seq<Field>, held: seq<Slot>, at: seq<nat>, fields: seq<Field>, slots: seq<Slot>, j: nat)
    requires PartOf(older, held, at, fields, slots) && CutAt(at, j, |fields|)
    ensures j == |at|
  {
    CutEnds(at, j, |fields|);
  }

  lemma KnownNext(older: seq<Field>, held: seq<Slot>, at: seq<nat>, fields: seq<Field>, slots: seq<Slot>, j: nat)
    requires PartOf(older, held, at, fields, slots) && j < |at| && CutAt(at, j, at[j])
    requires DescriptorOk(fields) && MessageFits(fields, slots) && Encodes(fields, slots)
    ensures MessageFits(older, held) && j < |older| && at[j] < |fields| && CutAt(at, j + 1, at[j] + 1)
    ensures EncodeAt(older, held, j) == EncodeAt(fields, slots, at[j])
  {
    PartFits(older, held, at, fields, slots);
    CutMoves(at, j, at[j]);
  }

  lemma SkippedTurn(older: seq<Field>, held: seq<Slot>, at: seq<nat>, fields: seq<Field>, slots: seq<Slot>, j: nat, i: nat,
                    rest: bytes)
    requires PartOf(older, held, at, fields, slots) && CutAt(at, j, i) && i < |fields| && !(j < |at| && at[j] == i)
    requires DescriptorOk(fields) && MessageFits(fields, slots) && Encodes(fields, slots) && Midway(older, held, j)
    requires |EncodeAt(fields, slots, i)| < TWO_32
    ensures CutAt(at, j, i + 1) && DescriptorOk(older) && MessageFits(older, held) && StateOk(older, StateAt(older, held, j))
    ensures DecodeLoop(older, EncodeAt(fields, slots, i) + rest, StateAt(older, held, j))
            == DecodeLoop(older, rest, StateAt(older, held, j))
  {
    PartFits(older, held, at, fields, slots);
    MidwayOk(older, held, j);
    CutMoves(at, j, i);
    hide Encodes, StateAt, StateOk, DecodeLoop, EncodeFrom, EncodeSlot, ReadableAt, ReadableFrom, Midway, FieldOk, SlotFits;
    SkippedIsUnknown(older, at, fields, i);
    assert SlotAt(fields, slots, i);
    SlotSkipped(older, fields[i], slots[SlotOf(fields, i)], rest, StateAt(older, held, j));
  }

  lemma NothingLeft(fields: seq<Field>, slots: seq<Slot>)
    requires MessageFits(fields, slots)
    ensures Outcome(fields, slots, |fields|) == Parsed(StateAt(fields, slots, |fields|), [])
  {
  }

  /**
   Decoding with a descriptor that lacks some of the fields succeeds wherever decoding what it knows
   would, and gives the fields it knows; with all the fields it is the round trip.
   */
  lemma OlderReader(older: seq<Field>, held: seq<Slot>, at: seq<nat>, fields: seq<Field>, slots: seq<Slot>)
    requires PartOf(older, held, at, fields, slots)
    requires DescriptorOk(fields) && MessageFits(fields, slots) && Encodes(fields, slots)
    requires |EncodeFrom(fields, slots, 0)| < TWO_32
    ensures DescriptorOk(older) && MessageFits(older, held) && MessageFits(older, InitialSlots(older, |older|))
    ensures DecodeMessage(older, EncodeFrom(fields, slots, 0), InitialSlots(older, |older|)) ==
            if ReadableFrom(older, held, 0) then Parsed(Settle(older, held, |older|), []) else Bad
  {
    PartFits(older, held, at, fields, slots);
    InitialFits(older);
    StartIsFirst(older, held);
    hide DecodeLoop, MessageFits, EncodeFrom, ReadableFrom, Complete, PartOf;
    OlderLoop(older, held, at, fields, slots, 0, 0);
    AllSeen(older, held);
  }

  lemma StartIsFirst(fields: seq<Field>, slots: seq<Slot>)
    requires MessageFits(fields, slots)
    ensures StateAt(fields, slots, 0) == Start(fields, InitialSlots(fields, |fields|))
  {
  }
}
