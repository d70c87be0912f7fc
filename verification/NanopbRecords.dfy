/**
 The records on the wire, told apart by tags and lengths alone, and what must be among them
 (nanopb pb_decode.c).
 */
module NanopbRecords {
  import opened Coding
  import opened Nanopb
  import opened NanopbDecode

  // ---- Where a value ends ----

  /** What follows a value of this kind; what it says is not looked at. */
  function AfterValue(kind: Kind, input: bytes): (r: Option<bytes>)
    ensures r.Some? ==> |r.value| < |input|
  {
    match kind
    case LBool => RestOf(DecodeVarint32(input))
    case LVarint | LUvarint | LSvarint => if Varint64(input).None? then None else Some(Varint64(input).value.1)
    case LFixed32 => RestOf(Take(input, 4))
    case LFixed64 => RestOf(Take(input, 8))
    case _ => RestOf(TakeCounted(input))
  }

  /** Reading a value leaves off where it ends. */
  lemma ValueEnds(f: Field, input: bytes, before: Value)
    requires FieldOk(f) && ValueFits(f, before)
    ensures
      var r := ReadValue(f, input, before);
      r.Parsed? ==> AfterValue(f.kind, input) == Some(r.rest)
  {
    hide DecodeVarint32, DecodeMessage, MessageFits, TextLength, ToSigned, ToUnsigned, ToZigZagged, InitialSlots;
  }

  lemma {:induction false} VarintSkipped(s: bytes, n: nat)
    ensures ReadVarint(s, n).Some? ==> SkipVarint(s) == Some(s[ReadVarint(s, n).value.length..])
  {
    if n > 0 && s != [] && s[0] >= 128 {
      VarintSkipped(s[1..], n - 1);
    }
  }

  lemma {:induction false} TailSkipped(input: bytes, bitpos: nat, result: uint32)
    ensures Varint32Tail(input, bitpos, result).Parsed? ==> SkipVarint(input) == Some(Varint32Tail(input, bitpos, result).rest)
    decreases |input|
  {
    hide AddGroup, SignExtension;
    if input != [] && input[0] >= 128 {
      TailSkipped(input[1..], (bitpos + 7) % 256, AddGroup(result, input[0], bitpos));
    }
  }

  /** Whoever does not know a field skips its value by the wire type alone, to the same end. */
  lemma SkippedAlike(kind: Kind, input: bytes)
    ensures AfterValue(kind, input).Some? ==> SkipField(input, WireType(kind)) == AfterValue(kind, input)
  {
    hide Varint32Tail, ReadVarint, SkipVarint;
    VarintSkipped(input, MAX_VARINT64);
    if input != [] {
      TailSkipped(input[1..], 7, input[0] % 128);
      FirstSkipped(input);
    }
  }

  lemma FirstSkipped(input: bytes)
    requires input != []
    ensures SkipVarint(input) == if input[0] < 128 then Some(input[1..]) else SkipVarint(input[1..])
  {
  }

  // ---- The records of a message ----

  /** What follows the data of a record: numbers of an array may come packed. */
  function AfterRecord(fields: seq<Field>, tag: nat, wt: nat, input: bytes): (r: Option<bytes>)
    ensures r.Some? ==> |r.value| <= |input|
  {
    var i := FieldWith(fields, tag, 0);
    if i == |fields| then if fields == [] && tag == 0 then SkipBool(input) else SkipField(input, wt)
    else if fields[i].rule.Repeated? && wt == WT_STRING && Packable(fields[i].kind) then RestOf(TakeCounted(input))
    else AfterValue(fields[i].kind, input)
  }

  /** The tags of the records, to the end of the bytes, a zero tag, or what is no record. */
  function Tags(fields: seq<Field>, input: bytes): set<nat>
    decreases |input|
  {
    match DecodeTag(input)
    case BadTag => {}
    case Ended(_) => {}
    case TagRead(tag, wt, rest) =>
      {tag} + match AfterRecord(fields, tag, wt, rest) {
        case None => {}
        case Some(after) => Tags(fields, after)
      }
  }

  lemma FieldEnds(fields: seq<Field>, i: nat, wt: nat, input: bytes, st: State)
    requires i < |fields| && DescriptorOk(fields) && StateOk(fields, st) && FieldWith(fields, fields[i].tag, 0) == i
    ensures
      var r := ReadField(fields, i, wt, input, st);
      r.Parsed? ==> r.value.seen == st.seen && AfterRecord(fields, fields[i].tag, wt, input) == Some(r.rest)
  {
    var f := fields[i];
    assert FieldOk(f) && SlotAt(fields, st.slots, i);
    hide ReadValue, TakeCounted, ReadPacked, AfterValue, MessageFits, ValueFits;
    var s := st.slots[SlotOf(fields, i)];
    InitialValueFits(f);
    if f.rule.Repeated? {
      ValueEnds(f, input, InitialValue(f));
    } else {
      ValueEnds(f, input, Before(f, s));
    }
  }

  /** A field that must come: required, and among those kept track of. */
  predicate MustCome(fields: seq<Field>, i: nat) {
    i < |fields| && fields[i].rule.Required? && RequiredBefore(fields, i) < MAX_REQUIRED_FIELDS
  }

  lemma {:induction false} RequiredAscend(fields: seq<Field>, i: nat, k: nat)
    requires i < k <= |fields| && fields[i].rule.Required?
    ensures RequiredBefore(fields, i) < RequiredBefore(fields, k)
  {
    if i + 1 < k {
      RequiredAscend(fields, i, k - 1);
    }
  }

  lemma RequiredDiffer(fields: seq<Field>, i: nat, k: nat)
    requires i < |fields| && k < |fields| && fields[i].rule.Required? && fields[k].rule.Required?
    ensures RequiredBefore(fields, i) == RequiredBefore(fields, k) ==> i == k
  {
    if i < k {
      RequiredAscend(fields, i, k);
    } else if k < i {
      RequiredAscend(fields, k, i);
    }
  }

  /** A turn of the loop marks the field it met as seen, and no other. */
  lemma TurnSees(fields: seq<Field>, tag: nat, wt: nat, input: bytes, st: State, k: nat)
    requires DescriptorOk(fields) && StateOk(fields, st) && MustCome(fields, k)
    ensures
      var r, n := AfterTag(fields, tag, wt, input, st), RequiredBefore(fields, k);
      r.Parsed? ==>
        && AfterRecord(fields, tag, wt, input) == Some(r.rest)
        && (n in r.value.seen <==> n in st.seen || fields[k].tag == tag)
  {
    hide ReadField, SkipField, AfterRecord, MessageFits, SkipBool;
    var i := FieldWith(fields, tag, 0);
    if i == |fields| {
      UnknownEnds(fields, tag, wt, input);
      assert fields[k].tag != tag;
    } else {
      if Note(fields, i, st).Some? {
        FieldEnds(fields, i, wt, input, Note(fields, i, st).value);
      }
      if fields[i].rule.Required? {
        RequiredDiffer(fields, i, k);
      }
      SameTag(fields, i, k);
    }
  }

  lemma UnknownEnds(fields: seq<Field>, tag: nat, wt: nat, input: bytes)
    requires FieldWith(fields, tag, 0) == |fields|
    ensures AfterRecord(fields, tag, wt, input) == if fields == [] && tag == 0 then SkipBool(input) else SkipField(input, wt)
  {
  }

  lemma SameTag(fields: seq<Field>, i: nat, k: nat)
    requires DescriptorOk(fields) && i < |fields| && k < |fields|
    ensures fields[i].tag == fields[k].tag <==> i == k
  {
  }

  /** After the loop exactly the fields with a record are marked as seen. */
  lemma {:induction false} LoopSees(fields: seq<Field>, input: bytes, st: State, k: nat)
    requires DescriptorOk(fields) && StateOk(fields, st) && MustCome(fields, k)
    ensures
      var r, n := DecodeLoop(fields, input, st), RequiredBefore(fields, k);
      r.Parsed? ==> (n in r.value.seen <==> n in st.seen || fields[k].tag in Tags(fields, input))
    decreases |input|
  {
    hide DecodeLoop, AfterTag, AfterRecord, StateOk, DecodeTag;
    if input == [] {
      DecodeNothing(fields, st);
      NoRecords(fields);
    } else {
      LoopIs(fields, input, st);
      var read := DecodeTag(input);
      if read.TagRead? {
        var next := AfterTag(fields, read.tag, read.wt, read.rest, st);
        TurnSees(fields, read.tag, read.wt, read.rest, st, k);
        if next.Parsed? {
          LoopSees(fields, next.rest, next.value, k);
        }
      }
    }
  }

  lemma NoRecords(fields: seq<Field>)
    ensures Tags(fields, []) == {}
  {
  }

  /** Every field that must come has a record. */
  ghost predicate AllCame(fields: seq<Field>, input: bytes) {
    forall i: nat :: MustCome(fields, i) ==> fields[i].tag in Tags(fields, input)
  }

  lemma {:induction false} NthRequired(fields: seq<Field>, n: nat, to: nat) returns (i: nat)
    requires to <= |fields| && n < RequiredBefore(fields, to)
    ensures i < to && fields[i].rule.Required? && RequiredBefore(fields, i) == n
  {
    if fields[to - 1].rule.Required? && RequiredBefore(fields, to - 1) == n {
      i := to - 1;
    } else {
      i := NthRequired(fields, n, to - 1);
    }
  }

  /**
   A message decodes exactly if its records do, the last array without a counter is full, and
   every required field kept track of has a record.
   */
  lemma DecodesIff(fields: seq<Field>, input: bytes, slots: seq<Slot>)
    requires DescriptorOk(fields) && MessageFits(fields, slots)
    ensures
      var r := DecodeLoop(fields, input, Start(fields, slots));
      DecodeMessage(fields, input, slots).Parsed? <==>
        r.Parsed? && FixedComplete(fields, r.value) && AllCame(fields, input)
  {
    hide DecodeLoop, MessageFits, Tags, RequiredBefore;
    StartIs(fields, slots);
    var st := Start(fields, slots);
    var r := DecodeLoop(fields, input, st);
    if r.Parsed? {
      if Complete(fields, r.value) {
        forall i: nat | MustCome(fields, i)
          ensures fields[i].tag in Tags(fields, input)
        {
          LoopSees(fields, input, st, i);
          RequiredAscend(fields, i, |fields|);
        }
      }
      if AllCame(fields, input) {
        forall n: nat | n < Tracked(fields)
          ensures n in r.value.seen
        {
          var i := NthRequired(fields, n, |fields|);
          assert MustCome(fields, i);
          LoopSees(fields, input, st, i);
        }
      }
    }
  }

  // ---- Which record of a field counts ----

  /** The last record whose field is stored in slot `j`: its field and its data, with all that follows. */
  function LastFor(fields: seq<Field>, j: nat, input: bytes): (r: Option<(nat, bytes)>)
    ensures r.Some? ==> r.value.0 < |fields| && SlotOf(fields, r.value.0) == j
    decreases |input|
  {
    var read := DecodeTag(input);
    if !read.TagRead? then None
    else
      var i, after := FieldWith(fields, read.tag, 0), AfterRecord(fields, read.tag, read.wt, read.rest);
      var later := if after.Some? then LastFor(fields, j, after.value) else None;
      if later.Some? then later
      else if i < |fields| && SlotOf(fields, i) == j then Some((i, read.rest))
      else None
  }

  /** A single value that replaces whatever was there. */
  predicate Replaces(f: Field) {
    !f.rule.Repeated? && !f.kind.LSubmessage?
  }

  /** What the value at the front of `input` puts into the slot of a field that it replaces. */
  function StoredFrom(f: Field, input: bytes): Option<Slot>
    requires FieldOk(f) && Replaces(f)
  {
    var r := ReadValue(f, input, f.initial);
    if r.Bad? then None else Some(Stored(f, r.value))
  }

  lemma ReadAlike(f: Field, input: bytes, before: Value)
    requires FieldOk(f) && Replaces(f) && ValueFits(f, before)
    ensures ReadValue(f, input, before) == ReadValue(f, input, f.initial)
  {
    hide DecodeVarint32, DecodeMessage, MessageFits, TextLength;
  }

  /** Reading a field's data writes its own slot and no other. */
  lemma FieldWrites(fields: seq<Field>, i: nat, wt: nat, input: bytes, st: State, j: nat)
    requires i < |fields| && DescriptorOk(fields) && StateOk(fields, st) && j < |st.slots|
    ensures
      var r := ReadField(fields, i, wt, input, st);
      r.Parsed? ==>
        && |r.value.slots| == |st.slots|
        && (SlotOf(fields, i) != j ==> r.value.slots[j] == st.slots[j])
        && (SlotOf(fields, i) == j && Replaces(fields[i]) ==> StoredFrom(fields[i], input) == Some(r.value.slots[j]))
  {
    var f := fields[i];
    assert FieldOk(f) && SlotAt(fields, st.slots, i);
    var s := st.slots[SlotOf(fields, i)];
    hide ReadValue, ReadItems, ValueFits, MessageFits, DescriptorOk, FieldOk;
    if Replaces(f) {
      ReadAlike(f, input, Before(f, s));
    }
  }

  /** What a turn of the loop does to slot `j`. */
  lemma TurnWrites(fields: seq<Field>, tag: nat, wt: nat, input: bytes, st: State, j: nat)
    requires DescriptorOk(fields) && StateOk(fields, st) && j < |st.slots|
    ensures
      var r, i := AfterTag(fields, tag, wt, input, st), FieldWith(fields, tag, 0);
      r.Parsed? ==>
        && AfterRecord(fields, tag, wt, input) == Some(r.rest) && |r.value.slots| == |st.slots|
        && (i < |fields| && SlotOf(fields, i) == j ==>
              (Replaces(fields[i]) ==> StoredFrom(fields[i], input) == Some(r.value.slots[j])))
        && (!(i < |fields| && SlotOf(fields, i) == j) ==> r.value.slots[j] == st.slots[j])
  {
    hide ReadField, SkipField, AfterRecord, MessageFits, SkipBool, StoredFrom;
    var i := FieldWith(fields, tag, 0);
    if i == |fields| {
      UnknownEnds(fields, tag, wt, input);
    } else if Note(fields, i, st).Some? {
      FieldEnds(fields, i, wt, input, Note(fields, i, st).value);
      FieldWrites(fields, i, wt, input, Note(fields, i, st).value, j);
    }
  }

  /** A slot holds what the last record for it says, or what it held. */
  ghost predicate SlotIsLast(fields: seq<Field>, input: bytes, before: Slot, after: Slot, j: nat)
    requires DescriptorOk(fields)
  {
    var last := LastFor(fields, j, input);
    && (last.None? ==> after == before)
    && (last.Some? && Replaces(fields[last.value.0]) ==>
          StoredFrom(fields[last.value.0], last.value.1) == Some(after))
  }

  lemma {:induction false} LoopWrites(fields: seq<Field>, input: bytes, st: State, j: nat)
    requires DescriptorOk(fields) && StateOk(fields, st) && j < |st.slots|
    ensures
      var r := DecodeLoop(fields, input, st);
      r.Parsed? ==> |r.value.slots| == |st.slots| && SlotIsLast(fields, input, st.slots[j], r.value.slots[j], j)
    decreases |input|
  {
    hide DecodeLoop, AfterTag, AfterRecord, StateOk, StoredFrom, Replaces, DescriptorOk;
    if input == [] {
      DecodeNothing(fields, st);
    } else {
      LoopIs(fields, input, st);
      var read := DecodeTag(input);
      if read.TagRead? {
        var next := AfterTag(fields, read.tag, read.wt, read.rest, st);
        TurnWrites(fields, read.tag, read.wt, read.rest, st, j);
        if next.Parsed? {
          LoopWrites(fields, next.rest, next.value, j);
        }
      }
    }
  }

  /**
   Of several records for one slot the last one counts, be they of one field or of the members
   of a union: it alone says what a single value is decoded to. A slot without a record is left
   as it was.
   */
  lemma LastWins(fields: seq<Field>, input: bytes, slots: seq<Slot>, j: nat)
    requires DescriptorOk(fields) && MessageFits(fields, slots) && j < |slots|
    ensures
      var r := DecodeMessage(fields, input, slots);
      r.Parsed? ==> |r.value| == |slots| && SlotIsLast(fields, input, slots[j], r.value[j], j)
  {
    hide DecodeLoop, SlotIsLast, MessageFits;
    StartIs(fields, slots);
    LoopWrites(fields, input, Start(fields, slots), j);
  }
}
