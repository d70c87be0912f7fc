/**
 Decoding a message (nanopb pb_decode.c): what any bytes mean for a descriptor, and the
 stream methods that read them, submessages and packed arrays through bounded substreams.
 */
module NanopbDecode {
  import opened Coding
  import opened Nanopb

  /** A value read from the front of some bytes, and what follows it. */
  datatype Parsed<T> = Bad | Parsed(value: T, rest: bytes)

  // ---- Numbers ----

  /** Bitwise or of two `n`-bit numbers. */
  function Or(x: nat, y: nat, n: nat): (r: nat)
    ensures r < Pow2(n)
  {
    if n == 0 then 0 else (if x % 2 == 1 || y % 2 == 1 then 1 else 0) + 2 * Or(x / 2, y / 2, n - 1)
  }

  lemma {:induction false} OrZero(y: nat, n: nat)
    requires y < Pow2(n)
    ensures Or(0, y, n) == y
  {
    if n > 0 {
      OrZero(y / 2, n - 1);
    }
  }

  /** Numbers whose bits do not overlap are added up. */
  lemma {:induction false} OrDisjoint(x: nat, g: nat, k: nat, n: nat)
    requires x < Pow2(k) && k <= n && g * Pow2(k) < Pow2(n)
    ensures Or(x, g * Pow2(k), n) == x + g * Pow2(k)
  {
    if k == 0 {
      OrZero(g, n);
    } else {
      assert g * Pow2(k) == 2 * (g * Pow2(k - 1));
      OrDisjoint(x / 2, g, k - 1, n - 1);
    }
  }

  lemma Width32()
    ensures Pow2(32) == TWO_32
  {
    assert Pow2(8) == 256 && Pow2(16) == 256 * Pow2(8) && Pow2(24) == 256 * Pow2(16);
  }

  /** A group of seven bits moved to its place in a 32-bit number. */
  function Shifted(group: nat, bitpos: nat): nat {
    group * Pow2(bitpos) % TWO_32
  }

  /**
   The bytes of a 32-bit varint after the first. Groups past bit 32 may only extend the sign,
   and the bit position counts modulo 256.
   */
  function Varint32Tail(input: bytes, bitpos: nat, result: uint32): (r: Parsed<uint32>)
    ensures r.Parsed? ==> |r.rest| < |input|
  {
    if input == [] then Bad
    else
      var b := input[0];
      if bitpos >= 32 && b % 128 != 0 && (result < 0x8000_0000 || b != SignExtension(bitpos)) then Bad
      else
        var sum: uint32 := AddGroup(result, b, bitpos);
        var next := (bitpos + 7) % 256;
        if b >= 128 then Varint32Tail(input[1..], next, sum)
        else if next == 35 && b >= 16 then Bad
        else Parsed(sum, input[1..])
  }

  function SignExtension(bitpos: nat): byte {
    if bitpos < 63 then 0xFF else 0x01
  }

  function AddGroup(result: uint32, b: byte, bitpos: nat): uint32 {
    Width32();
    if bitpos >= 32 then result else Or(result, Shifted(b % 128, bitpos), 32)
  }

  function DecodeVarint32(input: bytes): (r: Parsed<uint32>)
    ensures r.Parsed? ==> |r.rest| < |input|
  {
    if input == [] then Bad
    else if input[0] < 128 then Parsed(input[0], input[1..])
    else Varint32Tail(input[1..], 7, input[0] % 128)
  }

  /** The low bytes of a number as a signed integer of that size. */
  function Signed(v: int, size: nat): int {
    var m := v % (2 * Half(size));
    if m < Half(size) then m else m - 2 * Half(size)
  }

  function UnZigZag(v: nat): int {
    if v % 2 == 1 then -(v / 2) - 1 else v / 2
  }

  /** Fields of at most 32 bits take the low 32 bits of the varint first. */
  function ToSigned(v: uint64, size: nat): Option<int> {
    var wide := Signed(v, if size == 8 then 8 else 4);
    if IntSize(size) && Signed(wide, size) == wide then Some(wide) else None
  }

  function ToUnsigned(v: uint64, size: nat): Option<nat> {
    if IntSize(size) && v % (2 * Half(size)) == v then Some(v) else None
  }

  function ToZigZagged(v: uint64, size: nat): Option<int> {
    if IntSize(size) && Signed(UnZigZag(v), size) == UnZigZag(v) then Some(UnZigZag(v)) else None
  }

  // ---- Values ----

  function Take(input: bytes, n: nat): (r: Parsed<bytes>)
    ensures r.Parsed? ==> |r.value| == n && |r.rest| + n == |input|
  {
    if n <= |input| then Parsed(input[..n], input[n..]) else Bad
  }

  /** A length-delimited stretch. */
  function TakeCounted(input: bytes): (r: Parsed<bytes>)
    ensures r.Parsed? ==> |r.value| + |r.rest| < |input| && |r.value| < TWO_32
  {
    match DecodeVarint32(input)
    case Bad => Bad
    case Parsed(n, rest) => Take(rest, n)
  }

  function NumberOf(r: Option<int>, rest: bytes): Parsed<Value> {
    if r.None? then Bad else Parsed(Number(r.value), rest)
  }

  function ReadNumber(f: Field, input: bytes): (r: Parsed<Value>)
    requires f.kind.LVarint? || f.kind.LUvarint? || f.kind.LSvarint?
    ensures r.Parsed? ==> ValueFits(f, r.value) && |r.rest| < |input|
  {
    match Varint64(input)
    case None => Bad
    case Some((v, rest)) =>
      if f.kind.LVarint? then NumberOf(ToSigned(v, f.dataSize), rest)
      else if f.kind.LUvarint? then NumberOf(ToUnsigned(v, f.dataSize), rest)
      else NumberOf(ToZigZagged(v, f.dataSize), rest)
  }

  function ReadFixed(input: bytes, n: nat): Parsed<Value> {
    match Take(input, n)
    case Bad => Bad
    case Parsed(s, rest) => Parsed(Number(DecodeFixed(s)), rest)
  }

  /** Bytes, text or an inline buffer; the size is refused before the bytes are looked for. */
  function ReadData(f: Field, input: bytes): (r: Parsed<Value>)
    requires f.kind.LBytes? || f.kind.LString? || f.kind.LFixedLengthBytes?
    ensures r.Parsed? ==> ValueFits(f, r.value) && |r.rest| < |input|
  {
    hide DecodeVarint32, TextLength, MessageFits;
    match DecodeVarint32(input)
    case Bad => Bad
    case Parsed(n, rest) => if f.kind.LString? then ReadText(f, n, rest) else ReadBuffer(f, n, rest)
  }

  function ReadText(f: Field, n: uint32, input: bytes): (r: Parsed<Value>)
    requires f.kind.LString?
    ensures r.Parsed? ==> ValueFits(f, r.value) && |r.rest| <= |input|
  {
    hide TextLength, MessageFits;
    if n + 1 > f.dataSize || n + 1 == TWO_32 then Bad else DataOf(Take(input, n), [0])
  }

  function ReadBuffer(f: Field, n: uint32, input: bytes): (r: Parsed<Value>)
    requires f.kind.LBytes? || f.kind.LFixedLengthBytes?
    ensures r.Parsed? ==> ValueFits(f, r.value) && |r.rest| <= |input|
  {
    hide TextLength, MessageFits;
    if f.kind.LBytes? then
      if n + BYTES_HEADER > f.dataSize then Bad else DataOf(Take(input, n), [])
    else if n == 0 then Parsed(Zero(f), input)
    else if n != f.dataSize then Bad
    else DataOf(Take(input, n), [])
  }

  function DataOf(input: Parsed<bytes>, terminator: bytes): (r: Parsed<Value>)
    ensures r.Parsed? ==> r.value.Data?
    ensures r.Parsed? && terminator == [0] ==> TextLength(r.value.data) < |r.value.data|
  {
    if input.Bad? then Bad
    else
      var data := input.value + terminator;
      assert terminator == [0] ==> data[..|data|][|data| - 1] == 0;
      Parsed(Data(data), input.rest)
  }

  /**
   One value from the front of `input`. A submessage that is not an array item is merged into
   what the structure already holds.
   */
  function ReadValue(f: Field, input: bytes, before: Value): (r: Parsed<Value>)
    requires FieldOk(f) && ValueFits(f, before)
    ensures r.Parsed? ==> ValueFits(f, r.value) && |r.rest| < |input|
    decreases f, 0
  {
    match f.kind
    case LBool => (
      match DecodeVarint32(input)
      case Bad => Bad
      case Parsed(v, rest) => Parsed(Truth(v != 0), rest))
    case LVarint | LUvarint | LSvarint => ReadNumber(f, input)
    case LFixed32 =>
      FixedFits(input, 4);
      ReadFixed(input, 4)
    case LFixed64 =>
      FixedFits(input, 8);
      ReadFixed(input, 8)
    case LBytes | LString | LFixedLengthBytes => ReadData(f, input)
    case LSubmessage =>
      match TakeCounted(input)
      case Bad => Bad
      case Parsed(body, rest) =>
        InitialFits(f.fields);
        var slots := if f.rule.Repeated? then InitialSlots(f.fields, |f.fields|) else before.slots;
        match DecodeMessage(f.fields, body, slots)
        case Bad => Bad
        case Parsed(decoded, _) => Parsed(Record(decoded), rest)
  }

  lemma FixedFits(input: bytes, n: nat)
    requires n == 4 || n == 8
    ensures ReadFixed(input, n).Parsed? ==> 0 <= ReadFixed(input, n).value.n < (if n == 4 then TWO_32 else TWO_64)
  {
    if n <= |input| {
      DecodedFits(input[..n]);
      Widths();
    }
  }

  // ---- Arrays ----

  /** An array being received: its items and how many of them have come. */
  datatype Filled = Filled(items: seq<Value>, size: nat)

  predicate FilledOk(f: Field, a: Filled) {
    && f.rule.Repeated?
    && AllFit(f, a.items)
    && if f.rule.counted then a.size == |a.items| else |a.items| == f.arraySize
  }

  function PutItem(f: Field, a: Filled, v: Value): (r: Filled)
    requires FilledOk(f, a) && a.size < f.arraySize && ValueFits(f, v)
    ensures FilledOk(f, r)
  {
    Filled(if f.rule.counted then a.items + [v] else a.items[a.size := v], a.size + 1)
  }

  /** The items of a packed array, to the end of its stretch. */
  function ReadPacked(f: Field, input: bytes, a: Filled): (r: Option<Filled>)
    requires FieldOk(f) && FilledOk(f, a) && Packable(f.kind)
    ensures r.Some? ==> FilledOk(f, r.value)
    decreases f, 1, |input|
  {
    if input == [] then Some(a)
    else if a.size >= f.arraySize then None
    else
      match ReadValue(f, input, f.initial)
      case Bad => None
      case Parsed(v, rest) => ReadPacked(f, rest, PutItem(f, a, v))
  }

  /** One occurrence of a repeated field: a packed stretch of numbers or a single item. */
  function ReadItems(f: Field, wt: nat, input: bytes, a: Filled): (r: Parsed<Filled>)
    requires FieldOk(f) && FilledOk(f, a)
    ensures r.Parsed? ==> FilledOk(f, r.value) && |r.rest| < |input|
    decreases f, 2
  {
    if wt == WT_STRING && Packable(f.kind) then
      match TakeCounted(input)
      case Bad => Bad
      case Parsed(body, rest) => (
        match ReadPacked(f, body, a)
        case None => Bad
        case Some(b) => Parsed(b, rest))
    else if a.size >= f.arraySize then Bad
    else
      InitialValueFits(f);
      match ReadValue(f, input, InitialValue(f))
      case Bad => Bad
      case Parsed(v, rest) => Parsed(PutItem(f, a, v), rest)
  }

  // ---- Messages ----

  /**
   What the decoding of a message keeps: the structure, the required fields seen, and the array
   without a counter that is being received (or the number of fields) with its progress.
   */
  datatype State = State(slots: seq<Slot>, seen: set<nat>, fixedField: nat, fixedSize: nat)

  predicate StateOk(fields: seq<Field>, st: State) {
    MessageFits(fields, st.slots) && st.fixedField <= |fields|
  }

  function Start(fields: seq<Field>, slots: seq<Slot>): State {
    State(slots, {}, |fields|, 0)
  }

  /** Every item of the last array without a counter has come. */
  predicate FixedComplete(fields: seq<Field>, st: State)
    requires st.fixedField <= |fields|
  {
    st.fixedField < |fields| ==> st.fixedSize == fields[st.fixedField].arraySize
  }

  /** A field was met: a new array without a counter needs the last one complete, a required field is noted. */
  function Note(fields: seq<Field>, i: nat, st: State): (r: Option<State>)
    requires i < |fields| && StateOk(fields, st)
    ensures r.Some? ==> StateOk(fields, r.value) && r.value.slots == st.slots
  {
    if fields[i].rule == Repeated(false) && st.fixedField != i then
      if FixedComplete(fields, st) then Some(st.(fixedField := i, fixedSize := 0)) else None
    else if fields[i].rule.Required? && RequiredBefore(fields, i) < MAX_REQUIRED_FIELDS then
      Some(st.(seen := st.seen + {RequiredBefore(fields, i)}))
    else Some(st)
  }

  /** The slot after a value for a field that is not repeated. */
  function Stored(f: Field, v: Value): Slot {
    match f.rule
    case Optional(hasFlag) => if hasFlag then Maybe(true, v) else Single(v)
    case OneOf(_) => Chosen(f.tag, v)
    case _ => Single(v)
  }

  /** What a submessage is merged into; the members of a union start from their defaults. */
  function Before(f: Field, s: Slot): (v: Value)
    requires FieldOk(f) && SlotFits(f, s) && !f.rule.Repeated?
    ensures ValueFits(f, v)
  {
    InitialValueFits(f);
    if f.rule.OneOf? then InitialValue(f) else s.value
  }

  function FillOf(f: Field, s: Slot, fixedSize: nat): (a: Filled)
    requires SlotFits(f, s) && f.rule.Repeated?
    ensures FilledOk(f, a)
  {
    Filled(s.items, if f.rule.counted then |s.items| else fixedSize)
  }

  function SetSlot(fields: seq<Field>, i: nat, st: State, s: Slot): (r: State)
    requires i < |fields| && DescriptorOk(fields) && StateOk(fields, st) && SlotFits(fields[i], s)
    requires fields[i].rule.OneOf? ==> s.Chosen? && s.tag == fields[i].tag
    ensures StateOk(fields, r)
  {
    SlotsBounded(fields, i);
    var r := st.(slots := st.slots[SlotOf(fields, i) := s]);
    SlotReplaced(fields, st.slots, i, s);
    r
  }

  lemma SlotReplaced(fields: seq<Field>, slots: seq<Slot>, i: nat, s: Slot)
    requires i < |fields| && DescriptorOk(fields) && MessageFits(fields, slots) && SlotFits(fields[i], s)
    requires fields[i].rule.OneOf? ==> s.Chosen? && s.tag == fields[i].tag
    requires SlotOf(fields, i) < |slots|
    ensures MessageFits(fields, slots[SlotOf(fields, i) := s])
  {
    var after := slots[SlotOf(fields, i) := s];
    forall k | 0 <= k < |fields|
      ensures SlotAt(fields, after, k)
    {
      assert SlotAt(fields, slots, k);
      if k < i {
        SlotsAscend(fields, k, i);
        assert fields[k].tag != fields[i].tag;
      } else if i < k {
        SlotsAscend(fields, i, k);
        assert fields[i].tag != fields[k].tag;
      }
    }
    assert |after| == SlotCount(fields, |fields|);
    assert MessageFits(fields, after);
  }

  /** The field's data is read into its slot. */
  function ReadField(fields: seq<Field>, i: nat, wt: nat, input: bytes, st: State): (r: Parsed<State>)
    requires i < |fields| && DescriptorOk(fields) && StateOk(fields, st)
    ensures r.Parsed? ==> StateOk(fields, r.value) && |r.rest| < |input|
    decreases fields, 0
  {
    var f := fields[i];
    assert SlotAt(fields, st.slots, i);
    var s := st.slots[SlotOf(fields, i)];
    if f.rule.Repeated? then
      match ReadItems(f, wt, input, FillOf(f, s, st.fixedSize))
      case Bad => Bad
      case Parsed(a, rest) =>
        var st1 := if f.rule.counted then st else st.(fixedSize := a.size);
        Parsed(SetSlot(fields, i, st1, Many(a.items)), rest)
    else
      match ReadValue(f, input, Before(f, s))
      case Bad => Bad
      case Parsed(v, rest) => Parsed(SetSlot(fields, i, st, Stored(f, v)), rest)
  }

  datatype TagRead = TagRead(tag: nat, wt: nat, rest: bytes) | Ended(rest: bytes) | BadTag

  function DecodeTag(input: bytes): (r: TagRead)
    ensures !r.BadTag? ==> |r.rest| <= |input|
    ensures r.TagRead? ==> |r.rest| < |input|
  {
    if input == [] then Ended([])
    else
      match DecodeVarint32(input)
      case Bad => BadTag
      case Parsed(v, rest) => if v == 0 then Ended(rest) else TagRead(v / 8, v % 8, rest)
  }

  function SkipVarint(input: bytes): (r: Option<bytes>)
    ensures r.Some? ==> |r.value| < |input|
  {
    if input == [] then None else if input[0] < 128 then Some(input[1..]) else SkipVarint(input[1..])
  }

  function SkipField(input: bytes, wt: nat): (r: Option<bytes>)
    ensures r.Some? ==> |r.value| <= |input|
  {
    if wt == WT_VARINT then SkipVarint(input)
    else if wt == WT_64BIT then RestOf(Take(input, 8))
    else if wt == WT_STRING then RestOf(TakeCounted(input))
    else if wt == WT_32BIT then RestOf(Take(input, 4))
    else None
  }

  function RestOf<T>(r: Parsed<T>): Option<bytes> {
    if r.Bad? then None else Some(r.rest)
  }

  /** The fields on the wire, in whatever order they come; unknown ones are skipped. */
  function DecodeLoop(fields: seq<Field>, input: bytes, st: State): (r: Parsed<State>)
    requires DescriptorOk(fields) && StateOk(fields, st)
    ensures r.Parsed? ==> StateOk(fields, r.value) && |r.rest| <= |input|
    decreases fields, 1, |input|
  {
    if input == [] then Parsed(st, [])
    else
      match DecodeTag(input)
      case BadTag => Bad
      case Ended(rest) => Parsed(st, rest)
      case TagRead(tag, wt, rest) =>
        var i := FieldWith(fields, tag, 0);
        if i == |fields| then
          // In an empty descriptor tag 0 matches the terminator, which reads as a bool.
          match if fields == [] && tag == 0 then SkipBool(rest) else SkipField(rest, wt)
          case None => Bad
          case Some(after) => DecodeLoop(fields, after, st)
        else
          match Note(fields, i, st)
          case None => Bad
          case Some(noted) =>
            match ReadField(fields, i, wt, rest, noted)
            case Bad => Bad
            case Parsed(next, after) => DecodeLoop(fields, after, next)
  }

  function SkipBool(input: bytes): (r: Option<bytes>)
    ensures r.Some? ==> |r.value| <= |input|
  {
    match DecodeVarint32(input)
    case Bad => None
    case Parsed(_, rest) => Some(rest)
  }

  /** What one turn of the loop does once it knows the tag. */
  function AfterTag(fields: seq<Field>, tag: nat, wt: nat, input: bytes, st: State): (r: Parsed<State>)
    requires DescriptorOk(fields) && StateOk(fields, st)
    ensures r.Parsed? ==> StateOk(fields, r.value) && |r.rest| <= |input|
  {
    var i := FieldWith(fields, tag, 0);
    if i == |fields| then
      match if fields == [] && tag == 0 then SkipBool(input) else SkipField(input, wt)
      case None => Bad
      case Some(rest) => Parsed(st, rest)
    else
      match Note(fields, i, st)
      case None => Bad
      case Some(noted) => ReadField(fields, i, wt, input, noted)
  }

  lemma LoopIs(fields: seq<Field>, input: bytes, st: State)
    requires DescriptorOk(fields) && StateOk(fields, st) && input != []
    ensures
      var tag, whole := DecodeTag(input), DecodeLoop(fields, input, st);
      && (tag.BadTag? ==> whole == Bad) && (tag.Ended? ==> whole == Parsed(st, tag.rest))
      && (tag.TagRead? ==>
            var next := AfterTag(fields, tag.tag, tag.wt, tag.rest, st);
            whole == if next.Bad? then Bad else DecodeLoop(fields, next.rest, next.value))
  {
    hide ReadField, Note, SkipField, DecodeTag, StateOk;
  }

  lemma StartIs(fields: seq<Field>, slots: seq<Slot>)
    requires DescriptorOk(fields) && MessageFits(fields, slots)
    ensures StateOk(fields, Start(fields, slots))
  {
  }

  /** How many required fields are kept track of. */
  function Tracked(fields: seq<Field>): nat {
    var n := RequiredBefore(fields, |fields|);
    if n < MAX_REQUIRED_FIELDS then n else MAX_REQUIRED_FIELDS
  }

  predicate Complete(fields: seq<Field>, st: State)
    requires st.fixedField <= |fields|
  {
    FixedComplete(fields, st) && forall k :: 0 <= k < Tracked(fields) ==> k in st.seen
  }

  lemma DecodeNothing(fields: seq<Field>, st: State)
    requires DescriptorOk(fields) && StateOk(fields, st)
    ensures DecodeLoop(fields, [], st) == Parsed(st, [])
  {
  }

  /** The message the bytes mean, on top of `slots`: the whole structure, or a failure. */
  function DecodeMessage(fields: seq<Field>, input: bytes, slots: seq<Slot>): (r: Parsed<seq<Slot>>)
    requires DescriptorOk(fields) && MessageFits(fields, slots)
    ensures r.Parsed? ==> MessageFits(fields, r.value) && |r.rest| <= |input|
    decreases fields, 2
  {
    match DecodeLoop(fields, input, Start(fields, slots))
    case Bad => Bad
    case Parsed(st, rest) => if Complete(fields, st) then Parsed(st.slots, rest) else Bad
  }
}
