/**
 Version edits as manifest records: tagged fields, written in a fixed order and read in any
 (db/version_edit.cc).
 */
module VersionEdit {
  import opened Coding
  import opened Versions

  datatype FileMeta = FileMeta(number: uint64, size: uint64, smallest: bytes, largest: bytes)
  datatype Pointer = Pointer(level: nat, key: bytes)
  datatype Deletion = Deletion(level: nat, number: uint64)
  datatype Addition = Addition(level: nat, meta: FileMeta)

  /** `deleted` is an ordered set, kept as its ascending list. */
  datatype Edit = Edit(
    comparator: Option<bytes>, logNumber: Option<uint64>, prevLogNumber: Option<uint64>, nextFile: Option<uint64>,
    lastSequence: Option<uint64>, pointers: seq<Pointer>, deleted: seq<Deletion>, added: seq<Addition>)

  const EMPTY: Edit := Edit(None, None, None, None, None, [], [], [])

  predicate DeletionLess(a: Deletion, b: Deletion) {
    a.level < b.level || (a.level == b.level && a.number < b.number)
  }

  ghost predicate Ascending(ds: seq<Deletion>) {
    forall i, j :: 0 <= i < j < |ds| ==> DeletionLess(ds[i], ds[j])
  }

  function InsertDeletion(ds: seq<Deletion>, d: Deletion): seq<Deletion> {
    if ds == [] || DeletionLess(d, ds[0]) then [d] + ds
    else if DeletionLess(ds[0], d) then [ds[0]] + InsertDeletion(ds[1..], d)
    else ds
  }

  lemma {:induction false} InsertLast(ds: seq<Deletion>, d: Deletion)
    requires Ascending(ds + [d])
    ensures InsertDeletion(ds, d) == ds + [d]
  {
    if ds != [] {
      assert (ds + [d])[|ds|] == d && (ds + [d])[0] == ds[0];
      assert (ds + [d])[1..] == ds[1..] + [d];
      InsertLast(ds[1..], d);
    }
  }

  // ---- Fields ----

  datatype Field =
    | Comparator(name: bytes) | LogNumber(n: uint64) | NextFile(n: uint64) | LastSequence(n: uint64)
    | CompactPointer(pointer: Pointer) | DeletedFile(deletion: Deletion) | NewFile(addition: Addition)
    | PrevLogNumber(n: uint64)

  function Tag(f: Field): uint32 {
    match f
    case Comparator(_) => 1
    case LogNumber(_) => 2
    case NextFile(_) => 3
    case LastSequence(_) => 4
    case CompactPointer(_) => 5
    case DeletedFile(_) => 6
    case NewFile(_) => 7
    case PrevLogNumber(_) => 9
  }

  /** What fits the encoding: levels that exist, slices with 32-bit lengths. */
  predicate FieldOk(f: Field) {
    match f
    case Comparator(name) => |name| < TWO_32
    case CompactPointer(p) => p.level < NUM_LEVELS && |p.key| < TWO_32
    case DeletedFile(d) => d.level < NUM_LEVELS
    case NewFile(a) => a.level < NUM_LEVELS && |a.meta.smallest| < TWO_32 && |a.meta.largest| < TWO_32
    case _ => true
  }

  function Payload(f: Field): bytes
    requires FieldOk(f)
  {
    match f
    case Comparator(name) => Prefixed(name)
    case CompactPointer(p) => Varint(p.level) + Prefixed(p.key)
    case DeletedFile(d) => Varint(d.level) + Varint(d.number)
    case NewFile(a) =>
      Varint(a.level) + (Varint(a.meta.number) + (Varint(a.meta.size) + (Prefixed(a.meta.smallest) + Prefixed(a.meta.largest))))
    case LogNumber(n) => Varint(n)
    case NextFile(n) => Varint(n)
    case LastSequence(n) => Varint(n)
    case PrevLogNumber(n) => Varint(n)
  }

  function FieldBytes(f: Field): bytes
    requires FieldOk(f)
  {
    Varint(Tag(f)) + Payload(f)
  }

  datatype FieldRead = FieldRead(field: Field, rest: bytes)
  datatype LevelRead = LevelRead(level: nat, rest: bytes)

  function GetLevel(input: bytes): (r: Option<LevelRead>)
    ensures r.Some? ==> |r.value.rest| < |input|
  {
    match Varint32(input)
    case None => None
    case Some((v, rest)) => if v < NUM_LEVELS then Some(LevelRead(v, rest)) else None
  }

  function GetNumber(input: bytes, make: uint64 -> Field): (r: Option<FieldRead>)
    ensures r.Some? ==> |r.value.rest| < |input|
  {
    match Varint64(input)
    case None => None
    case Some((n, rest)) => Some(FieldRead(make(n), rest))
  }

  function GetPointer(input: bytes): (r: Option<FieldRead>)
    ensures r.Some? ==> |r.value.rest| < |input|
  {
    match GetLevel(input)
    case None => None
    case Some(l) =>
      match Slice32(l.rest)
      case None => None
      case Some((key, rest)) => Some(FieldRead(CompactPointer(Pointer(l.level, key)), rest))
  }

  function GetDeletion(input: bytes): (r: Option<FieldRead>)
    ensures r.Some? ==> |r.value.rest| < |input|
  {
    match GetLevel(input)
    case None => None
    case Some(l) => GetNumber(l.rest, (n: uint64) => DeletedFile(Deletion(l.level, n)))
  }

  function GetKeys(input: bytes, level: nat, number: uint64, size: uint64): (r: Option<FieldRead>)
    ensures r.Some? ==> |r.value.rest| < |input|
  {
    match Slice32(input)
    case None => None
    case Some((smallest, r)) =>
      match Slice32(r)
      case None => None
      case Some((largest, rest)) => Some(FieldRead(NewFile(Addition(level, FileMeta(number, size, smallest, largest))), rest))
  }

  function GetAddition(input: bytes): (r: Option<FieldRead>)
    ensures r.Some? ==> |r.value.rest| < |input|
  {
    match GetLevel(input)
    case None => None
    case Some(l) =>
      match Varint64(l.rest)
      case None => None
      case Some((number, r)) =>
        match Varint64(r)
        case None => None
        case Some((size, keys)) => GetKeys(keys, l.level, number, size)
  }

  /** The payload a tag announces; nothing for an unknown tag or a short payload. */
  function GetPayload(tag: uint32, input: bytes): (r: Option<FieldRead>)
    ensures r.Some? ==> |r.value.rest| < |input|
  {
    if tag == 1 then
      match Slice32(input)
      case None => None
      case Some((name, rest)) => Some(FieldRead(Comparator(name), rest))
    else if tag == 2 then GetNumber(input, (n: uint64) => LogNumber(n))
    else if tag == 3 then GetNumber(input, (n: uint64) => NextFile(n))
    else if tag == 4 then GetNumber(input, (n: uint64) => LastSequence(n))
    else if tag == 5 then GetPointer(input)
    else if tag == 6 then GetDeletion(input)
    else if tag == 7 then GetAddition(input)
    else if tag == 9 then GetNumber(input, (n: uint64) => PrevLogNumber(n))
    else None
  }

  lemma PayloadRoundTrip(f: Field, rest: bytes)
    requires FieldOk(f)
    ensures GetPayload(Tag(f), Payload(f) + rest) == Some(FieldRead(f, rest))
  {
    hide Varint, Varint32, Varint64, Slice32, Prefixed;
    match f
    case Comparator(name) => SliceRoundTrip(name, rest);
    case CompactPointer(p) =>
      assert Payload(f) + rest == Varint(p.level) + (Prefixed(p.key) + rest);
      Varint32RoundTrip(p.level, Prefixed(p.key) + rest);
      SliceRoundTrip(p.key, rest);
    case DeletedFile(d) =>
      assert Payload(f) + rest == Varint(d.level) + (Varint(d.number) + rest);
      Varint32RoundTrip(d.level, Varint(d.number) + rest);
      Varint64RoundTrip(d.number, rest);
    case NewFile(a) => AdditionRoundTrip(a, rest);
    case LogNumber(n) => Varint64RoundTrip(n, rest);
    case NextFile(n) => Varint64RoundTrip(n, rest);
    case LastSequence(n) => Varint64RoundTrip(n, rest);
    case PrevLogNumber(n) => Varint64RoundTrip(n, rest);
  }

  lemma AdditionRoundTrip(a: Addition, rest: bytes)
    requires FieldOk(NewFile(a))
    ensures GetAddition(Payload(NewFile(a)) + rest) == Some(FieldRead(NewFile(a), rest))
  {
    hide Varint, Varint32, Varint64, Slice32, Prefixed;
    var m := a.meta;
    var keys := Prefixed(m.smallest) + (Prefixed(m.largest) + rest);
    assert Payload(NewFile(a)) + rest == Varint(a.level) + (Varint(m.number) + (Varint(m.size) + keys));
    Varint32RoundTrip(a.level, Varint(m.number) + (Varint(m.size) + keys));
    Varint64RoundTrip(m.number, Varint(m.size) + keys);
    Varint64RoundTrip(m.size, keys);
    SliceRoundTrip(m.smallest, Prefixed(m.largest) + rest);
    SliceRoundTrip(m.largest, rest);
  }

  // ---- Whole edits ----

  function NameField(x: Option<bytes>): seq<Field> {
    if x.None? then [] else [Comparator(x.value)]
  }

  function LogField(x: Option<uint64>): seq<Field> {
    if x.None? then [] else [LogNumber(x.value)]
  }

  function PrevLogField(x: Option<uint64>): seq<Field> {
    if x.None? then [] else [PrevLogNumber(x.value)]
  }

  function NextFileField(x: Option<uint64>): seq<Field> {
    if x.None? then [] else [NextFile(x.value)]
  }

  function SequenceField(x: Option<uint64>): seq<Field> {
    if x.None? then [] else [LastSequence(x.value)]
  }

  function NumberFields(e: Edit): seq<Field> {
    NameField(e.comparator) + LogField(e.logNumber) + PrevLogField(e.prevLogNumber) + NextFileField(e.nextFile)
    + SequenceField(e.lastSequence)
  }

  function PointerFields(ps: seq<Pointer>): seq<Field> {
    seq(|ps|, i requires 0 <= i < |ps| => CompactPointer(ps[i]))
  }

  function DeletionFields(ds: seq<Deletion>): seq<Field> {
    seq(|ds|, i requires 0 <= i < |ds| => DeletedFile(ds[i]))
  }

  function AdditionFields(fs: seq<Addition>): seq<Field> {
    seq(|fs|, i requires 0 <= i < |fs| => NewFile(fs[i]))
  }

  /** The fields of an edit in the order they are written. */
  function Fields(e: Edit): seq<Field> {
    NumberFields(e) + PointerFields(e.pointers) + DeletionFields(e.deleted) + AdditionFields(e.added)
  }

  ghost predicate AllOk(fs: seq<Field>) {
    forall i :: 0 <= i < |fs| ==> FieldOk(fs[i])
  }

  ghost function Encoded(fs: seq<Field>): bytes
    requires AllOk(fs)
  {
    if fs == [] then [] else FieldBytes(fs[0]) + Encoded(fs[1..])
  }

  function Absorb(e: Edit, f: Field): Edit {
    match f
    case Comparator(name) => e.(comparator := Some(name))
    case LogNumber(n) => e.(logNumber := Some(n))
    case PrevLogNumber(n) => e.(prevLogNumber := Some(n))
    case NextFile(n) => e.(nextFile := Some(n))
    case LastSequence(n) => e.(lastSequence := Some(n))
    case CompactPointer(p) => e.(pointers := e.pointers + [p])
    case DeletedFile(d) => e.(deleted := InsertDeletion(e.deleted, d))
    case NewFile(a) => e.(added := e.added + [a])
  }

  ghost function AbsorbAll(e: Edit, fs: seq<Field>): Edit
    decreases |fs|
  {
    if fs == [] then e else AbsorbAll(Absorb(e, fs[0]), fs[1..])
  }

  /** Decoding: fields until the tags run out; trailing bytes are an error. */
  function Decode(input: bytes, e: Edit): Option<Edit>
    decreases |input|
  {
    match Varint32(input)
    case None => if input == [] then Some(e) else None
    case Some((tag, r)) =>
      match GetPayload(tag, r)
      case None => None
      case Some(read) => Decode(read.rest, Absorb(e, read.field))
  }

  lemma {:induction false} DecodeEncoded(fs: seq<Field>, e: Edit)
    requires AllOk(fs)
    ensures Decode(Encoded(fs), e) == Some(AbsorbAll(e, fs))
  {
    hide Varint, GetPayload, Payload, Tag, Absorb, Varint32;
    if fs == [] {
      EmptyInput();
    } else {
      var rest := Encoded(fs[1..]);
      assert Encoded(fs) == Varint(Tag(fs[0])) + (Payload(fs[0]) + rest);
      Varint32RoundTrip(Tag(fs[0]), Payload(fs[0]) + rest);
      PayloadRoundTrip(fs[0], rest);
      DecodeEncoded(fs[1..], Absorb(e, fs[0]));
    }
  }

  lemma EmptyInput()
    ensures Varint32([]) == None
  {
  }

  // ---- The round trip ----

  lemma {:induction false} AbsorbInTurn(e: Edit, a: seq<Field>, b: seq<Field>)
    ensures AbsorbAll(e, a + b) == AbsorbAll(AbsorbAll(e, a), b)
    decreases |a|
  {
    hide Absorb;
    if a == [] {
      assert a + b == b;
    } else {
      assert (a + b)[1..] == a[1..] + b;
      AbsorbInTurn(Absorb(e, a[0]), a[1..], b);
    }
  }

  lemma {:induction false} AbsorbPointers(e: Edit, ps: seq<Pointer>)
    ensures AbsorbAll(e, PointerFields(ps)) == e.(pointers := e.pointers + ps)
    decreases |ps|
  {
    if ps != [] {
      assert PointerFields(ps)[1..] == PointerFields(ps[1..]);
      AbsorbPointers(e.(pointers := e.pointers + [ps[0]]), ps[1..]);
      assert e.pointers + ps == e.pointers + [ps[0]] + ps[1..];
    } else {
      assert e.pointers + ps == e.pointers;
    }
  }

  lemma {:induction false} AbsorbAdditions(e: Edit, fs: seq<Addition>)
    ensures AbsorbAll(e, AdditionFields(fs)) == e.(added := e.added + fs)
    decreases |fs|
  {
    if fs != [] {
      assert AdditionFields(fs)[1..] == AdditionFields(fs[1..]);
      AbsorbAdditions(e.(added := e.added + [fs[0]]), fs[1..]);
      assert e.added + fs == e.added + [fs[0]] + fs[1..];
    } else {
      assert e.added + fs == e.added;
    }
  }

  lemma {:induction false} AbsorbDeletions(e: Edit, ds: seq<Deletion>)
    requires Ascending(e.deleted + ds)
    ensures AbsorbAll(e, DeletionFields(ds)) == e.(deleted := e.deleted + ds)
    decreases |ds|
  {
    if ds != [] {
      assert DeletionFields(ds)[1..] == DeletionFields(ds[1..]);
      assert e.deleted + ds == e.deleted + [ds[0]] + ds[1..];
      AscendingPrefix(e.deleted + [ds[0]], ds[1..]);
      InsertLast(e.deleted, ds[0]);
      AbsorbDeletions(e.(deleted := e.deleted + [ds[0]]), ds[1..]);
    } else {
      assert e.deleted + ds == e.deleted;
    }
  }

  lemma AscendingPrefix(a: seq<Deletion>, b: seq<Deletion>)
    requires Ascending(a + b)
    ensures Ascending(a)
  {
    assert forall i :: 0 <= i < |a| ==> (a + b)[i] == a[i];
  }

  lemma AbsorbNumbers(e: Edit)
    ensures AbsorbAll(EMPTY, NumberFields(e)) == e.(pointers := [], deleted := [], added := [])
  {
    hide AbsorbAll, Absorb, NameField, LogField, PrevLogField, NextFileField, SequenceField;
    var a, b, c := NameField(e.comparator), LogField(e.logNumber), PrevLogField(e.prevLogNumber);
    var d, f := NextFileField(e.nextFile), SequenceField(e.lastSequence);
    AbsorbInTurn(EMPTY, a + b + c + d, f);
    AbsorbInTurn(EMPTY, a + b + c, d);
    AbsorbInTurn(EMPTY, a + b, c);
    AbsorbInTurn(EMPTY, a, b);
    AbsorbName(EMPTY, e.comparator);
    AbsorbLog(EMPTY.(comparator := e.comparator), e.logNumber);
    AbsorbPrevLog(EMPTY.(comparator := e.comparator, logNumber := e.logNumber), e.prevLogNumber);
    AbsorbNextFile(e.(nextFile := None, lastSequence := None, pointers := [], deleted := [], added := []), e.nextFile);
    AbsorbSequence(e.(lastSequence := None, pointers := [], deleted := [], added := []), e.lastSequence);
  }

  // What is not set yet becomes what its field says, or stays unset.

  lemma AbsorbName(e: Edit, x: Option<bytes>)
    requires e.comparator.None?
    ensures AbsorbAll(e, NameField(x)) == e.(comparator := x)
  {
    AbsorbOne(e, NameField(x));
  }

  lemma AbsorbLog(e: Edit, x: Option<uint64>)
    requires e.logNumber.None?
    ensures AbsorbAll(e, LogField(x)) == e.(logNumber := x)
  {
    AbsorbOne(e, LogField(x));
  }

  lemma AbsorbPrevLog(e: Edit, x: Option<uint64>)
    requires e.prevLogNumber.None?
    ensures AbsorbAll(e, PrevLogField(x)) == e.(prevLogNumber := x)
  {
    AbsorbOne(e, PrevLogField(x));
  }

  lemma AbsorbNextFile(e: Edit, x: Option<uint64>)
    requires e.nextFile.None?
    ensures AbsorbAll(e, NextFileField(x)) == e.(nextFile := x)
  {
    AbsorbOne(e, NextFileField(x));
  }

  lemma AbsorbSequence(e: Edit, x: Option<uint64>)
    requires e.lastSequence.None?
    ensures AbsorbAll(e, SequenceField(x)) == e.(lastSequence := x)
  {
    AbsorbOne(e, SequenceField(x));
  }

  lemma AbsorbOne(e: Edit, fs: seq<Field>)
    requires |fs| <= 1
    ensures AbsorbAll(e, fs) == if fs == [] then e else Absorb(e, fs[0])
  {
    if fs != [] {
      assert fs[1..] == [];
    }
  }

  /** Absorbing the fields of an edit gives the edit. */
  lemma FieldsRestore(e: Edit)
    requires Ascending(e.deleted)
    ensures AbsorbAll(EMPTY, Fields(e)) == e
  {
    hide Absorb, AbsorbAll, NumberFields;
    var n, p, d, a := NumberFields(e), PointerFields(e.pointers), DeletionFields(e.deleted), AdditionFields(e.added);
    AbsorbNumbers(e);
    AbsorbInTurn(EMPTY, n + p + d, a);
    AbsorbInTurn(EMPTY, n + p, d);
    AbsorbInTurn(EMPTY, n, p);
    var e1 := e.(pointers := [], deleted := [], added := []);
    AbsorbPointers(e1, e.pointers);
    assert [] + e.pointers == e.pointers && [] + e.deleted == e.deleted && [] + e.added == e.added;
    var e2 := e1.(pointers := e.pointers);
    AbsorbDeletions(e2, e.deleted);
    AbsorbAdditions(e2.(deleted := e.deleted), e.added);
  }

  ghost predicate EditOk(e: Edit) {
    Ascending(e.deleted) && AllOk(Fields(e))
  }

  /** The same, list by list. */
  ghost predicate PartsOk(e: Edit) {
    && Ascending(e.deleted) && (e.comparator.Some? ==> |e.comparator.value| < TWO_32)
    && (forall i :: 0 <= i < |e.pointers| ==> e.pointers[i].level < NUM_LEVELS && |e.pointers[i].key| < TWO_32)
    && (forall i :: 0 <= i < |e.deleted| ==> e.deleted[i].level < NUM_LEVELS)
    && (forall i :: 0 <= i < |e.added| ==> e.added[i].level < NUM_LEVELS
                                           && |e.added[i].meta.smallest| < TWO_32 && |e.added[i].meta.largest| < TWO_32)
  }

  lemma PartsMakeEdit(e: Edit)
    ensures PartsOk(e) <==> EditOk(e)
  {
    var n, p, d, a := NumberFields(e), PointerFields(e.pointers), DeletionFields(e.deleted), AdditionFields(e.added);
    JoinOk(n + p + d, a);
    JoinOk(n + p, d);
    JoinOk(n, p);
    NumbersOk(e);
    ListsOk(e);
  }

  lemma ListsOk(e: Edit)
    ensures AllOk(PointerFields(e.pointers)) <==>
              forall i :: 0 <= i < |e.pointers| ==> e.pointers[i].level < NUM_LEVELS && |e.pointers[i].key| < TWO_32
    ensures AllOk(DeletionFields(e.deleted)) <==> forall i :: 0 <= i < |e.deleted| ==> e.deleted[i].level < NUM_LEVELS
    ensures AllOk(AdditionFields(e.added)) <==>
              forall i :: 0 <= i < |e.added| ==> FieldOk(NewFile(e.added[i]))
  {
    var p, d, a := PointerFields(e.pointers), DeletionFields(e.deleted), AdditionFields(e.added);
    assert forall i :: 0 <= i < |e.pointers| ==> p[i] == CompactPointer(e.pointers[i]);
    assert forall i :: 0 <= i < |e.deleted| ==> d[i] == DeletedFile(e.deleted[i]);
    assert forall i :: 0 <= i < |e.added| ==> a[i] == NewFile(e.added[i]);
    if AllOk(p) {
      assert forall i :: 0 <= i < |e.pointers| ==> FieldOk(p[i]);
    }
    if AllOk(d) {
      assert forall i :: 0 <= i < |e.deleted| ==> FieldOk(d[i]);
    }
    if AllOk(a) {
      assert forall i :: 0 <= i < |e.added| ==> FieldOk(a[i]);
    }
  }

  lemma NumbersOk(e: Edit)
    ensures AllOk(NumberFields(e)) <==> (e.comparator.Some? ==> |e.comparator.value| < TWO_32)
  {
    if e.comparator.Some? {
      assert NumberFields(e)[0] == Comparator(e.comparator.value);
    }
  }

  lemma JoinOk(a: seq<Field>, b: seq<Field>)
    ensures AllOk(a + b) <==> AllOk(a) && AllOk(b)
  {
    assert forall i :: 0 <= i < |a| ==> (a + b)[i] == a[i];
    assert forall i :: 0 <= i < |b| ==> (a + b)[|a| + i] == b[i];
  }

  ghost function Record(e: Edit): bytes
    requires EditOk(e)
  {
    Encoded(Fields(e))
  }

  /** An edit comes back from its record with every field as it was. */
  lemma RecordRoundTrip(e: Edit)
    requires EditOk(e)
    ensures Decode(Record(e), EMPTY) == Some(e)
  {
    hide Fields, Encoded, Decode;
    DecodeEncoded(Fields(e), EMPTY);
    FieldsRestore(e);
  }

  lemma {:induction false} EncodedMore(fs: seq<Field>, f: Field)
    requires AllOk(fs + [f])
    ensures AllOk(fs) && FieldOk(f) && Encoded(fs + [f]) == Encoded(fs) + FieldBytes(f)
    decreases |fs|
  {
    hide FieldBytes, FieldOk;
    assert (fs + [f])[|fs|] == f && forall i :: 0 <= i < |fs| ==> (fs + [f])[i] == fs[i];
    if fs == [] {
      assert [f][1..] == [];
    } else {
      assert (fs + [f])[1..] == fs[1..] + [f];
      EncodedMore(fs[1..], f);
    }
  }

  // ---- Writing and reading records ----

  method PutField(dst0: bytes, f: Field) returns (dst: bytes)
    requires FieldOk(f)
    ensures dst == dst0 + FieldBytes(f)
  {
    hide Varint;
    var tag := EncodeVarint32(Tag(f));
    match f
    case Comparator(name) =>
      dst := PutPrefixed(dst0 + tag, name);
    case CompactPointer(p) =>
      var level := EncodeVarint32(p.level);
      dst := PutPrefixed(dst0 + tag + level, p.key);
    case DeletedFile(d) =>
      var level := EncodeVarint32(d.level);
      var number := EncodeVarint64(d.number);
      dst := dst0 + tag + level + number;
    case NewFile(a) =>
      dst := PutAddition(dst0 + tag, a);
    case LogNumber(n) =>
      var number := EncodeVarint64(n);
      dst := dst0 + tag + number;
    case NextFile(n) =>
      var number := EncodeVarint64(n);
      dst := dst0 + tag + number;
    case LastSequence(n) =>
      var number := EncodeVarint64(n);
      dst := dst0 + tag + number;
    case PrevLogNumber(n) =>
      var number := EncodeVarint64(n);
      dst := dst0 + tag + number;
  }

  method PutAddition(dst0: bytes, a: Addition) returns (dst: bytes)
    requires FieldOk(NewFile(a))
    ensures dst == dst0 + Payload(NewFile(a))
  {
    hide Varint, Prefixed;
    var level := EncodeVarint32(a.level);
    var number := EncodeVarint64(a.meta.number);
    var size := EncodeVarint64(a.meta.size);
    dst := PutPrefixed(dst0 + level + number + size, a.meta.smallest);
    dst := PutPrefixed(dst, a.meta.largest);
    AssocPayload(dst0, level, number, size, Prefixed(a.meta.smallest), Prefixed(a.meta.largest));
  }

  lemma AssocPayload(a: bytes, b: bytes, c: bytes, d: bytes, e: bytes, f: bytes)
    ensures a + b + c + d + e + f == a + (b + (c + (d + (e + f))))
  {
  }

  /** Fields in a fixed order; a field that was never set is left out. */
  method EncodeTo(e: Edit) returns (dst: bytes)
    requires EditOk(e)
    ensures dst == Record(e)
  {
    hide FieldOk, Encoded, FieldBytes;
    ghost var fs := Fields(e);
    dst := [];
    var n := 0;
    assert fs[..0] == [] && Encoded([]) == [] by {
      EncodedNothing();
    }
    ghost var numbers := NumberFields(e);
    assert fs[..|numbers|] == numbers;
    dst := EncodeNumbers(e);
    n := |NumberFields(e)|;
    for i := 0 to |e.pointers|
      invariant n == |numbers| + i && n <= |fs| && AllOk(fs[..n]) && dst == Encoded(fs[..n])
    {
      dst := PutNext(fs, n, dst, CompactPointer(e.pointers[i]));
      n := n + 1;
    }
    for i := 0 to |e.deleted|
      invariant n == |numbers| + |e.pointers| + i && n <= |fs| && AllOk(fs[..n]) && dst == Encoded(fs[..n])
    {
      dst := PutNext(fs, n, dst, DeletedFile(e.deleted[i]));
      n := n + 1;
    }
    for i := 0 to |e.added|
      invariant n == |numbers| + |e.pointers| + |e.deleted| + i && n <= |fs| && AllOk(fs[..n]) && dst == Encoded(fs[..n])
    {
      dst := PutNext(fs, n, dst, NewFile(e.added[i]));
      n := n + 1;
    }
    assert fs[..|fs|] == fs;
  }

  lemma EncodedNothing()
    ensures AllOk([]) && Encoded([]) == []
  {
  }

  method PutNext(ghost fs: seq<Field>, ghost n: nat, dst0: bytes, f: Field) returns (dst: bytes)
    requires AllOk(fs) && n < |fs| && fs[n] == f && dst0 == Encoded(fs[..n])
    ensures AllOk(fs[..n + 1]) && dst == Encoded(fs[..n + 1])
  {
    hide FieldOk, Encoded, FieldBytes;
    assert fs[..n] + [f] == fs[..n + 1];
    EncodedMore(fs[..n], f);
    dst := PutField(dst0, f);
  }

  /** One field more, if it is set. */
  method PutPart(ghost done: seq<Field>, dst0: bytes, part: seq<Field>) returns (dst: bytes)
    requires |part| <= 1 && AllOk(done + part) && AllOk(done) && dst0 == Encoded(done)
    ensures dst == Encoded(done + part)
  {
    hide FieldOk, Encoded, FieldBytes;
    dst := dst0;
    if part == [] {
      assert done + part == done;
    } else {
      assert done + part == done + [part[0]];
      EncodedMore(done, part[0]);
      dst := PutField(dst0, part[0]);
    }
  }

  method EncodeNumbers(e: Edit) returns (dst: bytes)
    requires EditOk(e)
    ensures AllOk(NumberFields(e)) && dst == Encoded(NumberFields(e))
  {
    NumberFieldsOk(e);
    hide AllOk, Encoded, NameField, LogField, PrevLogField, NextFileField, SequenceField, EditOk;
    ghost var a, b, c := NameField(e.comparator), LogField(e.logNumber), PrevLogField(e.prevLogNumber);
    ghost var d, f := NextFileField(e.nextFile), SequenceField(e.lastSequence);
    JoinOk(a + b + c + d, f);
    JoinOk(a + b + c, d);
    JoinOk(a + b, c);
    JoinOk(a, b);
    EncodedNothing();
    assert [] + a == a;
    dst := PutPart([], [], NameField(e.comparator));
    dst := PutPart(a, dst, LogField(e.logNumber));
    dst := PutPart(a + b, dst, PrevLogField(e.prevLogNumber));
    dst := PutPart(a + b + c, dst, NextFileField(e.nextFile));
    dst := PutPart(a + b + c + d, dst, SequenceField(e.lastSequence));
  }

  lemma NumberFieldsOk(e: Edit)
    requires EditOk(e)
    ensures AllOk(NumberFields(e)) && |NameField(e.comparator)| <= 1 && |LogField(e.logNumber)| <= 1
    ensures |PrevLogField(e.prevLogNumber)| <= 1 && |NextFileField(e.nextFile)| <= 1 && |SequenceField(e.lastSequence)| <= 1
  {
    PartsMakeEdit(e);
    NumbersOk(e);
  }

  /** Decode into a fresh edit, field by field, whatever their order. */
  method DecodeFrom(src: bytes) returns (r: Option<Edit>)
    ensures r == Decode(src, EMPTY)
    ensures forall e :: EditOk(e) && src == Record(e) ==> r == Some(e)
  {
    hide Varint32, GetPayload, Absorb, EditOk, Record;
    forall e | EditOk(e) && src == Record(e)
      ensures Decode(src, EMPTY) == Some(e)
    {
      RecordRoundTrip(e);
    }
    var input, e := src, EMPTY;
    while true
      invariant Decode(src, EMPTY) == Decode(input, e)
      decreases |input|
    {
      var head := GetVarint32(input);
      if head.None? {
        return if input == [] then Some(e) else None;
      }
      var (tag, rest) := head.value;
      var read := GetPayload(tag, rest);
      if read.None? {
        return None;
      }
      input, e := read.value.rest, Absorb(e, read.value.field);
    }
  }
}
