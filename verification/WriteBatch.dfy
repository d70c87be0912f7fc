/**
 Write batches: a header with the first sequence number and a count, then the updates
 (db/write_batch.cc).
 */
module WriteBatch {
  import opened Coding

  const HEADER: nat := 12
  const TYPE_DELETION: byte := 0
  const TYPE_VALUE: byte := 1

  datatype Op = Put(key: bytes, value: bytes) | Delete(key: bytes)

  predicate OpFits(op: Op) {
    |op.key| < TWO_32 && (op.Put? ==> |op.value| < TWO_32)
  }

  ghost predicate AllFit(ops: seq<Op>) {
    forall i :: 0 <= i < |ops| ==> OpFits(ops[i])
  }

  function OpBytes(op: Op): bytes
    requires OpFits(op)
  {
    match op
    case Put(key, value) => [TYPE_VALUE] + (Prefixed(key) + Prefixed(value))
    case Delete(key) => [TYPE_DELETION] + Prefixed(key)
  }

  ghost function Body(ops: seq<Op>): bytes
    requires AllFit(ops)
  {
    if ops == [] then [] else OpBytes(ops[0]) + Body(ops[1..])
  }

  lemma {:induction false} BodyJoin(a: seq<Op>, b: seq<Op>)
    requires AllFit(a) && AllFit(b)
    ensures AllFit(a + b) && Body(a + b) == Body(a) + Body(b)
    decreases |a|
  {
    hide OpBytes, OpFits, Body;
    AllFitJoin(a, b);
    if a == [] {
      assert a + b == b;
      BodyStep([]);
    } else {
      assert (a + b)[1..] == a[1..] + b;
      BodyStep(a + b);
      BodyStep(a);
      BodyJoin(a[1..], b);
      hide AllFit;
      Assoc(OpBytes(a[0]), Body(a[1..]), Body(b));
    }
  }

  lemma AllFitJoin(a: seq<Op>, b: seq<Op>)
    requires AllFit(a) && AllFit(b)
    ensures AllFit(a + b)
  {
    hide OpFits;
  }

  lemma BodyStep(ops: seq<Op>)
    requires AllFit(ops)
    ensures ops == [] ==> Body(ops) == []
    ensures ops != [] ==> OpFits(ops[0]) && AllFit(ops[1..]) && Body(ops) == OpBytes(ops[0]) + Body(ops[1..])
  {
    hide OpFits;
  }

  datatype OpRead = OpRead(op: Op, rest: bytes)

  /** The update at the head of some bytes; nothing for an unknown tag or a short one. */
  function GetOp(input: bytes): (r: Option<OpRead>)
    ensures r.Some? ==> |r.value.rest| < |input|
  {
    if input == [] then None
    else if input[0] == TYPE_VALUE then
      match Slice32(input[1..])
      case None => None
      case Some((key, r)) =>
        match Slice32(r)
        case None => None
        case Some((value, rest)) => Some(OpRead(Put(key, value), rest))
    else if input[0] == TYPE_DELETION then
      match Slice32(input[1..])
      case None => None
      case Some((key, rest)) => Some(OpRead(Delete(key), rest))
    else None
  }

  lemma OpRoundTrip(op: Op, rest: bytes)
    requires OpFits(op)
    ensures OpBytes(op) != [] && GetOp(OpBytes(op) + rest) == Some(OpRead(op, rest))
  {
    match op
    case Put(key, value) => PutRoundTrip(key, value, rest);
    case Delete(key) => DeleteRoundTrip(key, rest);
  }

  lemma PutRoundTrip(key: bytes, value: bytes, rest: bytes)
    requires OpFits(Put(key, value))
    ensures OpBytes(Put(key, value)) != [] && GetOp(OpBytes(Put(key, value)) + rest) == Some(OpRead(Put(key, value), rest))
  {
    hide Prefixed, Slice32;
    TagOff(TYPE_VALUE, Prefixed(key) + Prefixed(value), rest);
    Assoc(Prefixed(key), Prefixed(value), rest);
    SliceRoundTrip(key, Prefixed(value) + rest);
    SliceRoundTrip(value, rest);
  }

  lemma DeleteRoundTrip(key: bytes, rest: bytes)
    requires OpFits(Delete(key))
    ensures OpBytes(Delete(key)) != [] && GetOp(OpBytes(Delete(key)) + rest) == Some(OpRead(Delete(key), rest))
  {
    hide Prefixed, Slice32;
    TagOff(TYPE_DELETION, Prefixed(key), rest);
    SliceRoundTrip(key, rest);
  }

  lemma TagOff(tag: byte, a: bytes, b: bytes)
    ensures ([tag] + a + b)[0] == tag && ([tag] + a + b)[1..] == a + b
  {
  }

  /** All updates of a body, as far as they can be read. */
  function ReadOps(input: bytes): (seq<Op>, bool)
    decreases |input|
  {
    if input == [] then ([], true)
    else
      match GetOp(input)
      case None => ([], false)
      case Some(read) =>
        var (ops, ok) := ReadOps(read.rest);
        ([read.op] + ops, ok)
  }

  lemma {:induction false} BodyRoundTrip(ops: seq<Op>)
    requires AllFit(ops)
    ensures ReadOps(Body(ops)) == (ops, true)
    decreases |ops|
  {
    hide GetOp, OpBytes, OpFits;
    if ops != [] {
      OpRoundTrip(ops[0], Body(ops[1..]));
      BodyRoundTrip(ops[1..]);
      assert [ops[0]] + ops[1..] == ops;
    }
  }

  /** An update with the sequence number it is applied at. */
  datatype Numbered = Numbered(seqno: nat, op: Op)

  function Number(ops: seq<Op>, first: nat): (r: seq<Numbered>)
    ensures |r| == |ops| && forall i :: 0 <= i < |ops| ==> r[i] == Numbered(first + i, ops[i])
  {
    seq(|ops|, i requires 0 <= i < |ops| => Numbered(first + i, ops[i]))
  }

  class WriteBatch {
    var rep: bytes
    ghost var ops: seq<Op>
    ghost var sequence: nat

    ghost predicate Valid()
      reads this
    {
      && AllFit(ops) && |ops| < TWO_32 && sequence < TWO_64
      && rep == Fixed(sequence, 8) + Fixed(|ops|, 4) + Body(ops)
    }

    constructor ()
      ensures Valid() && ops == [] && sequence == 0
    {
      rep, ops, sequence := Fixed(0, 8) + Fixed(0, 4), [], 0;
    }

    method Clear()
      modifies this
      ensures Valid() && ops == [] && sequence == 0
    {
      rep, ops, sequence := Fixed(0, 8) + Fixed(0, 4), [], 0;
    }

    method Count() returns (n: nat)
      requires Valid()
      ensures n == |ops|
    {
      HeaderParts(sequence, |ops|, Body(ops));
      n := DecodeFixed(rep[8..12]);
    }

    method SetCount(n: nat)
      requires |rep| >= HEADER
      modifies this`rep
      ensures rep == old(rep)[..8] + Fixed(n, 4) + old(rep)[HEADER..]
    {
      rep := rep[..8] + Fixed(n, 4) + rep[HEADER..];
    }

    method Sequence() returns (n: nat)
      requires Valid()
      ensures n == sequence
    {
      HeaderParts(sequence, |ops|, Body(ops));
      n := DecodeFixed(rep[..8]);
    }

    method SetSequence(n: uint64)
      requires Valid()
      modifies this
      ensures Valid() && sequence == n && ops == old(ops)
    {
      HeaderParts(sequence, |ops|, Body(ops));
      rep := Fixed(n, 8) + rep[8..];
      sequence := n;
    }

    method Put(key: bytes, value: bytes)
      requires Valid() && |key| < TWO_32 && |value| < TWO_32 && |ops| + 1 < TWO_32
      modifies this
      ensures Valid() && ops == old(ops) + [Op.Put(key, value)] && sequence == old(sequence)
    {
      hide Fixed, Body, Prefixed;
      HeaderParts(sequence, |ops|, Body(ops));
      OneMore(ops, Op.Put(key, value));
      Joined(Fixed(sequence, 8) + Fixed(|ops| + 1, 4), Body(ops), [TYPE_VALUE], Prefixed(key), Prefixed(value));
      var n := Count();
      SetCount(n + 1);
      rep := rep + [TYPE_VALUE];
      rep := PutPrefixed(rep, key);
      rep := PutPrefixed(rep, value);
      ops := ops + [Op.Put(key, value)];
    }

    method Delete(key: bytes)
      requires Valid() && |key| < TWO_32 && |ops| + 1 < TWO_32
      modifies this
      ensures Valid() && ops == old(ops) + [Op.Delete(key)] && sequence == old(sequence)
    {
      hide Fixed, Body, Prefixed;
      HeaderParts(sequence, |ops|, Body(ops));
      OneMore(ops, Op.Delete(key));
      Joined(Fixed(sequence, 8) + Fixed(|ops| + 1, 4), Body(ops), [TYPE_DELETION], Prefixed(key), []);
      var n := Count();
      SetCount(n + 1);
      rep := rep + [TYPE_DELETION];
      rep := PutPrefixed(rep, key);
      ops := ops + [Op.Delete(key)];
    }

    /** Add the updates of another batch behind this one's. */
    method Append(src: WriteBatch)
      requires Valid() && src.Valid() && src != this && |ops| + |src.ops| < TWO_32
      modifies this
      ensures Valid() && ops == old(ops) + src.ops && sequence == old(sequence)
    {
      hide Fixed, Body, OpFits;
      Joined(Fixed(sequence, 8) + Fixed(|ops| + |src.ops|, 4), Body(ops), Body(src.ops), [], []);
      HeaderParts(sequence, |ops|, Body(ops));
      HeaderParts(src.sequence, |src.ops|, Body(src.ops));
      BodyJoin(ops, src.ops);
      var n := Count();
      var m := src.Count();
      SetCount(n + m);
      rep := rep + src.rep[HEADER..];
      ops := ops + src.ops;
    }
  }

  lemma Joined(head: bytes, body: bytes, a: bytes, b: bytes, c: bytes)
    ensures head + body + a + b + c == head + (body + (a + (b + c)))
    ensures c == [] ==> head + body + a + b == head + (body + (a + b))
    ensures b == c == [] ==> head + body + a == head + (body + a)
  {
    if c == [] {
      assert b + c == b && head + body + a + b + c == head + body + a + b;
      if b == [] {
        assert a + b == a && head + body + a + b == head + body + a;
      }
    }
  }

  lemma HeaderParts(sequence: nat, count: nat, body: bytes)
    ensures
      var rep := Fixed(sequence, 8) + Fixed(count, 4) + body;
      && |rep| >= HEADER && rep[..8] == Fixed(sequence, 8) && rep[8..12] == Fixed(count, 4)
      && rep[8..] == Fixed(count, 4) + body && rep[HEADER..] == body
      && (sequence < TWO_64 ==> DecodeFixed(rep[..8]) == sequence)
      && (count < TWO_32 ==> DecodeFixed(rep[8..12]) == count)
  {
    hide Fixed, DecodeFixed;
    if sequence < TWO_64 {
      Fixed64RoundTrip(sequence);
    }
    if count < TWO_32 {
      Fixed32RoundTrip(count);
    }
  }

  lemma OneMore(ops: seq<Op>, op: Op)
    requires AllFit(ops) && OpFits(op)
    ensures AllFit(ops + [op]) && Body(ops + [op]) == Body(ops) + OpBytes(op)
  {
    hide OpBytes, OpFits;
    assert Body([op]) == OpBytes(op) by {
      assert [op][1..] == [];
    }
    BodyJoin(ops, [op]);
  }

  datatype Status = Ok | TooSmall | BadPut | BadDelete | UnknownTag | WrongCount

  /** Hand every update to the memtable, numbered on from the batch's sequence. */
  method InsertInto(rep: bytes, mem0: seq<Numbered>) returns (status: Status, mem: seq<Numbered>)
    ensures |rep| < HEADER ==> status == TooSmall && mem == mem0
    ensures |rep| >= HEADER ==>
              var (ops, whole) := ReadOps(rep[HEADER..]);
              && mem == mem0 + Number(ops, DecodeFixed(rep[..8]))
              && (status == Ok <==> whole && |ops| == DecodeFixed(rep[8..12]))
  {
    mem := mem0;
    if |rep| < HEADER {
      return TooSmall, mem;
    }
    hide ReadOps, Number, DecodeFixed;
    var found;
    status, found, mem := InsertBody(rep[HEADER..], DecodeFixed(rep[..8]), mem0);
    if status == Ok && found != DecodeFixed(rep[8..12]) {
      status := WrongCount;
    }
  }

  /** Apply the updates one by one, until the end or one that cannot be read. */
  method InsertBody(body: bytes, first: nat, mem0: seq<Numbered>) returns (status: Status, found: nat, mem: seq<Numbered>)
    ensures
      var (ops, whole) := ReadOps(body);
      mem == mem0 + Number(ops, first) && (status == Ok <==> whole) && (whole ==> found == |ops|)
  {
    hide GetOp, ReadOps, Number, ReadFrom;
    mem, found := mem0, 0;
    var input, sequence := body, first;
    ghost var done: seq<Op> := [];
    NumberNone(mem0, first);
    ReadStart(body);
    while input != []
      invariant found == |done| && sequence == first + |done| && mem == mem0 + Number(done, first)
      invariant ReadFrom(body, done, input)
      decreases |input|
    {
      var read := GetOp(input);
      found := found + 1;
      ReadStep(body, done, input);
      if read.None? {
        status := if input[0] == TYPE_VALUE then BadPut else if input[0] == TYPE_DELETION then BadDelete else UnknownTag;
        return;
      }
      NumberMore(mem0, done, read.value.op, first);
      mem := mem + [Numbered(sequence, read.value.op)];
      sequence := sequence + 1;
      done := done + [read.value.op];
      input := read.value.rest;
    }
    ReadStep(body, done, input);
    status := Ok;
  }

  /** `done` was read before `input`. */
  ghost predicate ReadFrom(body: bytes, done: seq<Op>, input: bytes) {
    ReadOps(body) == (done + ReadOps(input).0, ReadOps(input).1)
  }

  lemma ReadStep(body: bytes, done: seq<Op>, input: bytes)
    requires ReadFrom(body, done, input)
    ensures input == [] ==> ReadOps(body) == (done, true)
    ensures
      input != [] ==>
        match GetOp(input)
        case None => ReadOps(body) == (done, false)
        case Some(read) => ReadFrom(body, done + [read.op], read.rest)
  {
    hide GetOp;
    assert done + [] == done;
    if input != [] && GetOp(input).Some? {
      var read := GetOp(input).value;
      assert done + ([read.op] + ReadOps(read.rest).0) == done + [read.op] + ReadOps(read.rest).0;
    }
  }

  lemma ReadStart(body: bytes)
    ensures ReadFrom(body, [], body)
  {
    assert [] + ReadOps(body).0 == ReadOps(body).0;
  }

  lemma NumberNone(mem: seq<Numbered>, first: nat)
    ensures mem + Number([], first) == mem
  {
  }

  lemma NumberMore(mem: seq<Numbered>, ops: seq<Op>, op: Op, first: nat)
    ensures mem + Number(ops + [op], first) == mem + Number(ops, first) + [Numbered(first + |ops|, op)]
  {
  }

  /** A batch applies exactly its updates, under consecutive sequence numbers. */
  method Apply(b: WriteBatch, mem0: seq<Numbered>) returns (status: Status, mem: seq<Numbered>)
    requires b.Valid()
    ensures status == Ok && mem == mem0 + Number(b.ops, b.sequence)
  {
    HeaderParts(b.sequence, |b.ops|, Body(b.ops));
    BodyRoundTrip(b.ops);
    status, mem := InsertInto(b.rep, mem0);
  }
}
