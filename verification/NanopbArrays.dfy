/**
 What decoding leaves in arrays: the items of all their records one after the other, and in an
 array without a counter the last full set of them (nanopb pb_decode.c).
 */
module NanopbArrays {
  import opened Coding
  import opened Nanopb
  import opened NanopbDecode
  import opened NanopbRecords
  import opened NanopbRoundTrip

  // ---- The items on the wire ----

  /** The numbers of a packed stretch. */
  function PackedValues(f: Field, input: bytes): (r: seq<Value>)
    requires FieldOk(f) && Packable(f.kind)
    ensures AllFit(f, r)
    decreases |input|
  {
    if input == [] then []
    else
      match ReadValue(f, input, f.initial)
      case Bad => []
      case Parsed(v, rest) => [v] + PackedValues(f, rest)
  }

  /** The items of one record. */
  function RecordValues(f: Field, wt: nat, input: bytes): (r: seq<Value>)
    requires FieldOk(f)
    ensures AllFit(f, r)
  {
    if wt == WT_STRING && Packable(f.kind) then
      match TakeCounted(input)
      case Bad => []
      case Parsed(body, _) => PackedValues(f, body)
    else
      InitialValueFits(f);
      match ReadValue(f, input, InitialValue(f))
      case Bad => []
      case Parsed(v, _) => [v]
  }

  /** The items of all records of field `i`. */
  function ValuesFor(fields: seq<Field>, i: nat, input: bytes): (r: seq<Value>)
    requires i < |fields| && DescriptorOk(fields)
    ensures AllFit(fields[i], r)
    decreases |input|
  {
    var read := DecodeTag(input);
    if !read.TagRead? then []
    else
      var here := if FieldWith(fields, read.tag, 0) == i then RecordValues(fields[i], read.wt, read.rest) else [];
      var after := AfterRecord(fields, read.tag, read.wt, read.rest);
      here + if after.Some? then ValuesFor(fields, i, after.value) else []
  }

  // ---- One record ----

  /** The array with the items put in; they must find room. */
  ghost predicate Fills(f: Field, a: Filled, vs: seq<Value>, b: Filled) {
    && FilledOk(f, a) && AllFit(f, vs)
    && if vs == [] then b == a else a.size + |vs| <= f.arraySize && b == PutAll(f, a, vs)
  }

  lemma FillsMore(f: Field, a: Filled, v: Value, vs: seq<Value>, b: Filled)
    requires FilledOk(f, a) && a.size < f.arraySize && ValueFits(f, v) && Fills(f, PutItem(f, a, v), vs, b)
    ensures Fills(f, a, [v] + vs, b)
  {
    hide ValueFits, PutAll, PutItem, FilledOk, AllFit;
    OneInFront(f, a, v, vs);
    PutAllStep(f, a, [v] + vs);
  }

  lemma OneInFront(f: Field, a: Filled, v: Value, vs: seq<Value>)
    requires FilledOk(f, a) && a.size < f.arraySize && ValueFits(f, v) && AllFit(f, vs)
    ensures AllFit(f, [v] + vs) && ([v] + vs)[1..] == vs && PutItem(f, a, v).size == a.size + 1
    ensures vs == [] ==> PutAll(f, a, [v] + vs) == PutItem(f, a, v)
  {
    hide ValueFits;
  }

  lemma {:induction false} PackedFills(f: Field, input: bytes, a: Filled)
    requires FieldOk(f) && FilledOk(f, a) && Packable(f.kind)
    ensures
      var r := ReadPacked(f, input, a);
      r.Some? ==> Fills(f, a, PackedValues(f, input), r.value)
    decreases |input|
  {
    hide ReadValue, ValueFits, PutItem, PutAll, FilledOk;
    if input != [] && a.size < f.arraySize {
      InitialOwn(f);
      var v := ReadValue(f, input, f.initial);
      if v.Parsed? {
        PackedFills(f, v.rest, PutItem(f, a, v.value));
        hide Fills;
        if ReadPacked(f, input, a).Some? {
          FillsMore(f, a, v.value, PackedValues(f, v.rest), ReadPacked(f, input, a).value);
        }
      }
    }
  }

  lemma InitialOwn(f: Field)
    requires FieldOk(f) && Packable(f.kind)
    ensures ValueFits(f, f.initial)
  {
  }

  lemma ItemsFill(f: Field, wt: nat, input: bytes, a: Filled)
    requires FieldOk(f) && FilledOk(f, a)
    ensures
      var r := ReadItems(f, wt, input, a);
      r.Parsed? ==> Fills(f, a, RecordValues(f, wt, input), r.value)
  {
    hide ReadValue, ValueFits, PutItem, PutAll, FilledOk, ReadPacked, TakeCounted, PackedValues, FieldOk;
    if wt == WT_STRING && Packable(f.kind) {
      var t := TakeCounted(input);
      if t.Parsed? {
        PackedFills(f, t.value, a);
      }
    } else if a.size < f.arraySize {
      InitialValueFits(f);
      var v := ReadValue(f, input, InitialValue(f));
      if v.Parsed? {
        NoneLeft(f, PutItem(f, a, v.value));
        FillsMore(f, a, v.value, [], PutItem(f, a, v.value));
        assert [v.value] + [] == [v.value];
      }
    }
  }

  lemma NoneLeft(f: Field, a: Filled)
    requires FilledOk(f, a)
    ensures Fills(f, a, [], a)
  {
  }

  // ---- One turn of the loop ----

  /** How many items of field `i` have come since its array, if it has no counter, was last begun. */
  function Progress(fields: seq<Field>, i: nat, st: State): nat {
    if st.fixedField == i then st.fixedSize else 0
  }

  /** What a turn does to an array: items are added at the end, or written over the next places. */
  ghost predicate Turned(f: Field, was: Slot, p: nat, vs: seq<Value>, now: Slot, p': nat)
    requires f.rule.Repeated?
  {
    && was.Many? && now.Many?
    && if f.rule.counted then now.items == was.items + vs
       else if vs == [] then now == was && (p' == p || (p == f.arraySize && p' == 0))
       else p + |vs| <= f.arraySize == |was.items| && p' == p + |vs|
            && now.items == was.items[..p] + vs + was.items[p + |vs|..]
  }

  lemma FillsIs(f: Field, a: Filled, vs: seq<Value>, b: Filled)
    requires Fills(f, a, vs, b)
    ensures Turned(f, Many(a.items), a.size, vs, Many(b.items), b.size)
    ensures f.rule.counted ==> b.size == |b.items|
  {
    hide ValueFits, PutAll, AllFit;
    if vs == [] {
      assert a.items + vs == a.items;
    } else if f.rule.counted {
      PutAllCounted(f, a, vs);
    } else {
      PutAllFixed(f, a, vs);
    }
  }

  lemma FieldFills(fields: seq<Field>, i: nat, wt: nat, input: bytes, st: State)
    requires i < |fields| && DescriptorOk(fields) && StateOk(fields, st) && fields[i].rule.Repeated?
    requires !fields[i].rule.counted ==> st.fixedField == i
    ensures SlotOf(fields, i) < |st.slots|
    ensures
      var r, j := ReadField(fields, i, wt, input, st), SlotOf(fields, i);
      r.Parsed? ==>
        && |r.value.slots| == |st.slots| && r.value.fixedField == st.fixedField
        && Turned(fields[i], st.slots[j], Progress(fields, i, st), RecordValues(fields[i], wt, input), r.value.slots[j],
                  Progress(fields, i, r.value))
  {
    var f, j := fields[i], SlotOf(fields, i);
    assert FieldOk(f) && SlotAt(fields, st.slots, i);
    var a := FillOf(f, st.slots[j], st.fixedSize);
    ItemsFill(f, wt, input, a);
    hide ReadItems, RecordValues, ValueFits, MessageFits, DescriptorOk, FieldOk, Fills, Turned;
    var r := ReadItems(f, wt, input, a);
    if r.Parsed? {
      FillsIs(f, a, RecordValues(f, wt, input), r.value);
      SameTurn(f, a, RecordValues(f, wt, input), r.value, Progress(fields, i, st));
    }
  }

  lemma SameTurn(f: Field, a: Filled, vs: seq<Value>, b: Filled, p: nat)
    requires f.rule.Repeated? && Turned(f, Many(a.items), a.size, vs, Many(b.items), b.size)
    ensures f.rule.counted ==> forall p' :: Turned(f, Many(a.items), p, vs, Many(b.items), p')
  {
  }

  /** Reading another field leaves the array alone, but may end it. */
  lemma OtherTurned(fields: seq<Field>, i: nat, k: nat, wt: nat, input: bytes, st: State, noted: State)
    requires i < |fields| && k < |fields| && i != k && DescriptorOk(fields) && StateOk(fields, st) && fields[i].rule.Repeated?
    requires Note(fields, k, st) == Some(noted)
    ensures SlotOf(fields, i) < |st.slots|
    ensures
      var r, j := ReadField(fields, k, wt, input, noted), SlotOf(fields, i);
      r.Parsed? ==>
        && |r.value.slots| == |st.slots|
        && Turned(fields[i], st.slots[j], Progress(fields, i, st), [], r.value.slots[j], Progress(fields, i, r.value))
  {
    var j := SlotOf(fields, i);
    ArrayAt(fields, st.slots, i);
    OwnSlot(fields, i, k);
    hide ReadField, ValueFits, MessageFits, DescriptorOk, SlotOf;
    FieldWrites(fields, k, wt, input, noted, j);
    FieldCounts(fields, k, wt, input, noted);
    assert st.slots[j].items + [] == st.slots[j].items;
  }

  lemma ArrayAt(fields: seq<Field>, slots: seq<Slot>, i: nat)
    requires i < |fields| && MessageFits(fields, slots) && fields[i].rule.Repeated?
    ensures SlotOf(fields, i) < |slots| && slots[SlotOf(fields, i)].Many?
    ensures !fields[i].rule.counted ==> |slots[SlotOf(fields, i)].items| == fields[i].arraySize
  {
    assert SlotAt(fields, slots, i);
    assert SlotFits(fields[i], slots[SlotOf(fields, i)]);
  }

  /** An array shares its slot with no other field. */
  lemma OwnSlot(fields: seq<Field>, i: nat, k: nat)
    requires i < |fields| && k < |fields| && i != k && fields[i].rule.Repeated?
    ensures SlotOf(fields, i) != SlotOf(fields, k)
  {
    if i < k {
      SlotsAscend(fields, i, k);
    } else {
      SlotsAscend(fields, k, i);
    }
  }

  /** Only an array without a counter counts its items in the state. */
  lemma FieldCounts(fields: seq<Field>, k: nat, wt: nat, input: bytes, st: State)
    requires k < |fields| && DescriptorOk(fields) && StateOk(fields, st)
    ensures
      var r := ReadField(fields, k, wt, input, st);
      r.Parsed? ==> r.value.fixedField == st.fixedField && (fields[k].rule != Repeated(false) ==> r.value.fixedSize == st.fixedSize)
  {
    assert FieldOk(fields[k]) && SlotAt(fields, st.slots, k);
    hide ReadItems, ReadValue, ValueFits, MessageFits, FieldOk;
  }

  lemma TurnTurns(fields: seq<Field>, i: nat, tag: nat, wt: nat, input: bytes, st: State)
    requires i < |fields| && DescriptorOk(fields) && StateOk(fields, st) && fields[i].rule.Repeated?
    ensures SlotOf(fields, i) < |st.slots|
    ensures
      var r, j := AfterTag(fields, tag, wt, input, st), SlotOf(fields, i);
      var vs := if FieldWith(fields, tag, 0) == i then RecordValues(fields[i], wt, input) else [];
      r.Parsed? ==>
        && |r.value.slots| == |st.slots|
        && Turned(fields[i], st.slots[j], Progress(fields, i, st), vs, r.value.slots[j], Progress(fields, i, r.value))
  {
    ArrayAt(fields, st.slots, i);
    hide ReadField, SkipField, SkipBool, RecordValues, MessageFits, ValueFits, DescriptorOk, Turned;
    var k := FieldWith(fields, tag, 0);
    if k == |fields| {
      UnknownTurn(fields, i, st);
    } else if Note(fields, k, st).Some? {
      var noted := Note(fields, k, st).value;
      if k == i {
        FieldFills(fields, i, wt, input, noted);
      } else {
        OtherTurned(fields, i, k, wt, input, st, noted);
      }
    }
  }

  lemma UnknownTurn(fields: seq<Field>, i: nat, st: State)
    requires i < |fields| && StateOk(fields, st) && fields[i].rule.Repeated?
    ensures SlotOf(fields, i) < |st.slots|
    ensures
      var s, p := st.slots[SlotOf(fields, i)], Progress(fields, i, st);
      Turned(fields[i], s, p, [], s, p)
  {
    ArrayAt(fields, st.slots, i);
    var s := st.slots[SlotOf(fields, i)];
    assert s.items + [] == s.items;
  }

  // ---- Whole messages ----

  /** A whole number of sets of `n`, and `left` more. */
  ghost predicate Rounds(total: nat, n: nat, left: nat) {
    exists k: nat :: total == k * n + left
  }

  lemma RoundsMore(total: nat, n: nat, left: nat, more: nat)
    requires Rounds(total, n, left)
    ensures Rounds(total + more, n, left + more) && left <= total
    ensures left == n ==> Rounds(total, n, 0)
  {
    var k: nat :| total == k * n + left;
    assert total + more == k * n + (left + more);
    assert left == n ==> total == (k + 1) * n + 0;
    assert k * n >= 0;
  }

  /** What an array of `n` items holds after the items `all`, the last `p` of them since it was begun. */
  ghost function Held(before: seq<Value>, all: seq<Value>, n: nat, p: nat): seq<Value>
    requires |before| == n && p <= n && p <= |all|
  {
    if |all| >= n then all[|all| - p..] + all[|all| - n..|all| - p] else all + before[|all|..]
  }

  /** An array without a counter on the way: `all` have come, and it holds the last of them. */
  ghost predicate Filling(n: nat, before: seq<Value>, all: seq<Value>, p: nat, now: Slot) {
    && |before| == n && p <= n && p <= |all| && Rounds(|all|, n, p)
    && (|all| < n ==> p == |all|)
    && now == Many(Held(before, all, n, p))
  }

  lemma FillingStarts(f: Field, before: seq<Value>)
    requires f.rule == Repeated(false) && |before| == f.arraySize
    ensures Filling(f.arraySize, before, [], 0, Many(before))
  {
    assert 0 == 0 * f.arraySize + 0;
    assert [] + before[0..] == before;
  }

  lemma FillingTurns(f: Field, before: seq<Value>, all: seq<Value>, p: nat, was: Slot, vs: seq<Value>, now: Slot, p': nat)
    requires f.rule == Repeated(false) && Filling(f.arraySize, before, all, p, was) && Turned(f, was, p, vs, now, p')
    ensures Filling(f.arraySize, before, all + vs, p', now)
  {
    var n := f.arraySize;
    RoundsMore(|all|, n, p, |vs|);
    if vs == [] {
      assert all + vs == all;
      if p' != p {
        assert Held(before, all, n, 0) == Held(before, all, n, n);
      }
    } else {
      HeldMore(before, all, n, p, vs);
    }
  }

  lemma HeldMore(before: seq<Value>, all: seq<Value>, n: nat, p: nat, vs: seq<Value>)
    requires |before| == n && p + |vs| <= n && p <= |all| && (|all| < n ==> p == |all|)
    ensures
      var h := Held(before, all, n, p);
      |h| == n && Held(before, all + vs, n, p + |vs|) == h[..p] + vs + h[p + |vs|..]
  {
    if |all| >= n {
      FullMore(all, n, p, vs);
    } else {
      PartMore(before, all, n, vs);
    }
  }

  lemma FullMore(all: seq<Value>, n: nat, p: nat, vs: seq<Value>)
    requires p + |vs| <= n <= |all|
    ensures
      var h, more := all[|all| - p..] + all[|all| - n..|all| - p], all + vs;
      h[..p] + vs + h[p + |vs|..] == more[|more| - (p + |vs|)..] + more[|more| - n..|more| - (p + |vs|)]
  {
    var h, more := all[|all| - p..] + all[|all| - n..|all| - p], all + vs;
    assert more[|more| - (p + |vs|)..] == all[|all| - p..] + vs;
    assert more[|more| - n..|more| - (p + |vs|)] == all[|all| - n + |vs|..|all| - p];
    assert h[..p] == all[|all| - p..] && h[p + |vs|..] == all[|all| - n + |vs|..|all| - p];
  }

  lemma PartMore(before: seq<Value>, all: seq<Value>, n: nat, vs: seq<Value>)
    requires |before| == n && |all| + |vs| <= n
    ensures
      var h, more := all + before[|all|..], all + vs;
      && |h| == n && h[..|all|] + vs + h[|all| + |vs|..] == more + before[|more|..]
      && (|more| >= n ==> more[0..] + more[0..0] == more + before[|more|..])
  {
    var h := all + before[|all|..];
    assert h[..|all|] == all && h[|all| + |vs|..] == before[|all| + |vs|..];
  }

  lemma CountedTurns(f: Field, was: Slot, p: nat, vs: seq<Value>, now: Slot, p': nat)
    requires f.rule == Repeated(true) && Turned(f, was, p, vs, now, p')
    ensures was.Many? && now == Many(was.items + vs)
  {
  }

  /** With a counter the array grows by all items that come. */
  lemma {:induction false} LoopCounts(fields: seq<Field>, i: nat, input: bytes, st: State)
    requires i < |fields| && DescriptorOk(fields) && StateOk(fields, st) && fields[i].rule == Repeated(true)
    ensures SlotOf(fields, i) < |st.slots|
    ensures
      var r, j := DecodeLoop(fields, input, st), SlotOf(fields, i);
      r.Parsed? ==>
        && |r.value.slots| == |st.slots| && st.slots[j].Many?
        && r.value.slots[j] == Many(st.slots[j].items + ValuesFor(fields, i, input))
    decreases |input|
  {
    assert FieldOk(fields[i]);
    hide DecodeLoop, AfterTag, AfterRecord, StateOk, DescriptorOk, RecordValues, SlotOf, Turned, Progress, FieldOk;
    SlotsMany(fields, i, st);
    var j := SlotOf(fields, i);
    if input == [] {
      DecodeNothing(fields, st);
      assert st.slots[j].items + [] == st.slots[j].items;
    } else {
      LoopIs(fields, input, st);
      var read := DecodeTag(input);
      if read.TagRead? {
        var next := AfterTag(fields, read.tag, read.wt, read.rest, st);
        TurnTurns(fields, i, read.tag, read.wt, read.rest, st);
        TurnWrites(fields, read.tag, read.wt, read.rest, st, j);
        if next.Parsed? {
          LoopCounts(fields, i, next.rest, next.value);
          var here := if FieldWith(fields, read.tag, 0) == i then RecordValues(fields[i], read.wt, read.rest) else [];
          CountedTurns(fields[i], st.slots[j], Progress(fields, i, st), here, next.value.slots[j],
                       Progress(fields, i, next.value));
          Assoc(st.slots[j].items, here, ValuesFor(fields, i, next.rest));
        }
      } else {
        assert st.slots[j].items + [] == st.slots[j].items;
      }
    }
  }

  lemma SlotsMany(fields: seq<Field>, i: nat, st: State)
    requires i < |fields| && StateOk(fields, st) && fields[i].rule.Repeated?
    ensures SlotOf(fields, i) < |st.slots| && st.slots[SlotOf(fields, i)].Many?
    ensures !fields[i].rule.counted ==> |st.slots[SlotOf(fields, i)].items| == fields[i].arraySize
  {
    ArrayAt(fields, st.slots, i);
  }

  lemma {:induction false} LoopFills(fields: seq<Field>, i: nat, input: bytes, st: State, before: seq<Value>, all: seq<Value>)
    requires i < |fields| && DescriptorOk(fields) && StateOk(fields, st) && fields[i].rule == Repeated(false)
    requires SlotOf(fields, i) < |st.slots|
    requires Filling(fields[i].arraySize, before, all, Progress(fields, i, st), st.slots[SlotOf(fields, i)])
    ensures
      var r, j := DecodeLoop(fields, input, st), SlotOf(fields, i);
      r.Parsed? ==>
        && |r.value.slots| == |st.slots|
        && Filling(fields[i].arraySize, before, all + ValuesFor(fields, i, input), Progress(fields, i, r.value), r.value.slots[j])
    decreases |input|
  {
    assert FieldOk(fields[i]);
    hide DecodeLoop, AfterTag, AfterRecord, StateOk, DescriptorOk, RecordValues, SlotOf, Filling, Turned, Progress, FieldOk;
    var j := SlotOf(fields, i);
    assert all + [] == all;
    if input == [] {
      DecodeNothing(fields, st);
    } else {
      LoopIs(fields, input, st);
      var read := DecodeTag(input);
      if read.TagRead? {
        var next := AfterTag(fields, read.tag, read.wt, read.rest, st);
        TurnTurns(fields, i, read.tag, read.wt, read.rest, st);
        TurnWrites(fields, read.tag, read.wt, read.rest, st, j);
        if next.Parsed? {
          var here := if FieldWith(fields, read.tag, 0) == i then RecordValues(fields[i], read.wt, read.rest) else [];
          FillingTurns(fields[i], before, all, Progress(fields, i, st), st.slots[j], here, next.value.slots[j],
                       Progress(fields, i, next.value));
          LoopFills(fields, i, next.rest, next.value, before, all + here);
          Assoc(all, here, ValuesFor(fields, i, next.rest));
        }
      }
    }
  }

  /**
   An array with a counter holds what it held and then every item that came. One without a
   counter must get whole sets, and holds the last set, or what it held if none came.
   */
  ghost predicate ArrayIs(fields: seq<Field>, i: nat, input: bytes, before: Slot, after: Slot)
    requires i < |fields| && DescriptorOk(fields)
  {
    var f, vs := fields[i], ValuesFor(fields, i, input);
    && before.Many? && after.Many?
    && if f.rule == Repeated(true) then after.items == before.items + vs
       else Rounds(|vs|, f.arraySize, 0)
            && after.items == if vs == [] then before.items else vs[(if |vs| < f.arraySize then 0 else |vs| - f.arraySize)..]
  }

  lemma ArraysCome(fields: seq<Field>, i: nat, input: bytes, slots: seq<Slot>)
    requires i < |fields| && DescriptorOk(fields) && MessageFits(fields, slots) && fields[i].rule.Repeated?
    ensures
      var r, j := DecodeMessage(fields, input, slots), SlotOf(fields, i);
      r.Parsed? ==> j < |slots| == |r.value| && ArrayIs(fields, i, input, slots[j], r.value[j])
  {
    hide DecodeLoop, MessageFits, SlotOf, ValuesFor, Filling, FixedComplete, ArrayIs;
    StartIs(fields, slots);
    ArrayAt(fields, slots, i);
    var st, j := Start(fields, slots), SlotOf(fields, i);
    var f, r, vs := fields[i], DecodeLoop(fields, input, st), ValuesFor(fields, i, input);
    if f.rule.counted {
      LoopCounts(fields, i, input, st);
      if r.Parsed? {
        CountedIs(fields, i, input, slots[j], r.value.slots[j]);
      }
    } else {
      FillingStarts(f, slots[j].items);
      LoopFills(fields, i, input, st, slots[j].items, []);
      assert [] + vs == vs;
      if r.Parsed? && Complete(fields, r.value) {
        Ended(fields, i, r.value);
        FixedIs(fields, i, input, slots[j], r.value.slots[j], Progress(fields, i, r.value));
      }
    }
  }

  lemma CountedIs(fields: seq<Field>, i: nat, input: bytes, before: Slot, after: Slot)
    requires i < |fields| && DescriptorOk(fields) && fields[i].rule == Repeated(true)
    requires before.Many? && after == Many(before.items + ValuesFor(fields, i, input))
    ensures ArrayIs(fields, i, input, before, after)
  {
  }

  lemma FixedIs(fields: seq<Field>, i: nat, input: bytes, before: Slot, after: Slot, p: nat)
    requires i < |fields| && DescriptorOk(fields) && fields[i].rule == Repeated(false) && before.Many?
    requires Filling(fields[i].arraySize, before.items, ValuesFor(fields, i, input), p, after)
    requires p == 0 || p == fields[i].arraySize
    ensures ArrayIs(fields, i, input, before, after)
  {
    hide ValuesFor, Filling, Rounds;
    FilledUp(fields[i].arraySize, before.items, ValuesFor(fields, i, input), p, after);
  }

  lemma Ended(fields: seq<Field>, i: nat, st: State)
    requires i < |fields| && st.fixedField <= |fields| && FixedComplete(fields, st)
    ensures Progress(fields, i, st) == 0 || Progress(fields, i, st) == fields[i].arraySize
  {
  }

  /** Complete or not begun again, the array holds the last set. */
  lemma FilledUp(n: nat, before: seq<Value>, all: seq<Value>, p: nat, now: Slot)
    requires Filling(n, before, all, p, now) && (p == 0 || p == n)
    ensures now.Many? && Rounds(|all|, n, 0)
    ensures now.items == if all == [] then before else all[(if |all| < n then 0 else |all| - n)..]
  {
    RoundsMore(|all|, n, p, 0);
    assert all == [] ==> [] + before[0..] == before;
    assert all[|all|..] + all[(if |all| < n then 0 else |all| - n)..|all|] == all[(if |all| < n then 0 else |all| - n)..];
  }
}
