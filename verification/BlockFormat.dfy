/**
 The block format: prefix-compressed entries with restart points, and the builder that
 writes it (table/block_builder.cc).
 */
module BlockFormat {
  import opened Coding

  datatype Pair = Pair(key: bytes, value: bytes)

  /** A comparator, as the strict order it defines. */
  type Order = (bytes, bytes) -> bool

  ghost predicate Transitive(less: Order) {
    forall a, b, c :: less(a, b) && less(b, c) ==> less(a, c)
  }

  ghost predicate Ascending(less: Order, entries: seq<Pair>) {
    forall i, j :: 0 <= i < j < |entries| ==> less(entries[i].key, entries[j].key)
  }

  function Lengths(shared: nat, e: Pair): bytes
    requires shared <= |e.key|
  {
    Varint(shared) + Varint(|e.key| - shared) + Varint(|e.value|)
  }

  function EntryBytes(shared: nat, e: Pair): bytes
    requires shared <= |e.key|
  {
    Lengths(shared, e) + e.key[shared..] + e.value
  }

  function RestartBytes(points: seq<nat>): (r: bytes)
    ensures |r| == 4 * |points|
  {
    if points == [] then [] else RestartBytes(points[..|points| - 1]) + Fixed(points[|points| - 1], 4)
  }

  /** Where the entries of a block start, how much key each shares, and which are restarts. */
  datatype Layout = Layout(entries: seq<Pair>, offs: seq<nat>, shared: seq<nat>, restarts: seq<nat>)

  /** Entry `i` is written at its offset, sharing a prefix of the key before it. */
  ghost predicate EntryOk(data: bytes, l: Layout, i: nat)
    requires i < |l.entries| == |l.shared| && |l.offs| == |l.entries| + 1
  {
    var e, s := l.entries[i], l.shared[i];
    && l.offs[i] <= l.offs[i + 1] <= |data| && s <= |e.key| < TWO_32 && |e.value| < TWO_32
    && data[l.offs[i]..l.offs[i + 1]] == EntryBytes(s, e)
    && (s > 0 ==> i > 0 && s <= |l.entries[i - 1].key| && l.entries[i - 1].key[..s] == e.key[..s])
  }

  ghost predicate DataOk(data: bytes, l: Layout) {
    && |l.entries| == |l.shared| && |l.offs| == |l.entries| + 1
    && l.offs[0] == 0 && l.offs[|l.entries|] == |data|
    && (forall i :: 0 <= i < |l.entries| ==> EntryOk(data, l, i))
    && (forall i, j :: 0 <= i < j <= |l.entries| ==> l.offs[i] < l.offs[j])
  }

  /** Restarts come in order, begin with the first entry and share nothing. */
  ghost predicate RestartsOk(l: Layout)
    requires |l.entries| == |l.shared|
  {
    && l.restarts != [] && l.restarts[0] == 0
    && (forall i, j :: 0 <= i < j < |l.restarts| ==> l.restarts[i] < l.restarts[j])
    && (forall j :: 0 <= j < |l.restarts| && |l.entries| > 0 ==> l.restarts[j] < |l.entries|)
    && (l.entries == [] ==> |l.restarts| == 1)
    && (forall j :: 0 <= j < |l.restarts| && l.restarts[j] < |l.entries| ==> l.shared[l.restarts[j]] == 0)
  }

  ghost function Points(l: Layout): (r: seq<nat>)
    requires forall j :: 0 <= j < |l.restarts| ==> l.restarts[j] < |l.offs|
    ensures |r| == |l.restarts|
  {
    seq(|l.restarts|, j requires 0 <= j < |l.restarts| => l.offs[l.restarts[j]])
  }

  ghost predicate LayoutOk(data: bytes, l: Layout) {
    DataOk(data, l) && RestartsOk(l)
  }

  /** `contents` is a finished block with this layout, within the 32-bit fields it is written with. */
  ghost predicate Encodes(contents: bytes, l: Layout) {
    && |contents| < TWO_32 && l.offs != []
    && l.offs[|l.offs| - 1] <= |contents|
    && var data := contents[..l.offs[|l.offs| - 1]];
       LayoutOk(data, l) && contents == data + RestartBytes(Points(l)) + Fixed(|l.restarts|, 4)
  }

  /** The layout after one more entry. */
  ghost function Extended(l: Layout, e: Pair, shared: nat, restart: bool, end: nat): Layout {
    Layout(l.entries + [e], l.offs + [end], l.shared + [shared],
           if restart then l.restarts + [|l.entries|] else l.restarts)
  }

  lemma ExtendEntries(data: bytes, l: Layout, e: Pair, shared: nat, restart: bool)
    requires DataOk(data, l) && shared <= |e.key| < TWO_32 && |e.value| < TWO_32
    requires shared > 0 ==> l.entries != []
    requires l.entries != [] ==> var k := l.entries[|l.entries| - 1].key; shared <= |k| && k[..shared] == e.key[..shared]
    ensures
      var data' := data + EntryBytes(shared, e);
      DataOk(data', Extended(l, e, shared, restart, |data'|))
  {
    EntryLasts(data, l, e, shared, restart);
    hide EntryBytes, EntryOk;
    NotEmpty(shared, e);
    var n, data' := |l.entries|, data + EntryBytes(shared, e);
    var l' := Extended(l, e, shared, restart, |data'|);
    forall i | 0 <= i < n
      ensures EntryOk(data', l', i)
    {
      EntryStays(data, EntryBytes(shared, e), l, e, shared, restart, i);
    }
  }

  lemma NotEmpty(shared: nat, e: Pair)
    requires shared <= |e.key|
    ensures EntryBytes(shared, e) != []
  {
  }

  lemma EntryLasts(data: bytes, l: Layout, e: Pair, shared: nat, restart: bool)
    requires |l.entries| == |l.shared| && |l.offs| == |l.entries| + 1 && l.offs[|l.entries|] == |data|
    requires shared <= |e.key| < TWO_32 && |e.value| < TWO_32
    requires shared > 0 ==> l.entries != []
    requires l.entries != [] ==> var k := l.entries[|l.entries| - 1].key; shared <= |k| && k[..shared] == e.key[..shared]
    ensures
      var data' := data + EntryBytes(shared, e);
      EntryOk(data', Extended(l, e, shared, restart, |data'|), |l.entries|)
  {
    hide EntryBytes;
    var data' := data + EntryBytes(shared, e);
    assert data'[|data|..] == EntryBytes(shared, e);
  }

  lemma EntryStays(data: bytes, more: bytes, l: Layout, e: Pair, shared: nat, restart: bool, i: nat)
    requires i < |l.entries| == |l.shared| && |l.offs| == |l.entries| + 1 && EntryOk(data, l, i)
    ensures EntryOk(data + more, Extended(l, e, shared, restart, |data + more|), i)
  {
    SameSlice(data, more, l.offs[i], l.offs[i + 1]);
  }

  lemma SameSlice(data: bytes, more: bytes, a: nat, b: nat)
    requires a <= b <= |data|
    ensures (data + more)[a..b] == data[a..b]
  {
  }

  /** How much the two keys have in common at the front. */
  ghost predicate Longest(a: bytes, b: bytes, shared: nat) {
    && shared <= |a| && shared <= |b| && a[..shared] == b[..shared]
    && (shared < |a| && shared < |b| ==> a[shared] != b[shared])
  }

  /** Except at restarts each entry leaves out all it shares with the key before it. */
  ghost predicate SharesMost(l: Layout)
    requires |l.entries| == |l.shared|
  {
    forall i :: 0 < i < |l.entries| && i !in l.restarts ==> Longest(l.entries[i - 1].key, l.entries[i].key, l.shared[i])
  }

  lemma ExtendShares(l: Layout, e: Pair, shared: nat, restart: bool, end: nat)
    requires |l.entries| == |l.shared| && SharesMost(l)
    requires !restart && l.entries != [] ==> Longest(l.entries[|l.entries| - 1].key, e.key, shared)
    ensures SharesMost(Extended(l, e, shared, restart, end))
  {
    var l' := Extended(l, e, shared, restart, end);
    assert restart ==> l'.restarts[|l.restarts|] == |l.entries|;
    assert forall i :: i in l.restarts ==> i in l'.restarts;
  }

  /** A restart every `interval` entries, and `counter` entries since the last one. */
  ghost predicate Spaced(l: Layout, interval: nat, counter: nat) {
    && l.restarts != [] && l.restarts[|l.restarts| - 1] + counter == |l.entries|
    && (forall j :: 0 < j < |l.restarts| ==> l.restarts[j] == l.restarts[j - 1] + interval)
    && (l.entries != [] ==> counter > 0)
  }

  lemma ExtendRestarts(l: Layout, e: Pair, shared: nat, restart: bool, end: nat)
    requires |l.entries| == |l.shared| && |l.offs| == |l.entries| + 1 && RestartsOk(l)
    requires restart || l.entries == [] ==> shared == 0
    requires restart ==> l.entries != []
    ensures RestartsOk(Extended(l, e, shared, restart, end))
  {
    var l' := Extended(l, e, shared, restart, end);
    forall j | 0 <= j < |l'.restarts|
      ensures l'.restarts[j] < |l'.entries| && l'.shared[l'.restarts[j]] == 0
    {
      if l.entries != [] && j < |l.restarts| {
        assert l'.shared[l.restarts[j]] == l.shared[l.restarts[j]];
      }
    }
  }

  lemma ExtendPoints(l: Layout, e: Pair, shared: nat, restart: bool, end: nat)
    requires |l.offs| == |l.entries| + 1 && forall j :: 0 <= j < |l.restarts| ==> l.restarts[j] < |l.offs|
    ensures
      var l' := Extended(l, e, shared, restart, end);
      && (forall j :: 0 <= j < |l'.restarts| ==> l'.restarts[j] < |l'.offs|)
      && Points(l') == if restart then Points(l) + [l.offs[|l.entries|]] else Points(l)
  {
  }

  lemma PointsInRange(data: bytes, l: Layout)
    requires LayoutOk(data, l)
    ensures forall j :: 0 <= j < |l.restarts| ==> l.restarts[j] < |l.offs|
  {
  }

  lemma ExtendSpaced(l: Layout, e: Pair, shared: nat, restart: bool, end: nat, interval: nat, counter: nat)
    requires Spaced(l, interval, counter) && (restart ==> counter == interval)
    ensures Spaced(Extended(l, e, shared, restart, end), interval, if restart then 1 else counter + 1)
  {
  }

  /** What the builder's fields say of the entries added so far. */
  ghost predicate BuilderOk(buffer: bytes, l: Layout, restarts: seq<nat>, interval: nat, counter: nat) {
    && LayoutOk(buffer, l) && restarts == Points(l) && Spaced(l, interval, counter) && 1 <= interval
    && counter <= interval && SharesMost(l)
  }

  lemma ExtendBuilder(buffer: bytes, l: Layout, restarts: seq<nat>, interval: nat, counter: nat, e: Pair, shared: nat)
    requires BuilderOk(buffer, l, restarts, interval, counter)
    requires shared <= |e.key| < TWO_32 && |e.value| < TWO_32
    requires shared > 0 ==> counter < interval && l.entries != []
    requires l.entries != [] ==> var k := l.entries[|l.entries| - 1].key; shared <= |k| && k[..shared] == e.key[..shared]
    requires counter < interval && l.entries != [] ==> Longest(l.entries[|l.entries| - 1].key, e.key, shared)
    ensures
      var restart, buffer' := counter == interval, buffer + EntryBytes(shared, e);
      BuilderOk(buffer', Extended(l, e, shared, restart, |buffer'|),
                if restart then restarts + [|buffer|] else restarts, interval, if restart then 1 else counter + 1)
  {
    hide EntryBytes, RestartsOk, EntryOk, Points, SharesMost, Longest;
    var restart, buffer' := counter == interval, buffer + EntryBytes(shared, e);
    ExtendEntries(buffer, l, e, shared, restart);
    ExtendSpaced(l, e, shared, restart, |buffer'|, interval, counter);
    ExtendShares(l, e, shared, restart, |buffer'|);
    PointsInRange(buffer, l);
    ExtendRestarts(l, e, shared, restart, |buffer'|);
    ExtendPoints(l, e, shared, restart, |buffer'|);
  }

  /** How long a prefix the two keys share. */
  method SharedPrefix(a: bytes, b: bytes) returns (shared: nat)
    ensures Longest(a, b, shared)
  {
    var minLength := if |a| < |b| then |a| else |b|;
    shared := 0;
    while shared < minLength && a[shared] == b[shared]
      invariant shared <= minLength && a[..shared] == b[..shared]
    {
      shared := shared + 1;
    }
  }

  lemma DataEnds(data: bytes, l: Layout)
    requires DataOk(data, l)
    ensures l.offs != [] && l.offs[|l.offs| - 1] == |data|
  {
  }

  lemma Rejoin(a: bytes, b: bytes, n: nat)
    requires n <= |a| && n <= |b| && a[..n] == b[..n]
    ensures a[..n] + b[n..] == b
  {
  }

  class BlockBuilder {
    const interval: nat
    const less: Order
    var buffer: bytes
    var restarts: seq<nat>
    var counter: nat
    var lastKey: bytes
    var finished: bool
    ghost var layout: Layout

    constructor (interval: nat, less: Order)
      requires interval >= 1
      ensures Valid() && this.interval == interval && this.less == less && !finished && layout.entries == []
    {
      this.interval, this.less := interval, less;
      buffer, restarts, counter, lastKey, finished := [], [0], 0, [], false;
      layout := Layout([], [0], [], [0]);
    }

    ghost predicate Valid()
      reads this
    {
      && interval >= 1
      && (!finished ==> BuilderOk(buffer, layout, restarts, interval, counter))
      && lastKey == (if layout.entries == [] then [] else layout.entries[|layout.entries| - 1].key)
    }

    method Reset()
      requires Valid()
      modifies this
      ensures Valid() && !finished && layout.entries == []
    {
      buffer, restarts, counter, finished, lastKey := [], [0], 0, false, [];
      layout := Layout([], [0], [], [0]);
    }

    predicate Empty()
      requires Valid() && !finished
      reads this
      ensures Empty() <==> layout.entries == []
    {
      buffer == []
    }

    function CurrentSizeEstimate(): nat
      reads this
    {
      |buffer| + 4 * |restarts| + 4
    }

    method Add(key: bytes, value: bytes)
      requires Valid() && !finished && (layout.entries != [] ==> less(lastKey, key))
      requires |key| < TWO_32 && |value| < TWO_32
      modifies this
      ensures Valid() && !finished && layout.entries == old(layout.entries) + [Pair(key, value)]
    {
      hide EntryBytes, DataOk, RestartsOk, Spaced, SharesMost;
      ghost var e, was, restart := Pair(key, value), layout, counter == interval;
      var shared := 0;
      if counter < interval {
        shared := SharedPrefix(lastKey, key);
      } else {
        restarts := restarts + [|buffer|];
        counter := 0;
      }
      ghost var next := Extended(was, e, shared, restart, |buffer + EntryBytes(shared, e)|);
      assert BuilderOk(buffer + EntryBytes(shared, e), next, restarts, interval, counter + 1) by {
        ExtendBuilder(buffer, was, old(restarts), interval, old(counter), e, shared);
      }
      AppendEntry(key, value, shared);
      Rejoin(lastKey, key, shared);
      lastKey := lastKey[..shared] + key[shared..];
      counter := counter + 1;
      layout := next;
    }

    method AppendEntry(key: bytes, value: bytes, shared: nat)
      requires shared <= |key| < TWO_32 && |value| < TWO_32
      modifies this`buffer
      ensures buffer == old(buffer) + EntryBytes(shared, Pair(key, value))
    {
      var a := EncodeVarint32(shared);
      var b := EncodeVarint32(|key| - shared);
      var c := EncodeVarint32(|value|);
      buffer := buffer + a + b + c + key[shared..] + value;
    }

    /** Append the restart array and its length. */
    method Finish() returns (contents: bytes)
      requires Valid() && !finished
      modifies this
      ensures finished && Valid() && buffer == contents && layout == old(layout)
      ensures |contents| < TWO_32 ==> Encodes(contents, layout)
      ensures |layout.entries| == |layout.shared| && SharesMost(layout)
      ensures exists counter: nat :: counter <= interval && Spaced(layout, interval, counter)
      ensures |contents| == old(CurrentSizeEstimate())
    {
      DataEnds(buffer, layout);
      hide DataOk, RestartsOk, RestartBytes, Fixed, SharesMost;
      ghost var data := buffer;
      AppendRestarts();
      buffer := buffer + Fixed(|restarts|, 4);
      finished := true;
      contents := buffer;
      assert contents[..|data|] == data;
    }

    method AppendRestarts()
      modifies this`buffer
      ensures buffer == old(buffer) + RestartBytes(restarts)
    {
      for i := 0 to |restarts|
        invariant buffer == old(buffer) + RestartBytes(restarts[..i])
      {
        assert restarts[..i + 1][..i] == restarts[..i];
        buffer := buffer + Fixed(restarts[i], 4);
      }
      assert restarts[..|restarts|] == restarts;
    }
  }
}
