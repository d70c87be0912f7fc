/**
 Reading a block: decoding its entries, and the iterator over them with binary search over
 the restart points (table/block.cc).  The iterator works on any bytes; on a block the
 builder finished it is a cursor over exactly the entries that were added.
 */
module Block {
  import opened Coding
  import opened Positions
  import opened BlockFormat

  // ---- Entries ----

  datatype Head = Head(shared: nat, nonShared: nat, valueLength: nat, header: nat)

  function Fits(h: Head, n: nat): Option<Head> {
    if n < h.header + h.nonShared + h.valueLength then None else Some(h)
  }

  /** The three lengths at the head of an entry; a fast path reads three one-byte varints. */
  function DecodeEntry(s: bytes): (r: Option<Head>)
    ensures r.Some? ==> r.value.header + r.value.nonShared + r.value.valueLength <= |s| && r.value.header > 0
  {
    if |s| < 3 then None
    else if s[0] < 128 && s[1] < 128 && s[2] < 128 then Fits(Head(s[0], s[1], s[2], 3), |s|)
    else ThreeVarints(s)
  }

  function ThreeVarints(s: bytes): (r: Option<Head>)
    ensures r.Some? ==> r.value.header + r.value.nonShared + r.value.valueLength <= |s| && r.value.header > 0
  {
    match Varint32(s)
    case None => None
    case Some((shared, r1)) =>
      match Varint32(r1)
      case None => None
      case Some((nonShared, r2)) =>
        match Varint32(r2)
        case None => None
        case Some((valueLength, r3)) =>
          Fits(Head(shared, nonShared, valueLength, |s| - |r3|), |s|)
  }

  /** Three encodings in a row, each read back with the rest left over. */
  lemma ThreeRead(a: bytes, b: bytes, c: bytes, tail: bytes, x: uint32, y: uint32, z: uint32)
    requires a != [] && y + z <= |tail|
    requires Varint32(a + (b + (c + tail))) == Some((x, b + (c + tail)))
    requires Varint32(b + (c + tail)) == Some((y, c + tail))
    requires Varint32(c + tail) == Some((z, tail))
    ensures ThreeVarints(a + (b + (c + tail))) == Some(Head(x, y, z, |a| + |b| + |c|))
  {
  }

  lemma VarintsRead(x: uint32, y: uint32, z: uint32, tail: bytes)
    requires y + z <= |tail|
    ensures ThreeVarints(Varint(x) + (Varint(y) + (Varint(z) + tail))) ==
            Some(Head(x, y, z, |Varint(x)| + |Varint(y)| + |Varint(z)|))
  {
    hide Varint, ReadVarint, Varint32, ThreeVarints;
    Varint32RoundTrip(x, Varint(y) + (Varint(z) + tail));
    Varint32RoundTrip(y, Varint(z) + tail);
    Varint32RoundTrip(z, tail);
    ThreeRead(Varint(x), Varint(y), Varint(z), tail, x, y, z);
  }

  lemma OneByte(v: nat, rest: bytes)
    ensures |Varint(v)| > 0 && ((Varint(v) + rest)[0] < 128 <==> v < 128)
    ensures v < 128 ==> Varint(v) + rest == [v] + rest && |Varint(v)| == 1
  {
  }

  lemma LengthsRead(x: uint32, y: uint32, z: uint32, tail: bytes)
    requires y + z <= |tail|
    ensures DecodeEntry(Varint(x) + (Varint(y) + (Varint(z) + tail))) ==
            Some(Head(x, y, z, |Varint(x)| + |Varint(y)| + |Varint(z)|))
  {
    hide Varint, ThreeVarints;
    VarintsRead(x, y, z, tail);
    FastPath(x, y, z, tail);
  }

  /** Three one-byte varints are recognised by their first bytes. */
  lemma FastPath(x: uint32, y: uint32, z: uint32, tail: bytes)
    ensures
      var s := Varint(x) + (Varint(y) + (Varint(z) + tail));
      && |s| >= 3 && (s[0] < 128 && s[1] < 128 && s[2] < 128 <==> x < 128 && y < 128 && z < 128)
      && (x < 128 && y < 128 && z < 128 ==>
            s[0] == x && s[1] == y && s[2] == z && |Varint(x)| == 1 && |Varint(y)| == 1 && |Varint(z)| == 1)
  {
    hide Varint;
    var s2 := Varint(z) + tail;
    var s1 := Varint(y) + s2;
    OneByte(x, s1);
    OneByte(y, s2);
    OneByte(z, tail);
    if x < 128 && y < 128 {
      assert (Varint(x) + s1)[1] == s1[0] && (Varint(x) + s1)[2] == s2[0];
    } else if x < 128 {
      assert (Varint(x) + s1)[1] == s1[0];
    }
  }

  /** Whichever path reads it, an entry gives its lengths back. */
  lemma EntryRoundTrip(shared: nat, e: Pair, rest: bytes)
    requires shared <= |e.key| < TWO_32 && |e.value| < TWO_32
    ensures DecodeEntry(EntryBytes(shared, e) + rest) ==
            Some(Head(shared, |e.key| - shared, |e.value|, |Lengths(shared, e)|))
  {
    hide Varint, DecodeEntry;
    var a, b, c := Varint(shared), Varint(|e.key| - shared), Varint(|e.value|);
    Regroup3(a, b, c, e.key[shared..], e.value, rest);
    LengthsRead(shared, |e.key| - shared, |e.value|, e.key[shared..] + e.value + rest);
    EntryIs(shared, e, a, b, c);
  }

  lemma EntryIs(shared: nat, e: Pair, a: bytes, b: bytes, c: bytes)
    requires shared <= |e.key| && a == Varint(shared) && b == Varint(|e.key| - shared) && c == Varint(|e.value|)
    ensures EntryBytes(shared, e) == a + b + c + e.key[shared..] + e.value
    ensures |Lengths(shared, e)| == |a| + |b| + |c|
  {
  }

  lemma Regroup3(a: bytes, b: bytes, c: bytes, d: bytes, e: bytes, rest: bytes)
    ensures a + b + c + d + e + rest == a + (b + (c + (d + e + rest)))
  {
  }

  // ---- The restart array ----

  function RestartAt(contents: bytes, restarts: nat, j: nat): nat
    requires restarts + 4 * j + 4 <= |contents|
  {
    DecodeFixed(contents[restarts + 4 * j..restarts + 4 * j + 4])
  }

  lemma {:induction false} PointRead(points: seq<nat>, j: nat)
    requires j < |points| && forall i :: 0 <= i < |points| ==> points[i] < TWO_32
    ensures DecodeFixed(RestartBytes(points)[4 * j..4 * j + 4]) == points[j]
  {
    var n := |points| - 1;
    if j == n {
      Fixed32RoundTrip(points[n]);
      assert RestartBytes(points)[4 * j..4 * j + 4] == Fixed(points[n], 4);
    } else {
      PointRead(points[..n], j);
      assert RestartBytes(points)[4 * j..4 * j + 4] == RestartBytes(points[..n])[4 * j..4 * j + 4];
    }
  }

  /** What a finished block looks like from the outside. */
  lemma EncodedShape(contents: bytes, l: Layout)
    requires Encodes(contents, l)
    ensures
      var restarts := l.offs[|l.offs| - 1];
      && restarts + 4 * |l.restarts| + 4 == |contents|
      && DecodeFixed(contents[|contents| - 4..]) == |l.restarts|
      && forall j :: 0 <= j < |l.restarts| ==>
           l.restarts[j] < |l.offs| && RestartAt(contents, restarts, j) == l.offs[l.restarts[j]]
  {
    hide RestartBytes, Fixed, RestartAt, EntryOk;
    var restarts := l.offs[|l.offs| - 1];
    var data := contents[..restarts];
    PointsInside(data, l);
    RestartsRead(data, Points(l));
  }

  /** A restart array after any bytes, and its length at the end. */
  lemma RestartsRead(data: bytes, points: seq<nat>)
    requires |points| < TWO_32 && forall i :: 0 <= i < |points| ==> points[i] < TWO_32
    ensures
      var contents := data + RestartBytes(points) + Fixed(|points|, 4);
      && |contents| == |data| + 4 * |points| + 4 && DecodeFixed(contents[|contents| - 4..]) == |points|
      && forall j :: 0 <= j < |points| ==> RestartAt(contents, |data|, j) == points[j]
  {
    hide RestartBytes, Fixed, DecodeFixed;
    ShapeOf(data, RestartBytes(points), Fixed(|points|, 4));
    Fixed32RoundTrip(|points|);
    var contents := data + RestartBytes(points) + Fixed(|points|, 4);
    forall j | 0 <= j < |points|
      ensures RestartAt(contents, |data|, j) == points[j]
    {
      PointRead(points, j);
      InnerSlice(data, RestartBytes(points), Fixed(|points|, 4), 4 * j, 4 * j + 4);
    }
  }

  lemma PointsInside(data: bytes, l: Layout)
    requires LayoutOk(data, l)
    ensures forall j :: 0 <= j < |l.restarts| ==> l.restarts[j] < |l.offs| && l.offs[l.restarts[j]] <= |data|
  {
  }

  lemma ShapeOf(a: bytes, b: bytes, c: bytes)
    requires |c| == 4
    ensures (a + b + c)[|a + b + c| - 4..] == c
  {
  }

  // ---- The iterator ----

  ghost function HeadOf(l: Layout, i: nat): Head
    requires i < |l.entries| == |l.shared| && l.shared[i] <= |l.entries[i].key|
  {
    var e, s := l.entries[i], l.shared[i];
    Head(s, |e.key| - s, |e.value|, |Lengths(s, e)|)
  }

  /** An entry decodes, at its offset, to what is new in its key and to its value. */
  lemma EntryDecodes(data: bytes, l: Layout, i: nat)
    requires LayoutOk(data, l) && |data| < TWO_32 && i < |l.entries|
    ensures l.shared[i] <= |l.entries[i].key|
    ensures
      var e, s, a, h := l.entries[i], l.shared[i], l.offs[i], HeadOf(l, i);
      && a <= |data| && DecodeEntry(data[a..]) == Some(h)
      && a + h.header + h.nonShared + h.valueLength == l.offs[i + 1] <= |data|
      && data[a + h.header..a + h.header + h.nonShared] == e.key[s..]
      && data[a + h.header + h.nonShared..l.offs[i + 1]] == e.value
  {
    hide Lengths, DecodeEntry;
    assert EntryOk(data, l, i);
    var e, s, a, b := l.entries[i], l.shared[i], l.offs[i], l.offs[i + 1];
    assert data[a..b] == Lengths(s, e) + e.key[s..] + e.value;
    hide EntryBytes, LayoutOk, DataOk, EntryOk;
    SliceParts(data, a, b, Lengths(s, e), e.key[s..], e.value);
    EntryRoundTrip(s, e, data[b..]);
  }

  /** The same inside a block whose entries end where the restart array begins. */
  lemma EntryInBlock(contents: bytes, restarts: nat, l: Layout, i: nat)
    requires restarts <= |contents| < TWO_32 && LayoutOk(contents[..restarts], l) && i < |l.entries|
    ensures l.shared[i] <= |l.entries[i].key|
    ensures
      var e, a, h := l.entries[i], l.offs[i], HeadOf(l, i);
      && a + h.header + h.nonShared + h.valueLength == l.offs[i + 1] <= restarts
      && DecodeEntry(contents[a..restarts]) == Some(h)
      && contents[a + h.header..a + h.header + h.nonShared] == e.key[l.shared[i]..]
      && contents[a + h.header + h.nonShared..l.offs[i + 1]] == e.value
  {
    var data := contents[..restarts];
    EntryDecodes(data, l, i);
    var a, h := l.offs[i], HeadOf(l, i);
    hide DecodeEntry, HeadOf, LayoutOk;
    PrefixSlice(contents, restarts, a, restarts);
    PrefixSlice(contents, restarts, a + h.header, a + h.header + h.nonShared);
    PrefixSlice(contents, restarts, a + h.header + h.nonShared, l.offs[i + 1]);
    assert data[a..restarts] == data[a..];
  }

  lemma SliceParts(data: bytes, a: nat, b: nat, head: bytes, key: bytes, value: bytes)
    requires a <= b <= |data| && data[a..b] == head + key + value
    ensures data[a..] == head + key + value + data[b..]
    ensures a + |head| + |key| + |value| == b
    ensures data[a + |head|..a + |head| + |key|] == key
    ensures data[a + |head| + |key|..b] == value
  {
    Subslice(data, a, b, |head|, |head| + |key|);
    Subslice(data, a, b, |head| + |key|, b - a);
    assert (head + key + value)[|head|..|head| + |key|] == key;
    assert (head + key + value)[|head| + |key|..] == value;
  }

  lemma Subslice(s: bytes, a: nat, b: nat, i: nat, j: nat)
    requires a <= b <= |s| && i <= j <= b - a
    ensures s[a + i..a + j] == s[a..b][i..j]
  {
    forall k | 0 <= k < j - i
      ensures s[a + i..a + j][k] == s[a..b][i..j][k]
    {
      assert s[a..b][i + k] == s[a + i + k];
    }
  }

  class Iter {
    const less: Order
    const contents: bytes
    const restarts: nat
    const numRestarts: nat
    var current: nat
    var restartIndex: nat
    var key: bytes
    /** The value is a slice of the contents. */
    var valueStart: nat
    var valueEnd: nat
    var corrupt: bool

    /** What the block holds, if it is one the builder finished. */
    ghost const clean: bool
    ghost const layout: Layout
    ghost var pos: nat

    ghost predicate Shape()
      reads this
    {
      && numRestarts > 0 && restarts + 4 * numRestarts + 4 == |contents| && valueStart <= valueEnd
      && (IsValid() ==> restartIndex < numRestarts && current < valueEnd <= restarts)
      && (clean ==> Encodes(contents, layout) && restarts == layout.offs[|layout.offs| - 1]
                    && numRestarts == |layout.restarts| && |layout.offs| == |layout.entries| + 1)
    }

    predicate IsValid()
      reads this
    {
      current < restarts
    }

    /** The iterator is at entry `i`, in the restart block it falls in. */
    ghost predicate AtEntry(i: nat)
      requires Shape() && clean
      reads this
    {
      var l := layout;
      && i < |l.entries| && l.offs[i] == current < valueEnd == l.offs[i + 1] <= restarts
      && key == l.entries[i].key && contents[valueStart..valueEnd] == l.entries[i].value
      && restartIndex < numRestarts && l.restarts[restartIndex] <= i
      && (restartIndex + 1 < numRestarts ==> i <= l.restarts[restartIndex + 1])
    }

    /** Entry `i` comes next, and the key at hand has the prefix it shares. */
    ghost predicate Ready(i: nat)
      requires Shape() && clean
      reads this
    {
      var l := layout;
      && i < |l.offs| && valueEnd == l.offs[i]
      && restartIndex < numRestarts && l.restarts[restartIndex] <= i
      && (i < |l.entries| ==> |l.entries| == |l.shared| && l.shared[i] <= |key| && l.shared[i] <= |l.entries[i].key|
                              && key[..l.shared[i]] == l.entries[i].key[..l.shared[i]])
    }

    ghost predicate Valid()
      reads this
    {
      && Shape()
      && (clean ==> pos <= |layout.entries| && if pos < |layout.entries| then AtEntry(pos) else !IsValid())
    }

    constructor (less: Order, contents: bytes, restarts: nat, numRestarts: nat, ghost layout: Layout)
      requires numRestarts > 0 && restarts + 4 * numRestarts + 4 == |contents|
      requires numRestarts == DecodeFixed(contents[|contents| - 4..])
      ensures Valid() && !IsValid() && !corrupt && this.less == less && this.contents == contents
      ensures this.layout == layout && clean == Encodes(contents, layout)
    {
      this.less, this.contents, this.restarts, this.numRestarts := less, contents, restarts, numRestarts;
      current, restartIndex, key, valueStart, valueEnd, corrupt := restarts, numRestarts, [], 0, 0, false;
      this.layout, clean, pos := layout, Encodes(contents, layout), |layout.entries|;
      if Encodes(contents, layout) {
        EncodedShape(contents, layout);
      }
    }

    method Key() returns (k: bytes)
      requires Valid() && IsValid()
      ensures clean ==> pos < |layout.entries| && k == layout.entries[pos].key
    {
      k := key;
    }

    method Value() returns (v: bytes)
      requires Valid() && IsValid()
      ensures clean ==> pos < |layout.entries| && v == layout.entries[pos].value
    {
      v := contents[valueStart..valueEnd];
    }

    method CorruptionError()
      modifies this
      ensures corrupt && current == restarts && valueStart == valueEnd == 0 && restartIndex == numRestarts
      ensures pos == old(pos)
    {
      current, restartIndex, corrupt, key, valueStart, valueEnd := restarts, numRestarts, true, [], 0, 0;
    }

    method SeekToRestartPoint(index: nat)
      requires Shape() && index < numRestarts
      modifies this
      ensures Shape() && restartIndex == index && corrupt == old(corrupt)
      ensures clean ==> layout.restarts[index] < |layout.offs| && Ready(layout.restarts[index])
    {
      if clean {
        EncodedShape(contents, layout);
      }
      current, key, restartIndex := restarts, [], index;
      valueStart := RestartAt(contents, restarts, index);
      valueEnd := valueStart;
    }

    /** A restart point compares with an entry as its number does. */
    lemma RestartsKnown(i: nat)
      requires Shape() && clean && i <= |layout.entries|
      ensures forall j :: 0 <= j < numRestarts ==>
                (RestartAt(contents, restarts, j) < layout.offs[i] <==> layout.restarts[j] < i)
      ensures layout.restarts[0] == 0 && forall j :: 0 < j < numRestarts ==> layout.restarts[j - 1] < layout.restarts[j]
    {
      hide RestartAt;
      EncodedShape(contents, layout);
    }

    /** Move on to the restart block that `current` falls in. */
    method FindRestartIndex(ghost i: nat)
      requires Shape() && restartIndex < numRestarts
      requires clean ==> i < |layout.entries| && current == layout.offs[i] && layout.restarts[restartIndex] <= i
      modifies this`restartIndex
      ensures Shape() && restartIndex < numRestarts
      ensures clean ==> layout.restarts[restartIndex] <= i
      ensures clean && restartIndex + 1 < numRestarts ==> i <= layout.restarts[restartIndex + 1]
    {
      hide Encodes, RestartAt;
      if clean {
        RestartsKnown(i);
      }
      while restartIndex + 1 < numRestarts && RestartAt(contents, restarts, restartIndex + 1) < current
        invariant restartIndex < numRestarts && (clean ==> layout.restarts[restartIndex] <= i)
      {
        restartIndex := restartIndex + 1;
      }
    }

    /** Decode the entry after the current one; `i` is its number. */
    method ParseNextKey(ghost i: nat) returns (ok: bool)
      requires Shape() && restartIndex < numRestarts && (clean ==> Ready(i))
      modifies this
      ensures Shape() && (ok <==> IsValid()) && (ok ==> old(valueEnd) == current)
      ensures clean ==> pos == i <= |layout.entries| && Valid() && corrupt == old(corrupt)
    {
      hide Encodes, DecodeEntry, HeadOf;
      if clean && valueEnd < restarts {
        ReadEntry(i);
      } else if clean {
        AtEnd(i);
      }
      pos := i;
      current := valueEnd;
      if current >= restarts {
        current, restartIndex := restarts, numRestarts;
        return false;
      }
      var head := DecodeEntry(contents[current..restarts]);
      if head.None? || |key| < head.value.shared {
        CorruptionError();
        return false;
      }
      var p := current + head.value.header;
      key := key[..head.value.shared] + contents[p..p + head.value.nonShared];
      valueStart := p + head.value.nonShared;
      valueEnd := valueStart + head.value.valueLength;
      FindRestartIndex(i);
      ok := true;
    }

    lemma AtEnd(i: nat)
      requires Shape() && clean && Ready(i) && valueEnd >= restarts
      ensures i == |layout.entries|
    {
    }

    method Next()
      requires Valid() && IsValid()
      modifies this
      ensures Valid() && (clean ==> pos == old(pos) + 1 && corrupt == old(corrupt))
    {
      if clean {
        NextReady();
      }
      var ok := ParseNextKey(pos + 1);
    }

    lemma NextReady()
      requires Valid() && clean && IsValid()
      ensures Ready(pos + 1)
    {
      if pos + 1 < |layout.entries| {
        assert EntryOk(contents[..restarts], layout, pos + 1);
      }
    }

    /** The last restart point before the current entry, if there is one. */
    method FindEarlierRestart() returns (found: bool)
      requires Valid() && IsValid()
      modifies this`restartIndex
      ensures Shape() && IsValid() && restartIndex < numRestarts
      ensures clean ==> pos < |layout.entries| && found == (pos > 0)
      ensures clean && found ==> layout.restarts[restartIndex] < pos
    {
      hide Encodes, RestartAt;
      if clean {
        RestartsKnown(pos);
      }
      while RestartAt(contents, restarts, restartIndex) >= current
        invariant Shape() && IsValid() && restartIndex < numRestarts
        invariant clean ==> layout.restarts[restartIndex] <= pos
        decreases restartIndex
      {
        if restartIndex == 0 {
          return false;
        }
        restartIndex := restartIndex - 1;
      }
      found := true;
    }

    /** Back to a restart point before the current entry, then forward again. */
    method Prev()
      requires Valid() && IsValid()
      modifies this
      ensures Valid() && (clean ==> pos == PrevPos(|layout.entries|, old(pos)) && corrupt == old(corrupt))
    {
      var original := current;
      ghost var p := pos;
      var found := FindEarlierRestart();
      if !found {
        current, restartIndex := restarts, numRestarts;
        pos := |layout.entries|;
        return;
      }
      SeekToRestartPoint(restartIndex);
      ScanTo(original, if clean then layout.restarts[restartIndex] else 0, p);
    }

    lemma OffsetsAscend()
      requires Shape() && clean
      ensures forall i, j :: 0 <= i < j <= |layout.entries| ==> layout.offs[i] < layout.offs[j]
    {
    }

    /** Parse on from entry `i` until the end of an entry reaches `original`, the start of entry `p`. */
    method ScanTo(original: nat, ghost i: nat, ghost p: nat)
      requires Shape() && restartIndex < numRestarts && original <= restarts
      requires clean ==> Ready(i) && p <= |layout.entries| && original == layout.offs[p] && (i < p || layout.entries == [])
      modifies this
      ensures Valid()
      ensures clean ==> pos == (if layout.entries == [] then 0 else p - 1) && corrupt == old(corrupt)
    {
      if clean {
        OffsetsAscend();
      }
      hide Encodes;
      var ok := ParseNextKey(i);
      while ok && valueEnd < original
        invariant Valid() && (ok <==> IsValid())
        invariant clean && layout.entries != [] ==> ok && pos < p
        invariant clean && layout.entries == [] ==> !ok && pos == 0
        invariant clean ==> corrupt == old(corrupt)
        decreases ok, restarts - valueEnd
      {
        if clean {
          NextReady();
        }
        ok := ParseNextKey(pos + 1);
      }
    }

    /** The first entry whose key is not before `target`. */
    method Seek(target: bytes)
      requires Valid()
      modifies this
      ensures Valid() && (clean ==> corrupt == old(corrupt))
      ensures clean && Transitive(less) && Ascending(less, layout.entries) ==> SoughtAt(target, pos)
    {
      var found, left := FindRestart(target);
      if !found {
        CorruptionError();
        return;
      }
      ghost var ordered := clean && Transitive(less) && Ascending(less, layout.entries);
      if ordered {
        BeforeRestart(left, target);
      }
      SeekToRestartPoint(left);
      ScanFor(target, if clean then layout.restarts[left] else 0, ordered);
    }

    /** Binary search for the last restart point with a key before the target. */
    method FindRestart(target: bytes) returns (found: bool, left: nat)
      requires Valid()
      ensures left < numRestarts && (clean ==> found)
      ensures clean && left > 0 ==> less(RestartKey(left), target)
    {
      hide Encodes, DecodeEntry, RestartAt;
      left := 0;
      var right: nat := numRestarts - 1;
      while left < right
        invariant left <= right < numRestarts
        invariant clean && left > 0 ==> less(RestartKey(left), target)
        decreases right - left
      {
        var mid := (left + right + 1) / 2;
        var region := RestartAt(contents, restarts, mid);
        var head := if region < restarts then DecodeEntry(contents[region..restarts]) else None;
        if clean {
          ReadRestart(mid);
        }
        if head.None? || head.value.shared != 0 {
          return false, left;
        }
        var p := region + head.value.header;
        if less(contents[p..p + head.value.nonShared], target) {
          left := mid;
        } else {
          right := mid - 1;
        }
      }
      found := true;
    }

    /** Everything before `p` is before the target, and `p` is not. */
    ghost predicate SoughtAt(target: bytes, p: nat) {
      && p <= |layout.entries|
      && (forall j :: 0 <= j < p ==> less(layout.entries[j].key, target))
      && (p < |layout.entries| ==> !less(layout.entries[p].key, target))
    }

    ghost function RestartKey(j: nat): bytes
      requires Shape() && clean && 0 < j < numRestarts
      reads this
    {
      layout.entries[layout.restarts[j]].key
    }

    lemma BeforeRestart(left: nat, target: bytes)
      requires Shape() && clean && Transitive(less) && Ascending(less, layout.entries) && left < numRestarts
      requires left > 0 ==> less(RestartKey(left), target)
      ensures forall j :: 0 <= j < layout.restarts[left] ==> less(layout.entries[j].key, target)
    {
    }

    /** The key at a restart point can be read without the keys before it. */
    lemma ReadRestart(j: nat)
      requires Shape() && clean && 0 < j < numRestarts
      ensures
        var a := RestartAt(contents, restarts, j);
        && a < restarts && DecodeEntry(contents[a..restarts]).Some?
        && var h := DecodeEntry(contents[a..restarts]).value;
           h.shared == 0 && contents[a + h.header..a + h.header + h.nonShared] == RestartKey(j)
    {
      hide DecodeEntry, RestartAt, RestartBytes, Fixed, Points, EntryOk, Lengths;
      EncodedShape(contents, layout);
      EntryInBlock(contents, restarts, layout, layout.restarts[j]);
    }

    /** Parse on from entry `i` to the first key that is not before the target. */
    method ScanFor(target: bytes, ghost i: nat, ghost ordered: bool)
      requires Shape() && restartIndex < numRestarts && (clean ==> Ready(i))
      requires ordered ==> clean && forall j :: 0 <= j < i && j < |layout.entries| ==> less(layout.entries[j].key, target)
      modifies this
      ensures Valid() && (clean ==> corrupt == old(corrupt)) && (ordered ==> SoughtAt(target, pos))
    {
      hide Encodes;
      var ok := ParseNextKey(i);
      while ok && less(key, target)
        invariant Valid() && (ok <==> IsValid()) && (clean ==> corrupt == old(corrupt))
        invariant ordered ==> forall j :: 0 <= j < pos ==> less(layout.entries[j].key, target)
        decreases ok, restarts - valueEnd
      {
        if clean {
          NextReady();
        }
        ok := ParseNextKey(pos + 1);
      }
    }

    method SeekToFirst()
      requires Valid()
      modifies this
      ensures Valid() && (clean ==> pos == 0 && corrupt == old(corrupt))
    {
      SeekToRestartPoint(0);
      var ok := ParseNextKey(0);
    }

    method SeekToLast()
      requires Valid()
      modifies this
      ensures Valid() && (clean ==> pos == LastPos(|layout.entries|) && corrupt == old(corrupt))
    {
      SeekToRestartPoint(numRestarts - 1);
      ScanTo(restarts, if clean then layout.restarts[restartIndex] else 0, |layout.entries|);
    }

    /** What the bytes at the start of entry `i` decode to, and the key they complete. */
    lemma ReadEntry(i: nat)
      requires Shape() && clean && Ready(i) && valueEnd < restarts
      ensures i < |layout.entries| && layout.shared[i] <= |layout.entries[i].key|
      ensures
        var e, a, h := layout.entries[i], valueEnd, HeadOf(layout, i);
        && DecodeEntry(contents[a..restarts]) == Some(h) && h.shared <= |key|
        && a < a + h.header + h.nonShared + h.valueLength == layout.offs[i + 1] <= restarts
        && key[..h.shared] + contents[a + h.header..a + h.header + h.nonShared] == e.key
        && contents[a + h.header + h.nonShared..layout.offs[i + 1]] == e.value
    {
      hide DecodeEntry, RestartBytes, Fixed, Points, EntryOk, Lengths;
      EntryInBlock(contents, restarts, layout, i);
      Rejoin(key, layout.entries[i].key, layout.shared[i]);
    }
  }

  lemma PrefixSlice(s: bytes, n: nat, a: nat, b: nat)
    requires a <= b <= n <= |s|
    ensures s[..n][a..b] == s[a..b]
  {
  }

  datatype Opened = BadContents | NoRestarts | Opened(restarts: nat, numRestarts: nat)

  /** Find the restart array, or mark the block bad. */
  function Open(contents: bytes): (r: Opened)
    ensures r.Opened? ==> r.numRestarts > 0 && r.restarts + 4 * r.numRestarts + 4 == |contents|
                          && r.numRestarts == DecodeFixed(contents[|contents| - 4..])
  {
    if |contents| < 4 then BadContents
    else
      var n := DecodeFixed(contents[|contents| - 4..]);
      if n > (|contents| - 4) / 4 then BadContents
      else if n == 0 then NoRestarts
      else Opened(|contents| - (1 + n) * 4, n)
  }

  lemma OpenEncoded(contents: bytes, l: Layout)
    requires Encodes(contents, l)
    ensures Open(contents) == Opened(l.offs[|l.offs| - 1], |l.restarts|)
  {
    EncodedShape(contents, l);
  }

  /** An iterator over the contents; none where the source gives an empty or an error iterator. */
  method NewIterator(less: Order, contents: bytes, ghost l: Layout) returns (it: Iter?, bad: bool)
    ensures it != null ==> fresh(it) && it.Valid() && it.less == less && it.contents == contents
    ensures it != null ==> it.layout == l && it.clean == Encodes(contents, l) && !it.corrupt
    ensures bad == Open(contents).BadContents?
    ensures Encodes(contents, l) ==> it != null && !bad
  {
    hide Encodes, Open;
    if Encodes(contents, l) {
      OpenEncoded(contents, l);
    }
    var shape := Open(contents);
    it, bad := null, shape.BadContents?;
    if shape.Opened? {
      it := new Iter(less, contents, shape.restarts, shape.numRestarts, l);
    }
  }

  // ---- Building, then reading ----

  method BuildBlock(less: Order, interval: nat, entries: seq<Pair>) returns (contents: bytes, ghost l: Layout)
    requires interval >= 1 && Ascending(less, entries)
    requires forall i :: 0 <= i < |entries| ==> |entries[i].key| < TWO_32 && |entries[i].value| < TWO_32
    ensures l.entries == entries && (|contents| < TWO_32 ==> Encodes(contents, l))
  {
    var b := new BlockBuilder(interval, less);
    for n := 0 to |entries|
      invariant b.Valid() && !b.finished && b.layout.entries == entries[..n] && b.less == less && fresh(b)
    {
      b.Add(entries[n].key, entries[n].value);
      assert entries[..n] + [entries[n]] == entries[..n + 1];
    }
    l := b.layout;
    contents := b.Finish();
  }

  /**
   Whatever ascending entries are added with whatever restart interval, walking the finished
   bytes forward gives exactly those entries, and walking back gives them in reverse.
   */
  method BlockRoundTrip(less: Order, interval: nat, entries: seq<Pair>)
    returns (size: nat, forward: seq<Pair>, backward: seq<Pair>)
    requires interval >= 1 && Ascending(less, entries)
    requires forall i :: 0 <= i < |entries| ==> |entries[i].key| < TWO_32 && |entries[i].value| < TWO_32
    ensures size < TWO_32 ==> forward == backward == entries
  {
    var contents;
    ghost var l;
    contents, l := BuildBlock(less, interval, entries);
    var it, bad := NewIterator(less, contents, l);
    size, forward, backward := |contents|, [], [];
    if size < TWO_32 {
      forward := ReadForward(it);
      backward := ReadBackward(it);
    }
  }

  method ReadForward(it: Iter) returns (read: seq<Pair>)
    requires it.Valid() && it.clean
    modifies it
    ensures it.Valid() && read == it.layout.entries
  {
    hide Encodes;
    read := [];
    it.SeekToFirst();
    while it.IsValid()
      invariant it.Valid() && it.pos <= |it.layout.entries| && read == it.layout.entries[..it.pos]
      decreases |it.layout.entries| - it.pos
    {
      var k := it.Key();
      var v := it.Value();
      read := read + [Pair(k, v)];
      it.Next();
    }
  }

  method ReadBackward(it: Iter) returns (read: seq<Pair>)
    requires it.Valid() && it.clean
    modifies it
    ensures it.Valid() && read == it.layout.entries
  {
    hide Encodes;
    read := [];
    ghost var n := |it.layout.entries|;
    ghost var left: nat := n;
    it.SeekToLast();
    while it.IsValid()
      invariant it.Valid() && left <= n && read == it.layout.entries[left..]
      invariant it.pos == PrevPos(n, left)
      decreases left
    {
      var k := it.Key();
      var v := it.Value();
      read := [Pair(k, v)] + read;
      left := left - 1;
      it.Prev();
    }
  }
}
