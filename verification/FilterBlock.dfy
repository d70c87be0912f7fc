/**
 The filter block of a table: one filter for every 2KB of file offsets, with an offset array
 that doubles as its own sentinel (table/filter_block.cc).
 */
module FilterBlock {
  import opened Coding
  import opened Bloom
  import opened ByteKeys
  import Table

  const BASE_LG: byte := 11
  const BASE: nat := 2048

  /** Every key of the group matches its filter. */
  ghost predicate Covers(hash: Hash, group: seq<bytes>, filter: bytes) {
    forall key :: key in group ==> MayMatch(hash, key, filter)
  }

  /** The end of filter `i`: the start of the next one, or the end of all. */
  function LimitOf(offsets: seq<nat>, end: nat, i: nat): nat
    requires i < |offsets|
  {
    if i + 1 < |offsets| then offsets[i + 1] else end
  }

  /** Each finished group has its filter between two offsets. */
  ghost predicate FiltersOk(hash: Hash, result: bytes, offsets: seq<nat>, groups: seq<seq<bytes>>) {
    && |groups| == |offsets|
    && (forall i :: 0 <= i < |offsets| ==> offsets[i] <= LimitOf(offsets, |result|, i) <= |result|)
    && (forall i :: 0 <= i < |offsets| && groups[i] != [] ==>
          offsets[i] < LimitOf(offsets, |result|, i)
          && Covers(hash, groups[i], result[offsets[i]..LimitOf(offsets, |result|, i)]))
  }

  class FilterBlockBuilder {
    const policy: BloomFilterPolicy
    /** Keys of the group being gathered, flattened, and where each starts. */
    var keys: bytes
    var start: seq<nat>
    var result: bytes
    var filterOffsets: seq<nat>

    ghost var groups: seq<seq<bytes>>
    ghost var current: seq<bytes>
    /** The offset of the block being filled, and every key added with the offset of its block. */
    ghost var blockOffset: nat
    ghost var recorded: set<(nat, bytes)>

    ghost predicate Valid()
      reads this
    {
      && 1 <= policy.probes <= MAX_PROBES
      && FiltersOk(policy.hash, result, filterOffsets, groups)
      && Flattened(keys, start, current) && Filed(recorded, groups, current)
    }

    constructor (policy: BloomFilterPolicy)
      requires 1 <= policy.probes <= MAX_PROBES
      ensures Valid() && this.policy == policy && InBlock() && recorded == {} && blockOffset == 0
    {
      this.policy := policy;
      keys, start, result, filterOffsets, groups, current := [], [], [], [], [], [];
      blockOffset, recorded := 0, {};
    }

    /** Keys added now go to the filter of the current block offset. */
    ghost predicate InBlock()
      reads this
    {
      |filterOffsets| == blockOffset / BASE
    }

    /** Go on to the block at an offset, finishing every filter before its own. */
    method StartBlock(offset: nat)
      requires Valid() && offset / BASE >= |filterOffsets|
      modifies this
      ensures Valid() && InBlock() && blockOffset == offset && recorded == old(recorded)
    {
      var filterIndex := offset / BASE;
      blockOffset := offset;
      while filterIndex > |filterOffsets|
        invariant Valid() && |filterOffsets| <= filterIndex
        invariant blockOffset == offset && recorded == old(recorded)
        decreases filterIndex - |filterOffsets|
      {
        GenerateFilter();
      }
    }

    method AddKey(key: bytes)
      requires Valid() && InBlock()
      modifies this
      ensures Valid() && InBlock() && blockOffset == old(blockOffset)
      ensures recorded == old(recorded) + {(blockOffset, key)}
    {
      FlattenMore(keys, start, current, key);
      start := start + [|keys|];
      keys := keys + key;
      current := current + [key];
      recorded := recorded + {(blockOffset, key)};
    }

    method GenerateFilter()
      requires Valid()
      modifies this
      ensures Valid() && groups == old(groups) + [old(current)] && current == []
      ensures |filterOffsets| == |old(filterOffsets)| + 1 && blockOffset == old(blockOffset) && recorded == old(recorded)
    {
      FiledOn(recorded, groups, current);
      EmptyFlat(keys, start, current);
      hide Flattened, Filed, FiltersOk;
      if |start| == 0 {
        EmptyFilter(policy.hash, result, filterOffsets, groups);
        filterOffsets := filterOffsets + [|result|];
        groups, current := groups + [[]], [];
        return;
      }
      var tmpKeys := Unflatten(keys, start, current);
      ghost var was, offsets := result, filterOffsets;
      filterOffsets := filterOffsets + [|result|];
      result := policy.CreateFilter(tmpKeys, result);
      OneMoreFilter(policy.hash, was, result, offsets, groups, current);
      groups := groups + [current];
      keys, start, current := [], [], [];
    }

    /** The offsets, where they start, and the encoding parameter. */
    method Finish() returns (contents: bytes)
      requires Valid()
      modifies this
      ensures Valid() && recorded == old(recorded)
      ensures forall p :: p in recorded ==> p.0 / BASE < |groups| && p.1 in groups[p.0 / BASE]
      ensures |contents| < TWO_32 ==> Encodes(policy.hash, contents, filterOffsets, groups)
    {
      hide FiltersOk, OffsetBytes, Fixed;
      if |start| != 0 {
        GenerateFilter();
      }
      var arrayOffset := |result|;
      var offsets := OffsetArray(filterOffsets);
      contents := result + offsets + Fixed(arrayOffset, 4);
      contents := contents + [BASE_LG];
      assert contents[..arrayOffset] == result;
    }
  }

  /** Each recorded key is in the group of its offset, finished or not. */
  ghost predicate Filed(recorded: set<(nat, bytes)>, groups: seq<seq<bytes>>, current: seq<bytes>) {
    forall p :: p in recorded ==> p.0 / BASE <= |groups| && p.1 in (groups + [current])[p.0 / BASE]
  }

  function OffsetBytes(offsets: seq<nat>): (r: bytes)
    ensures |r| == 4 * |offsets|
  {
    if offsets == [] then [] else OffsetBytes(offsets[..|offsets| - 1]) + Fixed(offsets[|offsets| - 1], 4)
  }

  method OffsetArray(offsets: seq<nat>) returns (r: bytes)
    ensures r == OffsetBytes(offsets)
  {
    r := [];
    for i := 0 to |offsets|
      invariant r == OffsetBytes(offsets[..i])
    {
      assert offsets[..i + 1][..i] == offsets[..i];
      r := r + Fixed(offsets[i], 4);
    }
    assert offsets[..|offsets|] == offsets;
  }

  ghost predicate Encodes(hash: Hash, contents: bytes, offsets: seq<nat>, groups: seq<seq<bytes>>) {
    exists end: nat :: end <= |contents| && FiltersOk(hash, contents[..end], offsets, groups) && |contents| < TWO_32
                       && contents == contents[..end] + OffsetBytes(offsets) + Fixed(end, 4) + [BASE_LG]
  }

  /** The flattened keys, cut at their starts, are the keys added. */
  ghost predicate Flattened(keys: bytes, start: seq<nat>, current: seq<bytes>) {
    && |start| == |current|
    && forall i :: 0 <= i < |start| ==>
         start[i] <= LimitOf(start, |keys|, i) <= |keys| && keys[start[i]..LimitOf(start, |keys|, i)] == current[i]
  }

  lemma FlattenMore(keys: bytes, start: seq<nat>, current: seq<bytes>, key: bytes)
    requires Flattened(keys, start, current)
    ensures Flattened(keys + key, start + [|keys|], current + [key])
  {
    var keys', start' := keys + key, start + [|keys|];
    forall i | 0 <= i < |start'|
      ensures start'[i] <= LimitOf(start', |keys'|, i) <= |keys'|
      ensures keys'[start'[i]..LimitOf(start', |keys'|, i)] == (current + [key])[i]
    {
      if i < |start| {
        assert LimitOf(start', |keys'|, i) == LimitOf(start, |keys|, i);
        assert keys'[start[i]..LimitOf(start, |keys|, i)] == keys[start[i]..LimitOf(start, |keys|, i)];
      }
    }
  }

  /** Before any key and after every filter nothing is pending. */
  lemma EmptyFlat(keys: bytes, start: seq<nat>, current: seq<bytes>)
    requires Flattened(keys, start, current)
    ensures start == [] ==> current == [] && Flattened(keys, [], [])
    ensures Flattened([], [], [])
  {
  }

  lemma FiledOn(recorded: set<(nat, bytes)>, groups: seq<seq<bytes>>, current: seq<bytes>)
    requires Filed(recorded, groups, current)
    ensures Filed(recorded, groups + [current], [])
  {
  }

  lemma EmptyFilter(hash: Hash, result: bytes, offsets: seq<nat>, groups: seq<seq<bytes>>)
    requires FiltersOk(hash, result, offsets, groups)
    ensures FiltersOk(hash, result, offsets + [|result|], groups + [[]])
  {
  }

  lemma FlatPart(keys: bytes, start: seq<nat>, current: seq<bytes>, i: nat)
    requires Flattened(keys, start, current) && i < |start|
    ensures start[i] <= LimitOf(start, |keys|, i) <= |keys| && keys[start[i]..LimitOf(start, |keys|, i)] == current[i]
  {
  }

  lemma NextStart(start: seq<nat>, end: nat, i: nat)
    requires i < |start|
    ensures (start + [end])[i] == start[i] && (start + [end])[i + 1] == LimitOf(start, end, i)
  {
  }

  lemma OneMoreKey(keys: seq<bytes>, i: nat)
    requires i < |keys|
    ensures keys[..i + 1] == keys[..i] + [keys[i]]
  {
  }

  method Unflatten(keys: bytes, start0: seq<nat>, ghost current: seq<bytes>) returns (tmpKeys: seq<bytes>)
    requires Flattened(keys, start0, current)
    ensures tmpKeys == current
  {
    assert |start0| == |current|;
    hide Flattened, LimitOf;
    var start := start0 + [|keys|];
    tmpKeys := [];
    for i := 0 to |start0|
      invariant tmpKeys == current[..i]
    {
      FlatPart(keys, start0, current, i);
      NextStart(start0, |keys|, i);
      OneMoreKey(current, i);
      tmpKeys := tmpKeys + [keys[start[i]..start[i + 1]]];
    }
  }

  lemma OneMoreFilter(hash: Hash, result: bytes, result': bytes, offsets: seq<nat>, groups: seq<seq<bytes>>, group: seq<bytes>)
    requires FiltersOk(hash, result, offsets, groups) && result <= result' && |result| < |result'|
    requires Covers(hash, group, result'[|result|..])
    ensures FiltersOk(hash, result', offsets + [|result|], groups + [group])
  {
    hide Covers;
    var offsets', groups' := offsets + [|result|], groups + [group];
    assert result'[|result|..|result'|] == result'[|result|..];
    forall i | 0 <= i < |offsets|
      ensures LimitOf(offsets', |result'|, i) == LimitOf(offsets, |result|, i)
      ensures result'[offsets[i]..LimitOf(offsets, |result|, i)] == result[offsets[i]..LimitOf(offsets, |result|, i)]
    {
    }
  }

  // ---- Reading ----

  function OffsetAt(contents: bytes, start: nat, i: nat): nat
    requires start + 4 * i + 4 <= |contents|
  {
    DecodeFixed(contents[start + 4 * i..start + 4 * i + 4])
  }

  lemma {:induction false} OffsetRead(offsets: seq<nat>, j: nat)
    requires j < |offsets| && forall i :: 0 <= i < |offsets| ==> offsets[i] < TWO_32
    ensures DecodeFixed(OffsetBytes(offsets)[4 * j..4 * j + 4]) == offsets[j]
  {
    var n := |offsets| - 1;
    if j == n {
      Fixed32RoundTrip(offsets[n]);
      assert OffsetBytes(offsets)[4 * j..4 * j + 4] == Fixed(offsets[n], 4);
    } else {
      OffsetRead(offsets[..n], j);
      assert OffsetBytes(offsets)[4 * j..4 * j + 4] == OffsetBytes(offsets[..n])[4 * j..4 * j + 4];
    }
  }

  /** Where the offset array starts, how many filters it has and what range each covers. */
  datatype Parsed = Parsed(offset: nat, num: nat, baseLg: nat)

  /** A malformed block has no filters. */
  function Parse(contents: bytes): (p: Parsed)
    ensures p.num > 0 ==> p.offset + 4 * p.num + 5 <= |contents|
  {
    var n := |contents|;
    if n < 5 then Parsed(0, 0, 0)
    else
      var lastWord := DecodeFixed(contents[n - 5..n - 1]);
      if lastWord > n - 5 then Parsed(0, 0, contents[n - 1])
      else Parsed(lastWord, (n - 5 - lastWord) / 4, contents[n - 1])
  }

  /** The answer of a filter block; errors are treated as potential matches. */
  predicate BlockMayMatch(hash: Hash, contents: bytes, blockOffset: nat, key: bytes) {
    var p := Parse(contents);
    var index := Shift(blockOffset, p.baseLg);
    if index >= p.num then true
    else
      var start, limit := OffsetAt(contents, p.offset, index), OffsetAt(contents, p.offset, index + 1);
      if start <= limit && limit <= p.offset then MayMatch(hash, key, contents[start..limit])
      else start != limit
  }

  class FilterBlockReader {
    const policy: BloomFilterPolicy
    const data: bytes
    var offset: nat
    var num: nat
    var baseLg: nat

    constructor (policy: BloomFilterPolicy, contents: bytes)
      ensures Valid() && this.policy == policy && this.data == contents
    {
      this.policy, data, offset, num, baseLg := policy, contents, 0, 0, 0;
      var n := |contents|;
      if n >= 5 {
        baseLg := contents[n - 1];
        var lastWord := DecodeFixed(contents[n - 5..n - 1]);
        if lastWord <= n - 5 {
          offset, num := lastWord, (n - 5 - lastWord) / 4;
        }
      }
    }

    ghost predicate Valid()
      reads this
    {
      Parse(data) == Parsed(offset, num, baseLg)
    }

    method KeyMayMatch(blockOffset: nat, key: bytes) returns (r: bool)
      requires Valid()
      ensures r == BlockMayMatch(policy.hash, data, blockOffset, key)
    {
      hide MayMatch;
      var index := Shift(blockOffset, baseLg);
      if index < num {
        var start := OffsetAt(data, offset, index);
        var limit := OffsetAt(data, offset, index + 1);
        if start <= limit && limit <= offset {
          r := policy.KeyMayMatch(key, data[start..limit]);
          return;
        } else if start == limit {
          return false;
        }
      }
      r := true;
    }
  }

  lemma KeyMatches(hash: Hash, data: bytes, end: nat, offsets: seq<nat>, groups: seq<seq<bytes>>, i: nat, key: bytes)
    requires end <= |data| && FiltersOk(hash, data[..end], offsets, groups) && i < |groups| && key in groups[i]
    ensures |groups| == |offsets| && offsets[i] <= LimitOf(offsets, end, i) <= end
    ensures MayMatch(hash, key, data[offsets[i]..LimitOf(offsets, end, i)])
  {
    hide MayMatch;
    assert groups[i] != [];
    var limit := LimitOf(offsets, end, i);
    assert data[..end][offsets[i]..limit] == data[offsets[i]..limit];
  }

  /** A right shift, one bit at a time. */
  function Shift(n: nat, lg: nat): nat {
    if lg == 0 then n else Shift(n / 2, lg - 1)
  }

  lemma ShiftIsIndex(n: nat)
    ensures Shift(n, BASE_LG) == n / BASE
  {
    assert Shift(n, 11) == Shift(n / 4, 9);
    assert Shift(n / 4, 9) == Shift(n / 16, 7);
    assert Shift(n / 16, 7) == Shift(n / 64, 5);
    assert Shift(n / 64, 5) == Shift(n / 256, 3);
    assert Shift(n / 256, 3) == Shift(n / 1024, 1);
  }

  /** A finished block never turns away a key of the group its offset belongs to. */
  lemma NoFalseNegatives(hash: Hash, contents: bytes, offsets: seq<nat>, groups: seq<seq<bytes>>, blockOffset: nat, key: bytes)
    requires Encodes(hash, contents, offsets, groups)
    requires blockOffset / BASE < |groups| && key in groups[blockOffset / BASE]
    ensures BlockMayMatch(hash, contents, blockOffset, key)
  {
    var i := blockOffset / BASE;
    var end := EncodedEnd(hash, contents, offsets, groups);
    hide *;
    EncodedParts(contents, contents[..end], offsets);
    ParseEncoded(contents, contents[..end], offsets);
    KeyMatches(hash, contents, end, offsets, groups, i, key);
    ShiftIsIndex(blockOffset);
    LimitRead(contents, end, offsets, i);
    Answer(hash, contents, end, |offsets|, blockOffset, key, i, offsets[i], LimitOf(offsets, end, i));
  }

  lemma EncodedEnd(hash: Hash, contents: bytes, offsets: seq<nat>, groups: seq<seq<bytes>>) returns (end: nat)
    requires Encodes(hash, contents, offsets, groups)
    ensures end <= |contents| < TWO_32 && FiltersOk(hash, contents[..end], offsets, groups) && |groups| == |offsets|
    ensures contents == contents[..end] + OffsetBytes(offsets) + Fixed(end, 4) + [BASE_LG]
    ensures forall i :: 0 <= i < |offsets| ==> offsets[i] <= end
  {
    end :| end <= |contents| && FiltersOk(hash, contents[..end], offsets, groups) && |contents| < TWO_32
           && contents == contents[..end] + OffsetBytes(offsets) + Fixed(end, 4) + [BASE_LG];
  }

  lemma LimitRead(contents: bytes, end: nat, offsets: seq<nat>, i: nat)
    requires i < |offsets| && end + 4 * |offsets| + 4 <= |contents|
    requires forall j :: 0 <= j < |offsets| ==> OffsetAt(contents, end, j) == offsets[j]
    requires OffsetAt(contents, end, |offsets|) == end
    ensures OffsetAt(contents, end, i) == offsets[i] && OffsetAt(contents, end, i + 1) == LimitOf(offsets, end, i)
  {
    hide OffsetAt;
  }

  lemma Answer(hash: Hash, contents: bytes, end: nat, n: nat, blockOffset: nat, key: bytes, i: nat, start: nat, limit: nat)
    requires Parse(contents) == Parsed(end, n, BASE_LG) && i == Shift(blockOffset, BASE_LG) < n
    requires OffsetAt(contents, end, i) == start <= limit == OffsetAt(contents, end, i + 1) <= end <= |contents|
    requires MayMatch(hash, key, contents[start..limit])
    ensures BlockMayMatch(hash, contents, blockOffset, key)
  {
    hide MayMatch, OffsetAt, Shift;
  }

  lemma EncodedParts(contents: bytes, result: bytes, offsets: seq<nat>)
    requires |contents| < TWO_32 && forall i :: 0 <= i < |offsets| ==> offsets[i] <= |result|
    requires contents == result + OffsetBytes(offsets) + Fixed(|result|, 4) + [BASE_LG]
    ensures |contents| == |result| + 4 * |offsets| + 5 && contents[|contents| - 1] == BASE_LG
    ensures DecodeFixed(contents[|contents| - 5..|contents| - 1]) == |result|
    ensures forall i :: 0 <= i < |offsets| ==> OffsetAt(contents, |result|, i) == offsets[i]
    ensures OffsetAt(contents, |result|, |offsets|) == |result|
  {
    hide *;
    Tail(result, OffsetBytes(offsets), Fixed(|result|, 4), BASE_LG);
    SentinelAt(contents, result, offsets);
    forall i | 0 <= i < |offsets|
      ensures OffsetAt(contents, |result|, i) == offsets[i]
    {
      EntryAt(contents, result, offsets, i);
    }
  }

  lemma ParseEncoded(contents: bytes, result: bytes, offsets: seq<nat>)
    requires |contents| == |result| + 4 * |offsets| + 5 && contents[|contents| - 1] == BASE_LG
    requires DecodeFixed(contents[|contents| - 5..|contents| - 1]) == |result|
    ensures Parse(contents) == Parsed(|result|, |offsets|, BASE_LG)
  {
  }

  lemma EntryAt(contents: bytes, result: bytes, offsets: seq<nat>, i: nat)
    requires |contents| < TWO_32 && forall j :: 0 <= j < |offsets| ==> offsets[j] <= |result|
    requires contents == result + OffsetBytes(offsets) + Fixed(|result|, 4) + [BASE_LG] && i < |offsets|
    ensures OffsetAt(contents, |result|, i) == offsets[i]
  {
    hide OffsetBytes, Fixed, DecodeFixed, OffsetAt;
    OffsetRead(offsets, i);
    Regroup(result, OffsetBytes(offsets), Fixed(|result|, 4), [BASE_LG]);
    SliceDecodes(contents, result, OffsetBytes(offsets), Fixed(|result|, 4) + [BASE_LG], i);
  }

  lemma SliceDecodes(contents: bytes, a: bytes, b: bytes, c: bytes, i: nat)
    requires contents == a + b + c && 4 * i + 4 <= |b|
    ensures OffsetAt(contents, |a|, i) == DecodeFixed(b[4 * i..4 * i + 4])
  {
    hide DecodeFixed;
    InnerSlice(a, b, c, 4 * i, 4 * i + 4);
  }

  /** The array's own start serves as the limit of the last filter. */
  lemma SentinelAt(contents: bytes, result: bytes, offsets: seq<nat>)
    requires |contents| < TWO_32 && contents == result + OffsetBytes(offsets) + Fixed(|result|, 4) + [BASE_LG]
    ensures DecodeFixed(contents[|contents| - 5..|contents| - 1]) == |result|
    ensures OffsetAt(contents, |result|, |offsets|) == |result|
  {
    hide OffsetBytes, Fixed, DecodeFixed;
    Tail(result, OffsetBytes(offsets), Fixed(|result|, 4), BASE_LG);
    Fixed32RoundTrip(|result|);
  }

  lemma Tail(a: bytes, b: bytes, c: bytes, d: byte)
    requires |c| == 4
    ensures
      var s := a + b + c + [d];
      s[|s| - 5..|s| - 1] == c && s[|s| - 1] == d && s[|a| + |b|..|a| + |b| + 4] == c
  {
  }

  lemma Regroup(a: bytes, b: bytes, c: bytes, d: bytes)
    ensures a + b + c + d == a + b + (c + d)
  {
  }

  // ---- Whole runs ----

  datatype Op = StartBlock(offset: nat) | AddKey(key: bytes)

  ghost function OffsetAfter(ops: seq<Op>): nat {
    if ops == [] then 0
    else match ops[|ops| - 1]
      case StartBlock(offset) => offset
      case AddKey(_) => OffsetAfter(ops[..|ops| - 1])
  }

  /** Block offsets never fall back to an earlier filter. */
  ghost predicate Legal(ops: seq<Op>) {
    ops == [] || (Legal(ops[..|ops| - 1]) &&
      match ops[|ops| - 1]
      case StartBlock(offset) => offset / BASE >= OffsetAfter(ops[..|ops| - 1]) / BASE
      case AddKey(_) => true)
  }

  /** The keys added, each with the offset it was added under. */
  ghost function AddedBy(ops: seq<Op>): set<(nat, bytes)> {
    if ops == [] then {}
    else match ops[|ops| - 1]
      case StartBlock(_) => AddedBy(ops[..|ops| - 1])
      case AddKey(key) => AddedBy(ops[..|ops| - 1]) + {(OffsetAfter(ops[..|ops| - 1]), key)}
  }

  lemma {:induction false} LegalPrefix(ops: seq<Op>, k: nat)
    requires Legal(ops) && k <= |ops|
    ensures Legal(ops[..k])
  {
    if k < |ops| {
      LegalPrefix(ops[..|ops| - 1], k);
      assert ops[..|ops| - 1][..k] == ops[..k];
    } else {
      assert ops[..k] == ops;
    }
  }

  method ApplyOp(b: FilterBlockBuilder, op: Op)
    requires b.Valid() && b.InBlock() && (op.StartBlock? ==> op.offset / BASE >= b.blockOffset / BASE)
    modifies b
    ensures b.Valid() && b.InBlock()
    ensures b.blockOffset == if op.StartBlock? then op.offset else old(b.blockOffset)
    ensures b.recorded == if op.StartBlock? then old(b.recorded) else old(b.recorded) + {(b.blockOffset, op.key)}
  {
    match op
    case StartBlock(offset) => b.StartBlock(offset);
    case AddKey(key) => b.AddKey(key);
  }

  /** No false negatives: a key added under an offset is found under that offset. */
  method FilterRoundTrip(policy: BloomFilterPolicy, ops: seq<Op>, offset: nat, key: bytes)
    returns (size: nat, r: bool)
    requires 1 <= policy.probes <= MAX_PROBES && Legal(ops)
    ensures size < TWO_32 && (offset, key) in AddedBy(ops) ==> r
  {
    hide FiltersOk, Flattened, Filed, Encodes;
    var b := new FilterBlockBuilder(policy);
    assert ops[..0] == [];
    for n := 0 to |ops|
      invariant fresh(b) && b.policy == policy && b.Valid() && b.InBlock()
      invariant b.blockOffset == OffsetAfter(ops[..n]) && b.recorded == AddedBy(ops[..n])
    {
      assert ops[..n + 1][..n] == ops[..n];
      LegalPrefix(ops, n + 1);
      ApplyOp(b, ops[n]);
    }
    assert ops[..|ops|] == ops;
    var contents := b.Finish();
    size := |contents|;
    if size < TWO_32 && (offset, key) in b.recorded {
      NoFalseNegatives(policy.hash, contents, b.filterOffsets, b.groups, offset, key);
    }
    var reader := new FilterBlockReader(policy, contents);
    r := reader.KeyMayMatch(offset, key);
  }

  // ---- As the filter of a table ----

  /** The filter sees user keys only. */
  function TableFilter(hash: Hash, contents: bytes): (nat, bytes) -> bool {
    (offset: nat, key: bytes) => IsInternal(key) ==> BlockMayMatch(hash, contents, offset, UserKey(key))
  }

  /** With every key added under its block's offset, the filter is sound for lookups in the table. */
  lemma TableFilterIsSound(hash: Hash, contents: bytes, offsets: seq<nat>, groups: seq<seq<bytes>>,
                           blocks: seq<Table.DataBlock>, k: bytes)
    requires Encodes(hash, contents, offsets, groups) && Table.BlocksOk(blocks) && IsInternal(k)
    requires forall i, e :: 0 <= i < |blocks| && Table.In(blocks, i, e) ==>
               var o := blocks[i].handle.offset; o / BASE < |groups| && UserKey(e.key) in groups[o / BASE]
    ensures Table.FilterSound(blocks, TableFilter(hash, contents), k)
  {
    hide Encodes, BlockMayMatch;
    forall i, e | 0 <= i < |blocks| && Table.In(blocks, i, e) && UserKey(e.key) == UserKey(k)
      ensures BlockMayMatch(hash, contents, blocks[i].handle.offset, UserKey(k))
    {
      NoFalseNegatives(hash, contents, offsets, groups, blocks[i].handle.offset, UserKey(k));
    }
  }
}
