/**
 Writing a sorted table file: data blocks with their filters, index entries held back until the
 next key is known, the metaindex and index blocks and the footer (table/table_builder.cc).
 */
module TableWriter {
  import opened Coding
  import opened Crc
  import opened ByteKeys
  import opened BlockFormat
  import opened Table
  import opened TableFilters
  import Block
  import Bloom
  import FilterBlock

  /** The blocks written, and the one being filled if it holds anything. */
  ghost function All(blocks: seq<DataBlock>, l: Layout): seq<DataBlock> {
    if l.entries == [] then blocks else blocks + [DataBlock(Handle(0, 0), [], l)]
  }

  ghost function LastKey(blocks: seq<DataBlock>): bytes
    requires BlocksOk(blocks) && blocks != []
  {
    var es := blocks[|blocks| - 1].layout.entries;
    es[|es| - 1].key
  }

  /** An index key that still separates when `e` is added after block `i`. */
  ghost predicate Admits(blocks: seq<DataBlock>, i: nat, sep: bytes, e: Pair)
    requires i < |blocks|
  {
    && IsInternal(sep) && IsInternal(e.key) && InternalLess(sep, e.key)
    && ((exists x :: In(blocks, i, x) && sep == x.key) || ByteLess(UserKey(sep), UserKey(e.key)))
  }

  /** What the builder knows between two calls. */
  ghost predicate Consistent(blocks: seq<DataBlock>, l: Layout, index: seq<Pair>, pending: bool, lastKey: bytes) {
    var all := All(blocks, l);
    && BlocksOk(all) && |index| + (if pending then 1 else 0) == |blocks|
    && (forall i :: 0 <= i < |index| ==>
          index[i].value == HandleBytes(blocks[i].handle) && Separates(all, i, index[i].key))
    && (pending ==> l.entries == [] && blocks != [])
    && (all != [] ==> lastKey == LastKey(all))
  }

  /** Every entry is at or before the last one. */
  lemma LastIsGreatest(blocks: seq<DataBlock>, i: nat, x: Pair)
    requires BlocksOk(blocks) && i < |blocks| && In(blocks, i, x)
    ensures x.key == LastKey(blocks) || InternalLess(x.key, LastKey(blocks))
    ensures IsInternal(LastKey(blocks))
  {
    hide InternalLess;
    var n := |blocks| - 1;
    var es := blocks[n].layout.entries;
    assert In(blocks, n, es[|es| - 1]);
  }

  lemma AddToBlocks(blocks: seq<DataBlock>, l: Layout, l': Layout, e: Pair)
    requires BlocksOk(All(blocks, l)) && l'.entries == l.entries + [e] && IsInternal(e.key)
    requires All(blocks, l) != [] ==> InternalLess(LastKey(All(blocks, l)), e.key)
    ensures BlocksOk(All(blocks, l')) && LastKey(All(blocks, l')) == e.key
  {
    hide InternalLess;
    var all, all' := All(blocks, l), All(blocks, l');
    var n := |blocks|;
    forall i, x | 0 <= i < |all| && In(all, i, x)
      ensures InternalLess(x.key, e.key)
    {
      LastIsGreatest(all, i, x);
      if x.key != LastKey(all) {
        InternalLessTransitive(x.key, LastKey(all), e.key);
      }
    }
    forall x | x in l'.entries
      ensures x == e || (x in l.entries && In(all, n, x))
    {
    }
    forall i, j, x, y | 0 <= i < j < |all'| && In(all', i, x) && In(all', j, y)
      ensures InternalLess(x.key, y.key)
    {
      assert In(all, i, x);
      if j < n || y != e {
        assert In(all, j, y);
      }
    }
    assert forall x :: x in l.entries ==> In(all, n, x);
    AscendingMore(l.entries, e);
    forall i | 0 <= i < |all'|
      ensures all'[i].layout.entries != [] && Ascending(InternalLess, all'[i].layout.entries)
    {
      assert i < n ==> all'[i] == all[i];
    }
    forall i, x | 0 <= i < |all'| && In(all', i, x)
      ensures IsInternal(x.key)
    {
      if i < n || x != e {
        assert In(all, i, x);
      }
    }
  }

  lemma AscendingMore(entries: seq<Pair>, e: Pair)
    requires Ascending(InternalLess, entries) && forall x :: x in entries ==> InternalLess(x.key, e.key)
    ensures Ascending(InternalLess, entries + [e])
  {
  }

  /** An older index key admits the new entry, because entries already stand in between. */
  lemma OlderAdmits(all: seq<DataBlock>, i: nat, sep: bytes, e: Pair)
    requires BlocksOk(all) && i + 1 < |all| && Separates(all, i, sep) && IsInternal(e.key)
    requires InternalLess(LastKey(all), e.key)
    ensures Admits(all, i, sep, e)
  {
    var n := |all| - 1;
    var es := all[n].layout.entries;
    var y := es[|es| - 1];
    assert In(all, n, y);
    InternalLessTransitive(sep, y.key, e.key);
    ByteLessChain(UserKey(sep), UserKey(y.key), UserKey(e.key));
  }

  lemma AdmitsKeeps(blocks: seq<DataBlock>, l: Layout, l': Layout, i: nat, sep: bytes, e: Pair)
    requires i < |blocks| && l'.entries == l.entries + [e] && Separates(All(blocks, l), i, sep)
    requires Admits(All(blocks, l), i, sep, e)
    ensures Separates(All(blocks, l'), i, sep)
  {
    hide InternalLess, ByteLess;
    var all, all' := All(blocks, l), All(blocks, l');
    forall x
      ensures In(all', i, x) <==> In(all, i, x)
    {
    }
    forall j, x | i < j < |all'| && In(all', j, x)
      ensures x == e || (j < |all| && In(all, j, x))
    {
    }
  }

  /** The last index key lets the next entry follow, where it is the entry's only predecessor. */
  ghost predicate NextAdmitted(blocks: seq<DataBlock>, l: Layout, index: seq<Pair>, e: Pair) {
    l.entries == [] && blocks != [] && |index| == |blocks| ==> Admits(blocks, |blocks| - 1, index[|blocks| - 1].key, e)
  }

  lemma AddEntry(blocks: seq<DataBlock>, l: Layout, l': Layout, index: seq<Pair>, lastKey: bytes, e: Pair)
    requires Consistent(blocks, l, index, false, lastKey) && l'.entries == l.entries + [e] && IsInternal(e.key)
    requires All(blocks, l) != [] ==> InternalLess(lastKey, e.key)
    requires NextAdmitted(blocks, l, index, e)
    ensures Consistent(blocks, l', index, false, e.key)
  {
    hide InternalLess, Separates, Admits;
    AddToBlocks(blocks, l, l', e);
    forall i | 0 <= i < |index|
      ensures Separates(All(blocks, l'), i, index[i].key)
    {
      if i + 1 < |All(blocks, l)| {
        OlderAdmits(All(blocks, l), i, index[i].key, e);
      }
      AdmitsKeeps(blocks, l, l', i, index[i].key, e);
    }
  }

  lemma NotLessBack(x: bytes, last: bytes, sep: bytes)
    requires IsInternal(x) && IsInternal(last) && IsInternal(sep)
    requires (x == last || InternalLess(x, last)) && (sep == last || InternalLess(last, sep))
    ensures !InternalLess(sep, x)
  {
    InternalLessTotal(x, sep);
    if x != sep && x != last && last != sep {
      InternalLessTransitive(x, last, sep);
    }
  }

  /** The held-back index entry of the last block. */
  lemma AddIndexEntry(blocks: seq<DataBlock>, l: Layout, index: seq<Pair>, lastKey: bytes, sep: bytes, value: bytes)
    requires Consistent(blocks, l, index, true, lastKey) && IsInternal(sep)
    requires sep == lastKey || InternalLess(lastKey, sep)
    requires value == HandleBytes(blocks[|blocks| - 1].handle)
    ensures Consistent(blocks, l, index + [Pair(sep, value)], false, lastKey)
    ensures index != [] ==> InternalLess(index[|index| - 1].key, sep)
    ensures exists x :: In(blocks, |blocks| - 1, x) && x.key == lastKey
  {
    hide InternalLess, ByteLess;
    LastBlockSeparates(blocks, lastKey, sep);
    if index != [] {
      NextIndexKey(blocks, l, index, lastKey, sep);
    }
    PendingMeans(blocks, l, index, true, lastKey);
    hide InternalLess, ByteLess, Separates, BlocksOk, HandleBytes;
    assert All(blocks, l) == blocks;
    var index' := index + [Pair(sep, value)];
    forall i | 0 <= i < |index'|
      ensures index'[i].value == HandleBytes(blocks[i].handle) && Separates(blocks, i, index'[i].key)
    {
      assert i < |index| ==> index'[i] == index[i];
    }
  }

  lemma LastBlockSeparates(blocks: seq<DataBlock>, lastKey: bytes, sep: bytes)
    requires BlocksOk(blocks) && blocks != [] && lastKey == LastKey(blocks) && IsInternal(sep)
    requires sep == lastKey || InternalLess(lastKey, sep)
    ensures Separates(blocks, |blocks| - 1, sep)
  {
    hide InternalLess, ByteLess;
    var n := |blocks| - 1;
    var es := blocks[n].layout.entries;
    assert In(blocks, n, es[|es| - 1]);
    forall x | In(blocks, n, x)
      ensures !InternalLess(sep, x.key)
    {
      LastIsGreatest(blocks, n, x);
      NotLessBack(x.key, lastKey, sep);
    }
  }

  lemma NextIndexKey(blocks: seq<DataBlock>, l: Layout, index: seq<Pair>, lastKey: bytes, sep: bytes)
    requires Consistent(blocks, l, index, true, lastKey) && index != [] && IsInternal(sep)
    requires sep == lastKey || InternalLess(lastKey, sep)
    ensures InternalLess(index[|index| - 1].key, sep)
  {
    hide InternalLess, ByteLess;
    var n := |blocks| - 1;
    var es := blocks[n].layout.entries;
    assert In(blocks, n, es[|es| - 1]);
    assert Separates(blocks, n - 1, index[n - 1].key);
    if sep != lastKey {
      InternalLessTransitive(index[n - 1].key, lastKey, sep);
    }
  }

  /** Nothing but the entries of the blocks matters to their order. */
  ghost predicate SameEntries(a: seq<DataBlock>, b: seq<DataBlock>) {
    |a| == |b| && forall i :: 0 <= i < |a| ==> a[i].layout.entries == b[i].layout.entries
  }

  lemma SameOrder(a: seq<DataBlock>, b: seq<DataBlock>)
    requires SameEntries(a, b) && BlocksOk(a)
    ensures BlocksOk(b)
  {
    hide InternalLess;
    assert forall i, x :: 0 <= i < |a| && In(b, i, x) ==> In(a, i, x);
  }

  lemma SameSeparation(a: seq<DataBlock>, b: seq<DataBlock>, i: nat, sep: bytes)
    requires SameEntries(a, b) && i < |a| && Separates(a, i, sep)
    ensures Separates(b, i, sep)
  {
    hide InternalLess, ByteLess;
    assert forall j, x :: 0 <= j < |a| ==> In(b, j, x) == In(a, j, x);
  }

  /** A filled block is written and leaves an index entry pending. */
  lemma CloseBlock(blocks: seq<DataBlock>, l: Layout, index: seq<Pair>, lastKey: bytes, b: DataBlock, empty: Layout)
    requires Consistent(blocks, l, index, false, lastKey) && l.entries != [] && b.layout == l && empty.entries == []
    ensures Consistent(blocks + [b], empty, index, true, lastKey)
  {
    hide InternalLess, ByteLess, Separates, BlocksOk;
    var all, all' := All(blocks, l), blocks + [b];
    SameOrder(all, all');
    forall i | 0 <= i < |index|
      ensures Separates(all', i, index[i].key)
    {
      SameSeparation(all, all', i, index[i].key);
    }
  }

  /** The finished index is in order. */
  lemma IndexAscends(blocks: seq<DataBlock>, index: seq<Pair>)
    requires BlocksOk(blocks) && |index| == |blocks|
    requires forall i :: 0 <= i < |index| ==> Separates(blocks, i, index[i].key)
    ensures Ascending(InternalLess, index)
  {
    forall i, j | 0 <= i < j < |index|
      ensures InternalLess(index[i].key, index[j].key)
    {
      var y := blocks[j].layout.entries[0];
      assert In(blocks, j, y);
      assert Separates(blocks, i, index[i].key) && Separates(blocks, j, index[j].key);
      InternalLessTotal(y.key, index[j].key);
      if y.key != index[j].key {
        InternalLessTransitive(index[i].key, y.key, index[j].key);
      }
    }
  }

  lemma StillStored(crc: Checksum, file: bytes, more: bytes, b: DataBlock)
    requires BlockStored(crc, file, b)
    ensures BlockStored(crc, file + more, b)
  {
    hide Encodes, RawBlock;
    var a, z := b.handle.offset, b.handle.offset + b.handle.size + TRAILER_SIZE;
    SameSlice(file, more, a, z);
  }

  // ---- All entries in order ----

  ghost function Flat(blocks: seq<DataBlock>): seq<Pair> {
    if blocks == [] then [] else Flat(blocks[..|blocks| - 1]) + blocks[|blocks| - 1].layout.entries
  }

  lemma {:induction false} FlatHolds(blocks: seq<DataBlock>, e: Pair)
    ensures e in Flat(blocks) <==> Holds(blocks, e)
  {
    if blocks != [] {
      var n := |blocks| - 1;
      FlatHolds(blocks[..n], e);
      assert forall i :: 0 <= i < n ==> In(blocks[..n], i, e) == In(blocks, i, e);
      assert In(blocks, n, e) <==> e in blocks[n].layout.entries;
    }
  }

  lemma AddedAre(blocks: seq<DataBlock>, l: Layout, added: seq<Pair>)
    requires l.entries == [] && Flat(All(blocks, l)) == added
    ensures forall e :: Holds(blocks, e) <==> e in added
  {
    forall e
      ensures Holds(blocks, e) <==> e in Flat(blocks)
    {
      FlatHolds(blocks, e);
    }
  }

  lemma FlatMore(blocks: seq<DataBlock>, l: Layout, l': Layout, e: Pair)
    requires l'.entries == l.entries + [e]
    ensures Flat(All(blocks, l')) == Flat(All(blocks, l)) + [e]
  {
    var b, b' := DataBlock(Handle(0, 0), [], l), DataBlock(Handle(0, 0), [], l');
    assert (blocks + [b])[..|blocks|] == blocks && (blocks + [b'])[..|blocks|] == blocks;
  }

  lemma FlatClosed(blocks: seq<DataBlock>, l: Layout, b: DataBlock, empty: Layout)
    requires l.entries != [] && b.layout == l && empty.entries == []
    ensures Flat(All(blocks + [b], empty)) == Flat(All(blocks, l))
  {
    assert (blocks + [b])[..|blocks|] == blocks;
    assert (blocks + [DataBlock(Handle(0, 0), [], l)])[..|blocks|] == blocks;
  }

  // ---- The builder ----

  /** Every block fits its 32-bit offsets and the file its 64-bit handles. */
  ghost predicate Small(file: bytes, blocks: seq<DataBlock>) {
    |file| < TWO_64 && forall i :: 0 <= i < |blocks| ==> |blocks[i].contents| < TWO_32
  }

  /** No block is longer than the file it is in. */
  ghost predicate Inside(file: bytes, blocks: seq<DataBlock>) {
    forall i :: 0 <= i < |blocks| ==> |blocks[i].contents| <= |file|
  }

  class TableBuilder {
    const crc: Checksum
    const blockSize: nat
    var file: bytes
    const dataBlock: BlockBuilder
    const indexBlock: BlockBuilder
    /** None without a filter policy; `name` is the policy's name. */
    const filterBlock: FilterBlock.FilterBlockBuilder?
    const name: bytes
    var lastKey: bytes
    var pendingIndexEntry: bool
    var pendingHandle: Handle
    var closed: bool

    ghost var blocks: seq<DataBlock>
    ghost var added: seq<Pair>

    /** Between two calls a block without an index entry is the only one. */
    ghost predicate Valid()
      reads this, dataBlock, indexBlock, filterBlock
    {
      && Loose() && Filed()
      && (!closed && !pendingIndexEntry && dataBlock.layout.entries == [] ==> blocks == [])
    }

    /** The filter builder stands at the end of the file and has every key under its block's offset. */
    ghost predicate Filed()
      reads this, dataBlock, filterBlock
    {
      filterBlock != null && !closed ==>
        && filterBlock.Valid() && filterBlock.InBlock() && filterBlock.blockOffset == |file|
        && Placed(filterBlock.recorded, blocks, dataBlock.layout, |file|)
    }

    ghost predicate Loose()
      reads this, dataBlock, indexBlock
    {
      && dataBlock != indexBlock && dataBlock.Valid() && indexBlock.Valid()
      && dataBlock.less == InternalLess && indexBlock.less == InternalLess
      && (!closed ==>
            && !dataBlock.finished && !indexBlock.finished && |lastKey| < TWO_32
            && Consistent(blocks, dataBlock.layout, indexBlock.layout.entries, pendingIndexEntry, lastKey)
            && (pendingIndexEntry ==> pendingHandle == blocks[|blocks| - 1].handle)
            && Inside(file, blocks)
            && (Small(file, blocks) ==> forall i :: 0 <= i < |blocks| ==> BlockStored(crc, file, blocks[i]))
            && Flat(All(blocks, dataBlock.layout)) == added)
    }

    constructor (crc: Checksum, blockSize: nat, interval: nat, policy: Bloom.BloomFilterPolicy?, name: bytes)
      requires interval >= 1 && (policy != null ==> 1 <= policy.probes <= Bloom.MAX_PROBES)
      ensures Valid() && this.crc == crc && this.name == name && !closed && added == [] && file == []
      ensures fresh(dataBlock) && fresh(indexBlock) && (filterBlock == null <==> policy == null)
      ensures filterBlock != null ==> fresh(filterBlock) && filterBlock.policy == policy
    {
      hide BuilderOk, FilterBlock.FiltersOk, FilterBlock.Flattened, FilterBlock.Filed, Consistent, Placed, Inside, Flat, All;
      this.crc, this.blockSize, this.name, file := crc, blockSize, name, [];
      var d := new BlockBuilder(interval, InternalLess);
      var i := new BlockBuilder(1, InternalLess);
      dataBlock, indexBlock := d, i;
      var f: FilterBlock.FilterBlockBuilder? := null;
      if policy != null {
        f := new FilterBlock.FilterBlockBuilder(policy);
        f.StartBlock(0);
      }
      filterBlock := f;
      lastKey, pendingIndexEntry, pendingHandle, closed := [], false, Handle(0, 0), false;
      blocks, added := [], [];
      NothingWritten(d.layout, i.layout);
    }

    /** Append contents and trailer; the handle says where they are. */
    method WriteRawBlock(contents: bytes) returns (h: Handle)
      modifies this`file
      ensures file == old(file) + RawBlock(crc, contents) && |contents| <= |file|
      ensures h.offset == |old(file)| % TWO_64 && (|file| < TWO_64 ==> StoredAt(crc, file, h, contents))
    {
      hide RawBlock;
      h := Handle(|file| % TWO_64, |contents| % TWO_64);
      ghost var before := file;
      file := file + RawBlock(crc, contents);
      assert file[|before|..] == RawBlock(crc, contents);
    }

    /** Give the last block its index entry. */
    method EmitIndexEntry(sep: bytes)
      requires Valid() && !closed && pendingIndexEntry && IsInternal(sep) && |sep| < TWO_32
      requires sep == lastKey || InternalLess(lastKey, sep)
      modifies this`pendingIndexEntry, indexBlock
      ensures Loose() && Filed() && !pendingIndexEntry
      ensures indexBlock.layout.entries == old(indexBlock.layout.entries) + [Pair(sep, HandleBytes(pendingHandle))]
      ensures exists x :: In(blocks, |blocks| - 1, x) && x.key == lastKey
    {
      hide InternalLess, BuilderOk, Consistent, Flat, All, BlockStored, Small, HandleBytes, Placed, Inside;
      hide FilterBlock.FiltersOk, FilterBlock.Flattened, FilterBlock.Filed;
      PendingMeans(blocks, dataBlock.layout, indexBlock.layout.entries, pendingIndexEntry, lastKey);
      AddIndexEntry(blocks, dataBlock.layout, indexBlock.layout.entries, lastKey, sep, HandleBytes(pendingHandle));
      HandleLimit(pendingHandle);
      indexBlock.Add(sep, HandleBytes(pendingHandle));
      pendingIndexEntry := false;
    }

    /** Write the data block out and leave its index entry pending; later keys go to the next filter offset. */
    method Flush()
      requires Valid() && !closed
      modifies this, dataBlock, filterBlock
      ensures Valid() && !closed && added == old(added) && lastKey == old(lastKey)
      ensures dataBlock.layout.entries == []
      ensures old(dataBlock.layout.entries) == [] ==> blocks == old(blocks)
      ensures old(dataBlock.layout.entries) != [] ==>
                Closed(old(blocks), old(dataBlock.layout), |old(file)|, blocks)
                && |blocks[|old(blocks)|].contents| == old(dataBlock.CurrentSizeEstimate())
    {
      hide InternalLess, BuilderOk, Consistent, Flat, All, BlockStored, Small, Inside, Placed;
      if dataBlock.Empty() {
        return;
      }
      ghost var was, l, offset := blocks, dataBlock.layout, |file|;
      CloseData();
      if filterBlock != null {
        PlacedNext(filterBlock.recorded, was, l, offset, blocks, dataBlock.layout, |file|);
        filterBlock.StartBlock(|file|);
      }
    }

    /** The finished block, and the builder ready for the next. */
    method TakeBlock() returns (contents: bytes, ghost l: Layout)
      requires dataBlock.Valid() && !dataBlock.finished
      modifies dataBlock
      ensures dataBlock.Valid() && !dataBlock.finished && dataBlock.layout.entries == [] && l == old(dataBlock.layout)
      ensures |contents| < TWO_32 ==> Encodes(contents, l)
      ensures |contents| == old(dataBlock.CurrentSizeEstimate())
    {
      hide Encodes, BuilderOk;
      l := dataBlock.layout;
      contents := dataBlock.Finish();
      dataBlock.Reset();
    }

    method CloseData()
      requires Valid() && !closed && dataBlock.layout.entries != []
      modifies this`file, this`pendingHandle, this`pendingIndexEntry, this`blocks, dataBlock
      ensures Loose() && pendingIndexEntry && dataBlock.layout.entries == [] && |old(file)| <= |file|
      ensures Closed(old(blocks), old(dataBlock.layout), |old(file)|, blocks)
      ensures |blocks[|old(blocks)|].contents| == old(dataBlock.CurrentSizeEstimate())
    {
      hide InternalLess, BuilderOk, RawBlock, Encodes, Consistent, Flat, All, BlockStored, Small, StoredAt, Inside;
      hide FilterBlock.FiltersOk, FilterBlock.Flattened, FilterBlock.Filed, TableBuilder.Filed;
      PendingMeans(blocks, dataBlock.layout, indexBlock.layout.entries, pendingIndexEntry, lastKey);
      var contents;
      ghost var l;
      contents, l := TakeBlock();
      pendingHandle := WriteRawBlock(contents);
      pendingIndexEntry := true;
      ghost var b := DataBlock(pendingHandle, contents, l);
      CloseBlock(blocks, l, indexBlock.layout.entries, lastKey, b, dataBlock.layout);
      FlatClosed(blocks, l, b, dataBlock.layout);
      StoreMore(crc, old(file), RawBlock(crc, contents), blocks, b);
      InsideMore(old(file), RawBlock(crc, contents), blocks, b);
      blocks := blocks + [b];
    }

    method Add(key: bytes, value: bytes)
      requires Valid() && !closed && IsInternal(key) && |key| < TWO_32 && |value| < TWO_32
      requires added != [] ==> InternalLess(lastKey, key)
      modifies this, dataBlock, indexBlock, filterBlock
      ensures Valid() && !closed && added == old(added) + [Pair(key, value)] && lastKey == key
      ensures
        var l := old(dataBlock.layout.entries) + [Pair(key, value)];
        if dataBlock.layout.entries == [] then FullBlock(old(blocks), l, blockSize, blocks)
        else blocks == old(blocks) && dataBlock.layout.entries == l && dataBlock.CurrentSizeEstimate() < blockSize
    {
      hide InternalLess, NextAdmitted, FullBlock, TableBuilder.Loose, TableBuilder.Filed, TableBuilder.Valid;
      TwoBlocks(this);
      EmitPending(key, Pair(key, value));
      AddFilterKey(key);
      AddData(key, value);
      CutWhenFull();
    }

    /** Close the data block once it has reached the block size. */
    method CutWhenFull()
      requires Valid() && !closed && dataBlock.layout.entries != []
      modifies this, dataBlock, filterBlock
      ensures Valid() && !closed && added == old(added) && lastKey == old(lastKey)
      ensures
        if dataBlock.layout.entries == [] then FullBlock(old(blocks), old(dataBlock.layout).entries, blockSize, blocks)
        else blocks == old(blocks) && dataBlock.layout == old(dataBlock.layout) && dataBlock.CurrentSizeEstimate() < blockSize
    {
      hide TableBuilder.Loose, TableBuilder.Filed;
      var estimate := dataBlock.CurrentSizeEstimate();
      if estimate >= blockSize {
        Flush();
      }
    }

    /** Now that the next key is known, write the index entry held back. */
    method EmitPending(key: bytes, ghost e: Pair)
      requires Valid() && !closed && IsInternal(key) && |key| < TWO_32 && e.key == key
      requires added != [] ==> InternalLess(lastKey, key)
      modifies this`pendingIndexEntry, indexBlock
      ensures Loose() && Filed() && !pendingIndexEntry
      ensures NextAdmitted(blocks, dataBlock.layout, indexBlock.layout.entries, e)
    {
      hide InternalLess, ByteLess, BuilderOk, Admits, Consistent, Flat, BlocksOk, BlockStored, IsSeparator, Shortened;
      hide Placed, Small, Inside;
      PendingMeans(blocks, dataBlock.layout, indexBlock.layout.entries, pendingIndexEntry, lastKey);
      AddedSome(All(blocks, dataBlock.layout));
      if pendingIndexEntry {
        var sep := InternalSeparator(lastKey, key);
        SeparatorBetween(lastKey, key, sep);
        EmitIndexEntry(sep);
        SeparatorAdmits(blocks, lastKey, e, sep);
      }
    }

    /** The filter sees the user key, under the offset the block being filled will have. */
    method AddFilterKey(key: bytes)
      requires Loose() && Filed() && !closed && IsInternal(key)
      modifies filterBlock
      ensures Loose() && Filed() && (filterBlock != null ==> Recorded(filterBlock.recorded, |file|, key))
    {
      hide Consistent, BuilderOk, Flat, All, BlockStored, Small, Inside;
      if filterBlock != null {
        filterBlock.AddKey(UserKey(key));
      }
    }

    method AddData(key: bytes, value: bytes)
      requires Loose() && Filed() && !closed && !pendingIndexEntry
      requires IsInternal(key) && |key| < TWO_32 && |value| < TWO_32
      requires added != [] ==> InternalLess(lastKey, key)
      requires NextAdmitted(blocks, dataBlock.layout, indexBlock.layout.entries, Pair(key, value))
      requires filterBlock != null ==> Recorded(filterBlock.recorded, |file|, key)
      modifies this`lastKey, this`added, dataBlock
      ensures Valid() && !closed && added == old(added) + [Pair(key, value)] && lastKey == key
      ensures dataBlock.layout.entries == old(dataBlock.layout.entries) + [Pair(key, value)]
    {
      hide InternalLess, BuilderOk, RawBlock, Consistent, Flat, All, NextAdmitted, Placed, Small, Inside, BlockStored;
      ghost var e, l := Pair(key, value), dataBlock.layout;
      DataLast(blocks, l, indexBlock.layout.entries, lastKey);
      AddedSome(All(blocks, l));
      ghost var was := lastKey;
      lastKey := key;
      dataBlock.Add(key, value);
      added := added + [e];
      AddEntry(blocks, l, dataBlock.layout, indexBlock.layout.entries, was, e);
      FlatMore(blocks, l, dataBlock.layout, e);
      if filterBlock != null {
        PlacedMore(filterBlock.recorded, blocks, l, dataBlock.layout, |file|, e);
      }
    }

    /** Write the filter, metaindex and index blocks and the footer; the file is then a table of everything added. */
    method Finish(interval: nat) returns (ghost t: TableLayout, ghost m: MetaLayout)
      requires Valid() && !closed && interval >= 1 && |FilterKey(name)| < TWO_32
      modifies this, dataBlock, indexBlock, filterBlock
      ensures Valid() && closed && added == old(added)
      ensures forall e :: Holds(t.blocks, e) <==> e in added
      ensures Small(file, t.blocks + [t.index]) ==> TableOk(crc, file, t)
      ensures Inside(file, t.blocks + [t.index])
      ensures filterBlock != null && |file| < TWO_32 ==> MetaOk(crc, file, t, m, name, filterBlock.policy.hash)
    {
      hide TableBuilder.Loose, TableBuilder.Filed, Small, TableOk, Holds, Inside, FooterBytes, MetaStored, InGroups;
      CloseLast();
      var metaHandle;
      metaHandle, m := WriteMeta(interval);
      ghost var written := file;
      t := WriteIndex(metaHandle);
      if filterBlock != null && |file| < TWO_32 {
        MetaDone(crc, written, file, t, m, name, filterBlock.policy.hash);
      }
    }

    /** Write the last data block, and give it an index key past its last. */
    method CloseLast()
      requires Valid() && !closed
      modifies this, dataBlock, indexBlock, filterBlock
      ensures Loose() && Filed() && !closed && !pendingIndexEntry && dataBlock.layout.entries == [] && added == old(added)
    {
      hide InternalLess, Consistent, Flat, All, BlockStored, Small, Inside, BuilderOk, IsSuccessor, Shortened, Placed;
      Flush();
      if pendingIndexEntry {
        PendingMeans(blocks, dataBlock.layout, indexBlock.layout.entries, true, lastKey);
        var sep := InternalSuccessor(lastKey);
        EmitIndexEntry(sep);
      }
    }

    /** The filter block if there is a policy, and the metaindex block that names it. */
    method WriteMeta(interval: nat) returns (h: Handle, ghost m: MetaLayout)
      requires Loose() && Filed() && !closed && !pendingIndexEntry && dataBlock.layout.entries == []
      requires interval >= 1 && |FilterKey(name)| < TWO_32
      modifies this`file, filterBlock
      ensures Loose() && m.meta.handle == h
      ensures filterBlock != null && |file| < TWO_32 ==>
                MetaStored(crc, file, m, name, filterBlock.policy.hash) && InGroups(blocks, m.groups)
    {
      hide Consistent, Flat, All, BlockStored, Small, Inside, BuilderOk, FilterKey, HandleBytes;
      hide Placed, FilterBlock.Encodes, Encodes, RawBlock, StoredAt, InGroups;
      var filterHandle: Option<Handle> := None;
      ghost var contents: bytes, offsets: seq<nat>, groups: seq<seq<bytes>> := [], [], [];
      if filterBlock != null {
        var f;
        f, contents := WriteFilter();
        filterHandle, offsets, groups := Some(f), filterBlock.filterOffsets, filterBlock.groups;
      }
      ghost var meta, filtered := DataBlock(Handle(0, 0), [], dataBlock.layout), file;
      h, meta := WriteMetaIndex(interval, filterHandle);
      m := MetaLayout(meta, if filterHandle.Some? then filterHandle.value else Handle(0, 0), contents, offsets, groups);
      if filterBlock != null && |file| < TWO_32 {
        StoredOn(crc, filtered, file, m.handle, m.contents);
      }
    }

    /** The filter block: whatever the data blocks hold is in the group of its block's offset. */
    method WriteFilter() returns (h: Handle, ghost contents: bytes)
      requires Loose() && Filed() && !closed && !pendingIndexEntry && filterBlock != null && dataBlock.layout.entries == []
      modifies this`file, filterBlock
      ensures Loose() && |contents| <= |file|
      ensures |file| < TWO_64 ==> StoredAt(crc, file, h, contents) && InGroups(blocks, filterBlock.groups)
      ensures |contents| < TWO_32 ==>
                FilterBlock.Encodes(filterBlock.policy.hash, contents, filterBlock.filterOffsets, filterBlock.groups)
    {
      hide InternalLess, BuilderOk, RawBlock, Encodes, Consistent, Flat, All, BlockStored, Small, Placed, StoredAt, InGroups;
      hide FilterBlock.Encodes, FilterBlock.FiltersOk, FilterBlock.Flattened, FilterBlock.Filed, Inside;
      ghost var offset := |file|;
      var filters := filterBlock.Finish();
      contents := filters;
      StoreOn(crc, file, RawBlock(crc, filters), blocks);
      InsideOn(file, RawBlock(crc, filters), blocks);
      PlacedIn(filterBlock.recorded, blocks, dataBlock.layout, offset, filterBlock.groups);
      h := WriteRawBlock(filters);
    }

    /** The metaindex block; without a filter policy it names nothing. */
    method WriteMetaIndex(interval: nat, filterHandle: Option<Handle>) returns (h: Handle, ghost meta: DataBlock)
      requires Loose() && !closed && interval >= 1 && |FilterKey(name)| < TWO_32
      modifies this`file
      ensures Loose() && old(file) <= file && meta.handle == h && |meta.contents| <= |file|
      ensures meta.layout.entries ==
              if filterHandle.None? then [] else [Pair(FilterKey(name), HandleBytes(filterHandle.value))]
      ensures |file| < TWO_32 ==> BlockStored(crc, file, meta)
    {
      hide InternalLess, BuilderOk, RawBlock, Encodes, Consistent, Flat, All, Small, HandleBytes, FilterKey, StoredAt, Inside;
      var builder := new BlockBuilder(interval, InternalLess);
      if filterHandle.Some? {
        HandleLimit(filterHandle.value);
        builder.Add(FilterKey(name), HandleBytes(filterHandle.value));
      }
      ghost var l := builder.layout;
      var contents := builder.Finish();
      StoreOn(crc, file, RawBlock(crc, contents), blocks);
      InsideOn(file, RawBlock(crc, contents), blocks);
      h := WriteRawBlock(contents);
      meta := DataBlock(h, contents, l);
    }

    method WriteIndex(metaHandle: Handle) returns (ghost t: TableLayout)
      requires Loose() && !closed && !pendingIndexEntry && dataBlock.layout.entries == []
      modifies this`file, this`closed, indexBlock
      ensures Valid() && closed && t.blocks == blocks && old(file) <= file
      ensures |file| >= FOOTER_SIZE && file[|file| - FOOTER_SIZE..] == FooterBytes(metaHandle, t.index.handle)
      ensures forall e :: Holds(t.blocks, e) <==> e in added
      ensures Small(file, t.blocks + [t.index]) ==> TableOk(crc, file, t)
      ensures Inside(file, t.blocks + [t.index])
    {
      hide InternalLess, BuilderOk, RawBlock, Encodes, Consistent, Flat, All, BlockStored, Small, FooterBytes, TableOk, Holds, Inside, StoredAt;
      ghost var l, before := indexBlock.layout, file;
      var contents := indexBlock.Finish();
      var handle := WriteRawBlock(contents);
      t := TableLayout(blocks, DataBlock(handle, contents, l));
      TableWritten(crc, before, file, blocks, dataBlock.layout, lastKey, added, metaHandle, t);
      ghost var body := file;
      file := file + FooterBytes(metaHandle, handle);
      assert file[|body|..] == FooterBytes(metaHandle, handle);
      closed := true;
    }
  }

  lemma NothingWritten(l: Layout, index: Layout)
    requires l.entries == [] && index.entries == []
    ensures Consistent([], l, index.entries, false, []) && Inside([], []) && Flat(All([], l)) == []
    ensures Placed({}, [], l, 0)
  {
  }

  // ---- Keys in the filter ----

  ghost predicate Recorded(recorded: set<(nat, bytes)>, offset: nat, key: bytes) {
    IsInternal(key) ==> (offset, UserKey(key)) in recorded
  }

  /** Every key is recorded under the offset of its block, the open block's under the end of the file. */
  ghost predicate Placed(recorded: set<(nat, bytes)>, blocks: seq<DataBlock>, l: Layout, offset: nat) {
    && (offset < TWO_64 ==>
          forall i, e :: 0 <= i < |blocks| && In(blocks, i, e) ==> Recorded(recorded, blocks[i].handle.offset, e.key))
    && (forall e :: e in l.entries ==> Recorded(recorded, offset, e.key))
  }

  /** The open block was written at the end of the file. */
  ghost predicate Closed(was: seq<DataBlock>, l: Layout, offset: nat, now: seq<DataBlock>) {
    && |now| == |was| + 1 && now[..|was|] == was
    && now[|was|].layout == l && now[|was|].handle.offset == offset % TWO_64
  }

  lemma TwoBlocks(b: TableBuilder)
    requires b.Valid()
    ensures b.dataBlock != b.indexBlock
  {
  }

  /** One more block holds the entries, and it has the size for which blocks are closed. */
  ghost predicate FullBlock(was: seq<DataBlock>, entries: seq<Pair>, blockSize: nat, now: seq<DataBlock>) {
    && |now| == |was| + 1 && now[..|was|] == was
    && now[|was|].layout.entries == entries && |now[|was|].contents| >= blockSize
  }

  lemma PlacedNext(recorded: set<(nat, bytes)>, was: seq<DataBlock>, l: Layout, offset: nat,
                   now: seq<DataBlock>, empty: Layout, end: nat)
    requires Placed(recorded, was, l, offset) && Closed(was, l, offset, now) && empty.entries == [] && offset <= end
    ensures Placed(recorded, now, empty, end) && offset / FilterBlock.BASE <= end / FilterBlock.BASE
  {
    assert forall i :: 0 <= i < |was| ==> now[i] == was[i];
    assert forall i, e :: 0 <= i < |was| ==> In(now, i, e) == In(was, i, e);
  }

  lemma PlacedMore(recorded: set<(nat, bytes)>, blocks: seq<DataBlock>, l: Layout, l': Layout, offset: nat, e: Pair)
    requires Placed(recorded, blocks, l, offset) && l'.entries == l.entries + [e] && Recorded(recorded, offset, e.key)
    ensures Placed(recorded, blocks, l', offset)
  {
  }

  /** What was recorded and is in its group puts every key in the group of its block. */
  lemma PlacedIn(recorded: set<(nat, bytes)>, blocks: seq<DataBlock>, l: Layout, offset: nat, groups: seq<seq<bytes>>)
    requires Placed(recorded, blocks, l, offset)
    requires forall p :: p in recorded ==> p.0 / FilterBlock.BASE < |groups| && p.1 in groups[p.0 / FilterBlock.BASE]
    ensures offset < TWO_64 ==> InGroups(blocks, groups)
  {
  }

  lemma InsideOn(file: bytes, more: bytes, blocks: seq<DataBlock>)
    requires Inside(file, blocks)
    ensures Inside(file + more, blocks)
  {
  }

  lemma InsideMore(file: bytes, more: bytes, blocks: seq<DataBlock>, b: DataBlock)
    requires Inside(file, blocks) && |b.contents| <= |file + more|
    ensures Inside(file + more, blocks + [b])
  {
  }

  lemma StoredOn(crc: Checksum, file: bytes, longer: bytes, h: Handle, contents: bytes)
    requires StoredAt(crc, file, h, contents) && file <= longer
    ensures StoredAt(crc, longer, h, contents)
  {
    hide RawBlock;
    var a, z := h.offset, h.offset + h.size + TRAILER_SIZE;
    assert longer[a..z] == file[a..z];
  }

  /** The metaindex and the filter stay where they were written. */
  lemma MetaDone(crc: Checksum, written: bytes, file: bytes, t: TableLayout, m: MetaLayout, name: bytes,
                 hash: Bloom.Hash)
    requires written <= file && |file| >= FOOTER_SIZE
    requires MetaStored(crc, written, m, name, hash) && InGroups(t.blocks, m.groups)
    requires file[|file| - FOOTER_SIZE..] == FooterBytes(m.meta.handle, t.index.handle)
    ensures MetaOk(crc, file, t, m, name, hash)
  {
    hide FilterBlock.Encodes, Encodes, StoredAt, InGroups, FooterBytes, HandleBytes, FilterKey;
    StoredOn(crc, written, file, m.handle, m.contents);
    StoredOn(crc, written, file, m.meta.handle, m.meta.contents);
  }

  lemma PendingMeans(blocks: seq<DataBlock>, l: Layout, index: seq<Pair>, pending: bool, lastKey: bytes)
    requires Consistent(blocks, l, index, pending, lastKey)
    ensures BlocksOk(All(blocks, l)) && (l.entries != [] ==> !pending)
    ensures pending ==> blocks != [] && IsInternal(lastKey) && exists x :: In(blocks, |blocks| - 1, x) && x.key == lastKey
  {
    if pending {
      var es := blocks[|blocks| - 1].layout.entries;
      assert In(blocks, |blocks| - 1, es[|es| - 1]);
    }
  }

  lemma DataLast(blocks: seq<DataBlock>, l: Layout, index: seq<Pair>, lastKey: bytes)
    requires Consistent(blocks, l, index, false, lastKey)
    ensures |index| == |blocks| && BlocksOk(All(blocks, l))
    ensures l.entries != [] ==> lastKey == l.entries[|l.entries| - 1].key && All(blocks, l) != []
  {
  }

  lemma AddedSome(all: seq<DataBlock>)
    requires BlocksOk(all)
    ensures Flat(all) == [] <==> all == []
  {
  }

  lemma SeparatorBetween(start: bytes, limit: bytes, sep: bytes)
    requires InternalLess(start, limit) && IsInternal(sep)
    requires sep == start || (ByteLess(UserKey(start), UserKey(sep)) && ByteLess(UserKey(sep), UserKey(limit)))
    ensures sep == start || InternalLess(start, sep)
    ensures InternalLess(sep, limit)
  {
  }

  lemma SeparatorAdmits(blocks: seq<DataBlock>, start: bytes, e: Pair, sep: bytes)
    requires blocks != [] && IsInternal(sep) && IsInternal(e.key) && InternalLess(sep, e.key)
    requires exists x :: In(blocks, |blocks| - 1, x) && x.key == start
    requires sep == start || ByteLess(UserKey(sep), UserKey(e.key))
    ensures Admits(blocks, |blocks| - 1, sep, e)
  {
  }

  lemma StoreMore(crc: Checksum, file: bytes, more: bytes, blocks: seq<DataBlock>, b: DataBlock)
    requires Small(file, blocks) ==> forall i :: 0 <= i < |blocks| ==> BlockStored(crc, file, blocks[i])
    requires |file + more| < TWO_64 ==> StoredAt(crc, file + more, b.handle, b.contents)
    requires |b.contents| < TWO_32 ==> Encodes(b.contents, b.layout)
    ensures Small(file + more, blocks + [b]) ==>
              forall i :: 0 <= i < |blocks + [b]| ==> BlockStored(crc, file + more, (blocks + [b])[i])
  {
    hide Encodes, StoredAt;
    if Small(file + more, blocks + [b]) {
      assert |(blocks + [b])[|blocks|].contents| < TWO_32;
      assert forall i :: 0 <= i < |blocks| ==> blocks[i] == (blocks + [b])[i];
      forall i | 0 <= i < |blocks|
        ensures BlockStored(crc, file + more, blocks[i])
      {
        StillStored(crc, file, more, blocks[i]);
      }
    }
  }

  /** What is stored stays stored while the file grows. */
  lemma StoreOn(crc: Checksum, file: bytes, more: bytes, blocks: seq<DataBlock>)
    requires Small(file, blocks) ==> forall i :: 0 <= i < |blocks| ==> BlockStored(crc, file, blocks[i])
    ensures Small(file + more, blocks) ==>
              forall i :: 0 <= i < |blocks| ==> BlockStored(crc, file + more, blocks[i])
  {
    if Small(file + more, blocks) {
      forall i | 0 <= i < |blocks|
        ensures BlockStored(crc, file + more, blocks[i])
      {
        StillStored(crc, file, more, blocks[i]);
      }
    }
  }

  /** With nothing held back the index names every block. */
  lemma IndexDone(blocks: seq<DataBlock>, l: Layout, index: seq<Pair>, lastKey: bytes)
    requires Consistent(blocks, l, index, false, lastKey) && l.entries == []
    ensures BlocksOk(blocks) && IndexOk(blocks, index) && All(blocks, l) == blocks
  {
    IndexAscends(blocks, index);
  }

  lemma TableWritten(crc: Checksum, before: bytes, file: bytes, blocks: seq<DataBlock>, l: Layout, lastKey: bytes,
                     added: seq<Pair>, meta: Handle, t: TableLayout)
    requires t.blocks == blocks && l.entries == [] && Flat(All(blocks, l)) == added && Inside(before, blocks)
    requires Consistent(blocks, l, t.index.layout.entries, false, lastKey)
    requires Small(before, blocks) ==> forall i :: 0 <= i < |blocks| ==> BlockStored(crc, before, blocks[i])
    requires file == before + RawBlock(crc, t.index.contents) && |t.index.contents| <= |file|
    requires |file| < TWO_64 ==> StoredAt(crc, file, t.index.handle, t.index.contents)
    requires |t.index.contents| < TWO_32 ==> Encodes(t.index.contents, t.index.layout)
    ensures
      var done := file + FooterBytes(meta, t.index.handle);
      && (Small(done, blocks + [t.index]) ==> TableOk(crc, done, t)) && Inside(done, blocks + [t.index])
    ensures forall e :: Holds(blocks, e) <==> e in added
  {
    hide RawBlock, Encodes, Consistent, Flat, All, BlockStored, Small, FooterBytes, TableOk, Holds, StoredAt;
    IndexDone(blocks, l, t.index.layout.entries, lastKey);
    StoreMore(crc, before, RawBlock(crc, t.index.contents), blocks, t.index);
    TableDone(crc, file, meta, t);
    AddedAre(blocks, l, added);
  }

  lemma TableDone(crc: Checksum, file: bytes, meta: Handle, t: TableLayout)
    requires BlocksOk(t.blocks) && IndexOk(t.blocks, t.index.layout.entries)
    requires
      var all := t.blocks + [t.index];
      Small(file, all) ==> forall i :: 0 <= i < |all| ==> BlockStored(crc, file, all[i])
    ensures
      var done := file + FooterBytes(meta, t.index.handle);
      Small(done, t.blocks + [t.index]) ==> TableOk(crc, done, t)
  {
    hide BlocksOk, IndexOk, FooterBytes, BlockStored;
    var all, footer := t.blocks + [t.index], FooterBytes(meta, t.index.handle);
    StoreOn(crc, file, footer, all);
    assert (file + footer)[|file + footer| - FOOTER_SIZE..] == footer;
    assert all[|t.blocks|] == t.index;
    assert forall i :: 0 <= i < |t.blocks| ==> all[i] == t.blocks[i];
  }

  lemma InsideIsSmall(file: bytes, blocks: seq<DataBlock>)
    ensures Inside(file, blocks) && |file| < TWO_32 ==> Small(file, blocks)
  {
  }

  method BuildTable(crc: Checksum, blockSize: nat, interval: nat, policy: Bloom.BloomFilterPolicy?, name: bytes,
                    entries: seq<Pair>)
    returns (file: bytes, ghost t: TableLayout, ghost m: MetaLayout)
    requires interval >= 1 && Ascending(InternalLess, entries) && |FilterKey(name)| < TWO_32
    requires policy != null ==> 1 <= policy.probes <= Bloom.MAX_PROBES
    requires forall i :: 0 <= i < |entries| ==>
               IsInternal(entries[i].key) && |entries[i].key| < TWO_32 && |entries[i].value| < TWO_32
    ensures |file| < TWO_32 ==> TableOk(crc, file, t) && forall e :: Holds(t.blocks, e) <==> e in entries
    ensures |file| < TWO_32 && policy != null ==> MetaOk(crc, file, t, m, name, policy.hash)
  {
    hide InternalLess, TableOk, Holds, Inside, Small, TableBuilder.Valid, MetaOk;
    var b := new TableBuilder(crc, blockSize, interval, policy, name);
    for n := 0 to |entries|
      invariant b.Valid() && !b.closed && b.crc == crc && b.name == name
      invariant fresh(b) && fresh(b.dataBlock) && fresh(b.indexBlock) && (b.filterBlock == null <==> policy == null)
      invariant b.filterBlock != null ==> fresh(b.filterBlock) && b.filterBlock.policy == policy
      invariant b.added == entries[..n] && (n > 0 ==> b.lastKey == entries[n - 1].key)
    {
      b.Add(entries[n].key, entries[n].value);
      assert entries[..n] + [entries[n]] == entries[..n + 1];
    }
    assert entries[..|entries|] == entries;
    t, m := b.Finish(interval);
    file := b.file;
    InsideIsSmall(file, t.blocks + [t.index]);
  }

  /**
   Whatever ascending internal keys are added, a lookup in the finished file, through its filter
   if there is one, delivers the first entry from `k` on whenever it has the user key of `k`, and
   nothing of that user key is missed.
   */
  method BuildAndGet(crc: Checksum, verify: bool, blockSize: nat, interval: nat, policy: Bloom.BloomFilterPolicy?,
                     name: bytes, entries: seq<Pair>, k: bytes)
    returns (size: nat, ok: bool, r: Option<Pair>)
    requires interval >= 1 && IsInternal(k) && Ascending(InternalLess, entries) && |FilterKey(name)| < TWO_32
    requires policy != null ==> 1 <= policy.probes <= Bloom.MAX_PROBES
    requires forall i :: 0 <= i < |entries| ==>
               IsInternal(entries[i].key) && |entries[i].key| < TWO_32 && |entries[i].value| < TWO_32
    ensures size < TWO_32 ==> ok && ExactIn(entries, k, r)
  {
    hide InternalLess, TableOk, Exact, ExactIn, MetaOk;
    var file;
    ghost var t, m;
    file, t, m := BuildTable(crc, blockSize, interval, policy, name, entries);
    size := |file|;
    ok, r := Get(crc, verify, file, policy, name, k, t, m);
    if size < TWO_32 {
      TableIsBlocks(crc, file, t);
      ExactMeans(t.blocks, entries, k, r);
    }
  }

  lemma TableIsBlocks(crc: Checksum, file: bytes, t: TableLayout)
    requires TableOk(crc, file, t)
    ensures BlocksOk(t.blocks)
  {
  }

  /** The first entry from `k` on, or nothing, but only if nothing from `k` on has its user key. */
  ghost predicate ExactIn(entries: seq<Pair>, k: bytes, r: Option<Pair>)
    requires IsInternal(k) && forall i :: 0 <= i < |entries| ==> IsInternal(entries[i].key)
  {
    match r
    case Some(e) =>
      && e in entries && !InternalLess(e.key, k)
      && forall x :: x in entries && !InternalLess(x.key, k) ==> x == e || InternalLess(e.key, x.key)
    case None =>
      forall i :: 0 <= i < |entries| && !InternalLess(entries[i].key, k) ==> UserKey(entries[i].key) != UserKey(k)
  }

  lemma ExactMeans(blocks: seq<DataBlock>, entries: seq<Pair>, k: bytes, r: Option<Pair>)
    requires IsInternal(k) && forall i :: 0 <= i < |entries| ==> IsInternal(entries[i].key)
    requires BlocksOk(blocks) && Exact(blocks, k, r) && forall e :: Holds(blocks, e) <==> e in entries
    ensures ExactIn(entries, k, r)
  {
    hide InternalLess, BlocksOk, Holds;
  }
}
