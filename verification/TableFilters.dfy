/**
 The filter of a table file: named in the metaindex block, read when the table is opened, and
 asked before a data block is (table/table.cc).
 */
module TableFilters {
  import opened Coding
  import opened Crc
  import opened ByteKeys
  import opened BlockFormat
  import opened Bloom
  import opened FilterBlock
  import opened Table
  import Block

  const FILTER_PREFIX: bytes := [0x66, 0x69, 0x6c, 0x74, 0x65, 0x72, 0x2e]

  /** The metaindex key of the filter block: "filter." and the name of the policy. */
  function FilterKey(name: bytes): bytes {
    FILTER_PREFIX + name
  }

  /** The metaindex block, and the filter block it names with the groups of keys the filters cover. */
  datatype MetaLayout = MetaLayout(meta: DataBlock, handle: Handle, contents: bytes, offsets: seq<nat>,
                                   groups: seq<seq<bytes>>)

  /** Every key of a block is in the group of the block's offset. */
  ghost predicate InGroups(blocks: seq<DataBlock>, groups: seq<seq<bytes>>) {
    forall i, e :: 0 <= i < |blocks| && In(blocks, i, e) ==> InGroup(groups, blocks[i].handle.offset, e.key)
  }

  ghost predicate InGroup(groups: seq<seq<bytes>>, offset: nat, key: bytes) {
    IsInternal(key) ==> offset / BASE < |groups| && UserKey(key) in groups[offset / BASE]
  }

  ghost predicate MetaStored(crc: Checksum, file: bytes, m: MetaLayout, name: bytes, hash: Hash) {
    && BlockStored(crc, file, m.meta) && m.meta.layout.entries == [Pair(FilterKey(name), HandleBytes(m.handle))]
    && StoredAt(crc, file, m.handle, m.contents)
    && FilterBlock.Encodes(hash, m.contents, m.offsets, m.groups)
  }

  /** The file's footer names the metaindex block, and that the filter block of these data blocks. */
  ghost predicate MetaOk(crc: Checksum, file: bytes, t: TableLayout, m: MetaLayout, name: bytes, hash: Hash) {
    && |file| >= FOOTER_SIZE && file[|file| - FOOTER_SIZE..] == FooterBytes(m.meta.handle, t.index.handle)
    && MetaStored(crc, file, m, name, hash) && InGroups(t.blocks, m.groups)
  }

  lemma BytewiseOrder()
    ensures Transitive(ByteLess)
  {
    forall a, b, c | ByteLess(a, b) && ByteLess(b, c)
      ensures ByteLess(a, c)
    {
      ByteLessTransitive(a, b, c);
    }
  }

  /** The value the metaindex block has for a key. */
  method SeekMeta(contents: bytes, key: bytes, ghost l: Layout, ghost value: bytes) returns (r: Option<bytes>)
    ensures BlockFormat.Encodes(contents, l) && l.entries == [Pair(key, value)] ==> r == Some(value)
  {
    hide BlockFormat.Encodes;
    BytewiseOrder();
    ByteLessIrreflexive(key);
    r := None;
    var it, bad := Block.NewIterator(ByteLess, contents, l);
    if it == null {
      return;
    }
    assert l.entries == [Pair(key, value)] ==> Ascending(ByteLess, it.layout.entries);
    it.Seek(key);
    ghost var at := it.pos;
    if BlockFormat.Encodes(contents, l) && l.entries == [Pair(key, value)] {
      assert it.SoughtAt(key, at);
      assert !ByteLess(it.layout.entries[0].key, key);
    }
    if it.IsValid() {
      var found := it.Key();
      if found == key {
        var v := it.Value();
        r := Some(v);
      }
    }
  }

  /** The block the metaindex names under the policy's name; none when anything on the way is missing. */
  method ReadMeta(crc: Checksum, verify: bool, file: bytes, name: bytes, hash: Hash,
                  ghost t: TableLayout, ghost m: MetaLayout) returns (filter: Option<bytes>)
    ensures MetaOk(crc, file, t, m, name, hash) ==> filter == Some(m.contents)
  {
    hide FooterBytes, DecodeFooter, ReadBlock, HandleBytes, DecodeHandle, StoredAt, InGroups;
    hide BlockFormat.Encodes, FilterBlock.Encodes;
    if |file| < FOOTER_SIZE {
      return None;
    }
    if MetaOk(crc, file, t, m, name, hash) {
      FooterRoundTrip(m.meta.handle, t.index.handle);
      ReadStored(crc, verify, file, m.meta.handle, m.meta.contents);
      ReadStored(crc, verify, file, m.handle, m.contents);
      HandleRoundTrip(m.handle, []);
      assert HandleBytes(m.handle) + [] == HandleBytes(m.handle);
    }
    filter := None;
    var footer := DecodeFooter(file[|file| - FOOTER_SIZE..]);
    if footer.None? {
      return;
    }
    var contents := ReadBlock(crc, verify, file, footer.value.meta);
    if contents.None? {
      return;
    }
    var value := SeekMeta(contents.value, FilterKey(name), m.meta.layout, HandleBytes(m.handle));
    if value.None? {
      return;
    }
    var handle := DecodeHandle(value.value);
    if handle.Some? {
      filter := ReadBlock(crc, verify, file, handle.value.handle);
    }
  }

  /** What a lookup asks: the filter when there is one, or nothing. */
  function Asked(hash: Hash, filter: Option<bytes>): (nat, bytes) -> bool {
    if filter.None? then (offset: nat, key: bytes) => true else TableFilter(hash, filter.value)
  }

  /** With the filter block of the table or none, no key of the table is turned away. */
  lemma AskedIsSound(hash: Hash, blocks: seq<DataBlock>, m: MetaLayout, filter: Option<bytes>, k: bytes)
    requires BlocksOk(blocks) && IsInternal(k)
    requires filter.None? || (filter == Some(m.contents) && InGroups(blocks, m.groups)
                              && FilterBlock.Encodes(hash, m.contents, m.offsets, m.groups))
    ensures FilterSound(blocks, Asked(hash, filter), k)
  {
    hide FilterBlock.Encodes;
    if filter.Some? {
      forall i, e | 0 <= i < |blocks| && In(blocks, i, e)
        ensures
          var o := blocks[i].handle.offset; o / BASE < |m.groups| && UserKey(e.key) in m.groups[o / BASE]
      {
        assert InGroup(m.groups, blocks[i].handle.offset, e.key);
      }
      TableFilterIsSound(hash, m.contents, m.offsets, m.groups, blocks, k);
    }
  }

  /** Open a table file with a filter policy, and look one key up. */
  method Get(crc: Checksum, verify: bool, file: bytes, policy: BloomFilterPolicy?, name: bytes, k: bytes,
             ghost t: TableLayout, ghost m: MetaLayout)
    returns (ok: bool, r: Option<Pair>)
    requires IsInternal(k)
    ensures TableOk(crc, file, t) && (policy != null ==> MetaOk(crc, file, t, m, name, policy.hash))
            ==> ok && Exact(t.blocks, k, r)
  {
    hide TableOk, Exact, FilterSound, MetaStored, InGroups, FooterBytes;
    ok, r := false, None;
    var index := Open(crc, verify, file, t);
    if index.None? {
      return;
    }
    var hash: Hash := if policy == null then (key: bytes) => 0 else policy.hash;
    var filter := None;
    if policy != null {
      filter := ReadMeta(crc, verify, file, name, hash, t, m);
    }
    if TableOk(crc, file, t) && (policy != null ==> MetaOk(crc, file, t, m, name, hash)) {
      MetaParts(crc, file, t, m, name, hash, policy != null);
      AskedIsSound(hash, t.blocks, m, filter, k);
    }
    ok, r := InternalGet(crc, verify, file, index.value, Asked(hash, filter), k, t);
  }

  lemma MetaParts(crc: Checksum, file: bytes, t: TableLayout, m: MetaLayout, name: bytes, hash: Hash, filtered: bool)
    requires TableOk(crc, file, t)
    ensures BlocksOk(t.blocks)
    ensures filtered && MetaOk(crc, file, t, m, name, hash) ==>
              InGroups(t.blocks, m.groups) && FilterBlock.Encodes(hash, m.contents, m.offsets, m.groups)
  {
  }
}
