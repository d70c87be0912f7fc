/**
 Reading a sorted table file: footer, index block, one data block per lookup
 (table/format.cc, table/table.cc).
 */
module Table {
  import opened Coding
  import opened Crc
  import opened ByteKeys
  import opened BlockFormat
  import Block

  // ---- Handles, stored blocks, footers ----

  datatype Handle = Handle(offset: uint64, size: uint64)
  datatype HandleRead = HandleRead(handle: Handle, rest: bytes)

  function HandleBytes(h: Handle): bytes {
    Varint(h.offset) + Varint(h.size)
  }

  function DecodeHandle(s: bytes): Option<HandleRead> {
    match Varint64(s)
    case None => None
    case Some((offset, r)) =>
      match Varint64(r)
      case None => None
      case Some((size, rest)) => Some(HandleRead(Handle(offset, size), rest))
  }

  lemma HandleRoundTrip(h: Handle, rest: bytes)
    ensures DecodeHandle(HandleBytes(h) + rest) == Some(HandleRead(h, rest))
  {
    hide Varint, Varint64;
    assert HandleBytes(h) + rest == Varint(h.offset) + (Varint(h.size) + rest);
    Varint64RoundTrip(h.offset, Varint(h.size) + rest);
    Varint64RoundTrip(h.size, rest);
  }

  const TRAILER_SIZE: nat := 5
  const NO_COMPRESSION: byte := 0

  function RawBlock(crc: Checksum, contents: bytes): (r: bytes)
    ensures |r| == |contents| + TRAILER_SIZE
  {
    contents + [NO_COMPRESSION] + Fixed(Mask(crc(contents + [NO_COMPRESSION])), 4)
  }

  ghost predicate StoredAt(crc: Checksum, file: bytes, h: Handle, contents: bytes) {
    && h.size == |contents| && h.offset + h.size + TRAILER_SIZE <= |file|
    && file[h.offset..h.offset + h.size + TRAILER_SIZE] == RawBlock(crc, contents)
  }

  /** The contents a handle names; nothing if they are cut short, damaged or of another type. */
  function ReadBlock(crc: Checksum, verify: bool, file: bytes, h: Handle): Option<bytes> {
    if h.offset + h.size + TRAILER_SIZE > |file| then None
    else
      var data := file[h.offset..h.offset + h.size + TRAILER_SIZE];
      if verify && crc(data[..h.size + 1]) != Unmask(DecodeCrc(data[h.size + 1..])) then None
      else if data[h.size] == NO_COMPRESSION then Some(data[..h.size])
      else None
  }

  lemma ReadStored(crc: Checksum, verify: bool, file: bytes, h: Handle, contents: bytes)
    requires StoredAt(crc, file, h, contents)
    ensures ReadBlock(crc, verify, file, h) == Some(contents)
  {
    hide Mask, Unmask;
    var sum := crc(contents + [NO_COMPRESSION]);
    var raw := RawBlock(crc, contents);
    assert raw[..h.size + 1] == contents + [NO_COMPRESSION] && raw[h.size + 1..] == Fixed(Mask(sum), 4);
    assert raw[..h.size] == contents;
    Fixed32RoundTrip(Mask(sum));
    MaskRoundTrip(sum);
  }

  const MAX_HANDLE: nat := 20
  const FOOTER_SIZE: nat := 48
  const MAGIC_LOW: uint32 := 0x8b80_fb57
  const MAGIC_HIGH: uint32 := 0xdb47_7524

  lemma HandleLimit(h: Handle)
    ensures |HandleBytes(h)| <= MAX_HANDLE
  {
    Varint64Limit(h.offset);
    Varint64Limit(h.size);
  }

  function FooterBytes(meta: Handle, index: Handle): (r: bytes)
    ensures |r| == FOOTER_SIZE
  {
    HandleLimit(meta);
    HandleLimit(index);
    var handles := HandleBytes(meta) + HandleBytes(index);
    handles + Zeros(2 * MAX_HANDLE - |handles|) + Fixed(MAGIC_LOW, 4) + Fixed(MAGIC_HIGH, 4)
  }

  /** The handles of the metaindex block and the index block. */
  datatype Footer = Footer(meta: Handle, index: Handle)

  function DecodeFooter(s: bytes): Option<Footer>
    requires |s| == FOOTER_SIZE
  {
    if DecodeFixed(s[40..44]) != MAGIC_LOW || DecodeFixed(s[44..]) != MAGIC_HIGH then None
    else
      match DecodeHandle(s)
      case None => None
      case Some(meta) =>
        match DecodeHandle(meta.rest)
        case None => None
        case Some(index) => Some(Footer(meta.handle, index.handle))
  }

  lemma FooterRoundTrip(meta: Handle, index: Handle)
    ensures DecodeFooter(FooterBytes(meta, index)) == Some(Footer(meta, index))
  {
    hide Varint, Varint64, DecodeHandle, Fixed, DecodeFixed;
    var s := FooterBytes(meta, index);
    HandleLimit(meta);
    HandleLimit(index);
    var a, b := HandleBytes(meta), HandleBytes(index);
    hide HandleBytes;
    var tail := Zeros(2 * MAX_HANDLE - |a + b|) + Fixed(MAGIC_LOW, 4) + Fixed(MAGIC_HIGH, 4);
    assert s == a + (b + tail);
    HandleRoundTrip(meta, b + tail);
    HandleRoundTrip(index, tail);
    assert s[40..44] == Fixed(MAGIC_LOW, 4) && s[44..] == Fixed(MAGIC_HIGH, 4);
    Fixed32RoundTrip(MAGIC_LOW);
    Fixed32RoundTrip(MAGIC_HIGH);
  }

  // ---- What a table holds ----

  datatype DataBlock = DataBlock(handle: Handle, contents: bytes, layout: Layout)

  datatype TableLayout = TableLayout(blocks: seq<DataBlock>, index: DataBlock)

  ghost predicate In(blocks: seq<DataBlock>, i: nat, e: Pair)
    requires i < |blocks|
  {
    e in blocks[i].layout.entries
  }

  ghost predicate Holds(blocks: seq<DataBlock>, e: Pair) {
    exists i :: 0 <= i < |blocks| && In(blocks, i, e)
  }

  /** The blocks hold internal keys, ascending within and across blocks; none is empty. */
  ghost predicate BlocksOk(blocks: seq<DataBlock>) {
    && (forall i :: 0 <= i < |blocks| ==> blocks[i].layout.entries != [])
    && (forall i :: 0 <= i < |blocks| ==> Ascending(InternalLess, blocks[i].layout.entries))
    && (forall i, e :: 0 <= i < |blocks| && In(blocks, i, e) ==> IsInternal(e.key))
    && (forall i, j, x, y :: 0 <= i < j < |blocks| && In(blocks, i, x) && In(blocks, j, y) ==> InternalLess(x.key, y.key))
  }

  /** An index key: at or past its block, before the next, and not sharing a user key with both. */
  ghost predicate Separates(blocks: seq<DataBlock>, i: nat, sep: bytes)
    requires i < |blocks|
  {
    && IsInternal(sep)
    && (forall e :: In(blocks, i, e) ==> !InternalLess(sep, e.key))
    && (forall j, e :: i < j < |blocks| && In(blocks, j, e) ==> InternalLess(sep, e.key))
    && ((exists e :: In(blocks, i, e) && sep == e.key)
        || (forall j, e :: i < j < |blocks| && In(blocks, j, e) ==> ByteLess(UserKey(sep), UserKey(e.key))))
  }

  ghost predicate IndexOk(blocks: seq<DataBlock>, index: seq<Pair>) {
    && |index| == |blocks|
    && (forall i :: 0 <= i < |blocks| ==> index[i].value == HandleBytes(blocks[i].handle))
    && (forall i :: 0 <= i < |blocks| ==> Separates(blocks, i, index[i].key))
    && Ascending(InternalLess, index)
  }

  ghost predicate BlockStored(crc: Checksum, file: bytes, b: DataBlock) {
    StoredAt(crc, file, b.handle, b.contents) && Encodes(b.contents, b.layout)
  }

  ghost predicate TableOk(crc: Checksum, file: bytes, t: TableLayout) {
    && BlocksOk(t.blocks) && IndexOk(t.blocks, t.index.layout.entries)
    && (forall i :: 0 <= i < |t.blocks| ==> BlockStored(crc, file, t.blocks[i]))
    && BlockStored(crc, file, t.index)
    && |file| >= FOOTER_SIZE && exists meta :: file[|file| - FOOTER_SIZE..] == FooterBytes(meta, t.index.handle)
  }

  // ---- Lookup ----

  /** The index block of a table file. */
  method Open(crc: Checksum, verify: bool, file: bytes, ghost t: TableLayout) returns (index: Option<bytes>)
    ensures TableOk(crc, file, t) ==> index == Some(t.index.contents)
  {
    hide FooterBytes, DecodeFooter, ReadBlock, BlocksOk, IndexOk;
    if |file| < FOOTER_SIZE {
      return None;
    }
    if TableOk(crc, file, t) {
      ghost var meta :| file[|file| - FOOTER_SIZE..] == FooterBytes(meta, t.index.handle);
      FooterRoundTrip(meta, t.index.handle);
      ReadStored(crc, verify, file, t.index.handle, t.index.contents);
    }
    var footer := DecodeFooter(file[|file| - FOOTER_SIZE..]);
    index := if footer.None? then None else ReadBlock(crc, verify, file, footer.value.index);
  }

  /** `e` is the first entry of the table that is not before `k`. */
  ghost predicate FirstFrom(blocks: seq<DataBlock>, k: bytes, e: Pair) {
    && Holds(blocks, e) && !InternalLess(e.key, k)
    && forall x :: Holds(blocks, x) && !InternalLess(x.key, k) ==> x == e || InternalLess(e.key, x.key)
  }

  /** The first entry from `k` on, or nothing, but only if nothing from `k` on has its user key. */
  ghost predicate Exact(blocks: seq<DataBlock>, k: bytes, r: Option<Pair>)
    requires BlocksOk(blocks) && IsInternal(k)
  {
    && (r.Some? ==> FirstFrom(blocks, k, r.value))
    && (r.None? ==> forall x :: Holds(blocks, x) && !InternalLess(x.key, k) ==> UserKey(x.key) != UserKey(k))
  }

  /** The index position a seek of `k` ends at. */
  ghost predicate IndexSought(index: seq<Pair>, k: bytes, i: nat) {
    && i <= |index| && (forall j :: 0 <= j < i ==> InternalLess(index[j].key, k))
    && (i < |index| ==> !InternalLess(index[i].key, k))
  }

  /** Blocks before the sought one hold nothing from `k` on. */
  lemma EarlierBlocks(blocks: seq<DataBlock>, index: seq<Pair>, k: bytes, i: nat, j: nat, x: Pair)
    requires BlocksOk(blocks) && IndexOk(blocks, index) && IsInternal(k) && IndexSought(index, k, i)
    requires j < i && In(blocks, j, x)
    ensures InternalLess(x.key, k)
  {
    assert Separates(blocks, j, index[j].key);
    InternalLessTotal(x.key, index[j].key);
    if InternalLess(x.key, index[j].key) {
      InternalLessTransitive(x.key, index[j].key, k);
    }
  }

  /** A later block has no entry of the sought user key, unless the sought block has one from `k` on. */
  lemma LaterBlocks(blocks: seq<DataBlock>, index: seq<Pair>, k: bytes, i: nat, j: nat, x: Pair)
    requires BlocksOk(blocks) && IndexOk(blocks, index) && IsInternal(k) && IndexSought(index, k, i)
    requires i < j < |blocks| && In(blocks, j, x) && UserKey(x.key) == UserKey(k)
    ensures exists e :: In(blocks, i, e) && UserKey(e.key) == UserKey(k) && !InternalLess(e.key, k)
  {
    var sep := index[i].key;
    assert Separates(blocks, i, sep);
    InternalLessTotal(sep, k);
    ByteLessTotal(UserKey(k), UserKey(sep));
    ByteLessTotal(UserKey(k), UserKey(x.key));
    ByteLessChain(UserKey(k), UserKey(sep), UserKey(x.key));
    assert InternalLess(sep, x.key);
  }

  lemma MissedBlock(blocks: seq<DataBlock>, index: seq<Pair>, k: bytes, i: nat)
    requires BlocksOk(blocks) && IndexOk(blocks, index) && IsInternal(k) && IndexSought(index, k, i)
    requires i < |blocks| ==>
               forall e :: In(blocks, i, e) && UserKey(e.key) == UserKey(k) ==> InternalLess(e.key, k)
    ensures Exact(blocks, k, None)
  {
    forall x | Holds(blocks, x) && !InternalLess(x.key, k)
      ensures UserKey(x.key) != UserKey(k)
    {
      var j :| 0 <= j < |blocks| && In(blocks, j, x);
      MissedEntry(blocks, index, k, i, j, x);
    }
  }

  lemma MissedEntry(blocks: seq<DataBlock>, index: seq<Pair>, k: bytes, i: nat, j: nat, x: Pair)
    requires BlocksOk(blocks) && IndexOk(blocks, index) && IsInternal(k) && IndexSought(index, k, i)
    requires i < |blocks| ==>
               forall e :: In(blocks, i, e) && UserKey(e.key) == UserKey(k) ==> InternalLess(e.key, k)
    requires j < |blocks| && In(blocks, j, x)
    ensures InternalLess(x.key, k) || UserKey(x.key) != UserKey(k)
  {
    if j < i {
      EarlierBlocks(blocks, index, k, i, j, x);
    } else if j > i && UserKey(x.key) == UserKey(k) {
      LaterBlocks(blocks, index, k, i, j, x);
    }
  }

  lemma HitBlock(blocks: seq<DataBlock>, index: seq<Pair>, k: bytes, i: nat, q: nat)
    requires BlocksOk(blocks) && IndexOk(blocks, index) && IsInternal(k) && IndexSought(index, k, i)
    requires i < |blocks| && q < |blocks[i].layout.entries| && IndexSought(blocks[i].layout.entries, k, q)
    ensures Exact(blocks, k, Some(blocks[i].layout.entries[q]))
  {
    hide InternalLess, IndexOk;
    var es := blocks[i].layout.entries;
    assert In(blocks, i, es[q]);
    forall x | Holds(blocks, x) && !InternalLess(x.key, k)
      ensures x == es[q] || InternalLess(es[q].key, x.key)
    {
      var j :| 0 <= j < |blocks| && In(blocks, j, x);
      if j < i {
        EarlierBlocks(blocks, index, k, i, j, x);
      }
    }
  }

  /** A filter that lets every key of a block through, whatever the tag it is asked with. */
  ghost predicate FilterSound(blocks: seq<DataBlock>, mayMatch: (nat, bytes) -> bool, k: bytes)
    requires BlocksOk(blocks) && IsInternal(k)
  {
    forall i, e :: 0 <= i < |blocks| && In(blocks, i, e) && UserKey(e.key) == UserKey(k) ==>
      mayMatch(blocks[i].handle.offset, k)
  }

  lemma InternalOrder()
    ensures Transitive(InternalLess)
  {
    forall a, b, c | InternalLess(a, b) && InternalLess(b, c)
      ensures InternalLess(a, c)
    {
      InternalLessTransitive(a, b, c);
    }
  }

  /** Seek in one block of the file; `ok` is false if the block cannot be read. */
  method SeekBlock(crc: Checksum, verify: bool, file: bytes, handleValue: bytes, k: bytes, ghost b: DataBlock)
    returns (ok: bool, r: Option<Pair>)
    ensures BlockStored(crc, file, b) && Ascending(InternalLess, b.layout.entries) && handleValue == HandleBytes(b.handle)
            ==> ok && SoughtIn(b.layout.entries, k, r)
  {
    hide Encodes, ReadBlock, InternalLess, DecodeHandle, HandleBytes, StoredAt, Ascending, SoughtIn;
    HandleRoundTrip(b.handle, []);
    assert HandleBytes(b.handle) + [] == HandleBytes(b.handle);
    if BlockStored(crc, file, b) {
      ReadStored(crc, verify, file, b.handle, b.contents);
    }
    ok, r := false, None;
    var handle := DecodeHandle(handleValue);
    if handle.None? {
      return;
    }
    var contents := ReadBlock(crc, verify, file, handle.value.handle);
    if contents.None? {
      return;
    }
    ok, r := SeekContents(contents.value, k, b.layout);
  }

  /** Seek in the contents of a block. */
  method SeekContents(contents: bytes, k: bytes, ghost l: Layout) returns (ok: bool, r: Option<Pair>)
    ensures Encodes(contents, l) && Ascending(InternalLess, l.entries) ==> ok && SoughtIn(l.entries, k, r)
  {
    hide Encodes, InternalLess;
    InternalOrder();
    r := None;
    var it, bad := Block.NewIterator(InternalLess, contents, l);
    ok := !bad;
    if it != null {
      it.Seek(k);
      ghost var q := it.pos;
      if Encodes(contents, l) && Ascending(InternalLess, l.entries) {
        assert it.SoughtAt(k, q);
        assert IndexSought(l.entries, k, q);
      }
      if it.IsValid() {
        var key := it.Key();
        var value := it.Value();
        r := Some(Pair(key, value));
      }
      ok := !it.corrupt;
    }
  }

  ghost predicate SoughtIn(entries: seq<Pair>, k: bytes, r: Option<Pair>) {
    exists q: nat :: IndexSought(entries, k, q) && r == if q < |entries| then Some(entries[q]) else None
  }

  /**
   A point lookup.  On a table the builder wrote it delivers exactly the first entry from `k`
   on whenever that entry has the user key of `k`, though it looks into one block only.
   */
  method InternalGet(crc: Checksum, verify: bool, file: bytes, index: bytes, mayMatch: (nat, bytes) -> bool,
                     k: bytes, ghost t: TableLayout)
    returns (ok: bool, r: Option<Pair>)
    requires IsInternal(k)
    ensures TableOk(crc, file, t) && index == t.index.contents && FilterSound(t.blocks, mayMatch, k)
            ==> ok && Exact(t.blocks, k, r)
  {
    hide Encodes, InternalLess, HandleBytes, DecodeHandle, Exact, StoredAt, FooterBytes, ByteLess;
    ghost var good := TableOk(crc, file, t) && index == t.index.contents && FilterSound(t.blocks, mayMatch, k);
    InternalOrder();
    var it, bad := Block.NewIterator(InternalLess, index, t.index.layout);
    ok, r := !bad, None;
    if it == null {
      return;
    }
    it.Seek(k);
    ghost var i := it.pos;
    if good {
      assert IndexSought(t.index.layout.entries, k, i);
    }
    if !it.IsValid() {
      ok := !it.corrupt;
      if good {
        MissedBlock(t.blocks, t.index.layout.entries, k, i);
      }
      return;
    }
    var handleValue := it.Value();
    ghost var b := if good then t.blocks[i] else t.index;
    var handle := DecodeHandle(handleValue);
    if good {
      HandleRoundTrip(b.handle, []);
      assert HandleBytes(b.handle) + [] == HandleBytes(b.handle);
    }
    if handle.Some? && !mayMatch(handle.value.handle.offset, k) {
      ok := !it.corrupt;
      if good {
        MissedBlock(t.blocks, t.index.layout.entries, k, i);
      }
      return;
    }
    ok, r := SeekBlock(crc, verify, file, handleValue, k, b);
    ok := ok && !it.corrupt;
    if good {
      Delivered(t.blocks, t.index.layout.entries, k, i, r);
    }
  }

  lemma Delivered(blocks: seq<DataBlock>, index: seq<Pair>, k: bytes, i: nat, r: Option<Pair>)
    requires BlocksOk(blocks) && IndexOk(blocks, index) && IsInternal(k) && IndexSought(index, k, i)
    requires i < |blocks| && SoughtIn(blocks[i].layout.entries, k, r)
    ensures Exact(blocks, k, r)
  {
    var es := blocks[i].layout.entries;
    var q: nat :| IndexSought(es, k, q) && r == if q < |es| then Some(es[q]) else None;
    if q < |es| {
      HitBlock(blocks, index, k, i, q);
    } else {
      MissedBlock(blocks, index, k, i);
    }
  }
}
