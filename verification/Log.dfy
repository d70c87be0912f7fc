/**
 The write-ahead log: records cut into checksummed fragments that never cross a block, and
 the reader that puts them together again (db/log_writer.cc, db/log_reader.cc).
 */
module Log {
  import opened Coding
  import opened Crc

  const BLOCK_SIZE: nat := 32768
  const HEADER_SIZE: nat := 7

  const ZERO_TYPE: byte := 0
  const FULL_TYPE: byte := 1
  const FIRST_TYPE: byte := 2
  const MIDDLE_TYPE: byte := 3
  const LAST_TYPE: byte := 4
  const EOF: nat := 5
  const BAD_RECORD: nat := 6

  // ---- The layout of a record ----

  function Type(begin: bool, end: bool): byte {
    if begin && end then FULL_TYPE else if begin then FIRST_TYPE else if end then LAST_TYPE else MIDDLE_TYPE
  }

  /** The offset of `p` within its block. */
  function Offset(p: nat): (r: nat)
    ensures r < BLOCK_SIZE && r <= p
  {
    if p < BLOCK_SIZE then p else Offset(p - BLOCK_SIZE)
  }

  lemma {:induction false} OffsetIsRemainder(p: nat)
    ensures Offset(p) == p % BLOCK_SIZE
  {
    if p >= BLOCK_SIZE {
      OffsetIsRemainder(p - BLOCK_SIZE);
    }
  }

  /** Offsets advance within a block and start again at its end. */
  lemma {:induction false} OffsetAdvance(p: nat, k: nat)
    requires Offset(p) + k <= BLOCK_SIZE
    ensures Offset(p + k) == if Offset(p) + k == BLOCK_SIZE then 0 else Offset(p) + k
  {
    if p >= BLOCK_SIZE {
      OffsetAdvance(p - BLOCK_SIZE, k);
    }
  }

  /** Where a fragment written at offset `p` starts: a header is never split. */
  function Start(p: nat): (r: nat)
    ensures p <= r < p + HEADER_SIZE && Offset(r) + HEADER_SIZE <= BLOCK_SIZE
  {
    var leftover := BLOCK_SIZE - Offset(p);
    OffsetAdvance(p, leftover);
    if leftover < HEADER_SIZE then p + leftover else p
  }

  /** The room for data in the fragment written at `p`. */
  function Room(p: nat): (r: nat)
    ensures r <= BLOCK_SIZE - HEADER_SIZE
  {
    BLOCK_SIZE - Offset(Start(p)) - HEADER_SIZE
  }

  /** A fragment without room ends its block, so the next one has room. */
  lemma RoomNext(p: nat)
    ensures Room(p) == 0 ==> Room(Start(p) + HEADER_SIZE) > 0
  {
    OffsetAdvance(Start(p), BLOCK_SIZE - Offset(Start(p)));
  }

  /** How much of `n` bytes the fragment at `p` takes. */
  function Part(p: nat, n: nat): (r: nat)
    ensures r <= n && r <= Room(p)
  {
    if n < Room(p) then n else Room(p)
  }

  /** What does not go into a fragment did not fit its block. */
  lemma FillsBlock(p: nat, n: nat)
    ensures Part(p, n) < n ==> Offset(Start(p) + HEADER_SIZE + Part(p, n)) == 0
  {
    OffsetAdvance(Start(p), HEADER_SIZE + Part(p, n));
  }

  function Frame(crc: Checksum, t: byte, data: bytes): (r: bytes)
    requires |data| <= 0xffff
    ensures |r| == HEADER_SIZE + |data|
  {
    Fixed(Mask(crc([t] + data)), 4) + [|data| % 256, |data| / 256, t] + data
  }

  /** The bytes of one record appended at offset `p`. */
  function Frames(crc: Checksum, p: nat, begin: bool, data: bytes): bytes
    decreases |data|, if Room(p) == 0 then 1 else 0
  {
    RoomNext(p);
    var n := Part(p, |data|);
    var tail := if n == |data| then [] else Frames(crc, Start(p) + HEADER_SIZE + n, false, data[n..]);
    Head(crc, p, begin, data) + tail
  }

  /** The trailer of the block, if the header does not fit, and the first fragment. */
  function Head(crc: Checksum, p: nat, begin: bool, data: bytes): (r: bytes)
    ensures p + |r| == Start(p) + HEADER_SIZE + Part(p, |data|)
  {
    var n := Part(p, |data|);
    Zeros(Start(p) - p) + Frame(crc, Type(begin, n == |data|), data[..n])
  }

  /** Where a record of `n` bytes written at `p` ends. */
  function EndOf(p: nat, n: nat): (r: nat)
    ensures r >= p + HEADER_SIZE + n
    decreases n, if Room(p) == 0 then 1 else 0
  {
    RoomNext(p);
    var k := Part(p, n);
    if k == n then Start(p) + HEADER_SIZE + n
    else EndOf(Start(p) + HEADER_SIZE + k, n - k)
  }

  function LogFile(crc: Checksum, records: seq<bytes>): bytes {
    if records == [] then []
    else
      var before := LogFile(crc, records[..|records| - 1]);
      before + Frames(crc, |before|, true, records[|records| - 1])
  }

  // ---- What a file holds, fragment by fragment ----

  ghost predicate FrameAt(crc: Checksum, file: bytes, p: nat, t: byte, data: bytes) {
    && |data| <= 0xffff && Offset(Start(p)) + HEADER_SIZE + |data| <= BLOCK_SIZE
    && Start(p) + HEADER_SIZE + |data| <= |file|
    && file[Start(p)..Start(p) + HEADER_SIZE + |data|] == Frame(crc, t, data)
  }

  ghost predicate Holds(crc: Checksum, file: bytes, p: nat, begin: bool, data: bytes)
    decreases |data|, if Room(p) == 0 then 1 else 0
  {
    RoomNext(p);
    var n := Part(p, |data|);
    && FrameAt(crc, file, p, Type(begin, n == |data|), data[..n])
    && (n < |data| ==> Holds(crc, file, Start(p) + HEADER_SIZE + n, false, data[n..]))
  }

  lemma HeadStands(crc: Checksum, before: bytes, begin: bool, data: bytes, after: bytes)
    ensures
      var p, n := |before|, Part(|before|, |data|);
      FrameAt(crc, before + Head(crc, p, begin, data) + after, p, Type(begin, n == |data|), data[..n])
  {
    var p, n := |before|, Part(|before|, |data|);
    var frame := Frame(crc, Type(begin, n == |data|), data[..n]);
    Middle(before, Zeros(Start(p) - p), frame, after);
  }

  lemma Middle(a: bytes, b: bytes, c: bytes, d: bytes)
    ensures |a + (b + c) + d| >= |a| + |b| + |c| && (a + (b + c) + d)[|a| + |b|..|a| + |b| + |c|] == c
  {
  }

  /** What follows the first fragment. */
  ghost function Tail(crc: Checksum, p: nat, data: bytes): bytes {
    var n := Part(p, |data|);
    if n == |data| then [] else Frames(crc, Start(p) + HEADER_SIZE + n, false, data[n..])
  }

  lemma {:induction false} FramesHold(crc: Checksum, before: bytes, begin: bool, data: bytes)
    ensures Holds(crc, before + Frames(crc, |before|, begin, data), |before|, begin, data)
    decreases |data|, if Room(|before|) == 0 then 1 else 0
  {
    hide Frames, Holds, Head, Tail, Start, FrameAt, Room;
    var p := |before|;
    var head, after := Head(crc, p, begin, data), Tail(crc, p, data);
    FramesSplit(crc, p, begin, data);
    HeadStands(crc, before, begin, data, after);
    Assoc(before, head, after);
    TailHolds(crc, before + head, p, data);
    HoldsSplit(crc, before + head + after, p, begin, data);
  }

  lemma FramesSplit(crc: Checksum, p: nat, begin: bool, data: bytes)
    ensures Frames(crc, p, begin, data) == Head(crc, p, begin, data) + Tail(crc, p, data)
  {
    hide Head, Start, Room;
  }

  lemma HoldsSplit(crc: Checksum, file: bytes, p: nat, begin: bool, data: bytes)
    ensures
      var n := Part(p, |data|);
      Holds(crc, file, p, begin, data) <==>
        && FrameAt(crc, file, p, Type(begin, n == |data|), data[..n])
        && (n < |data| ==> Holds(crc, file, Start(p) + HEADER_SIZE + n, false, data[n..]))
  {
    hide FrameAt, Start, Room;
  }

  lemma TailHolds(crc: Checksum, before: bytes, p: nat, data: bytes)
    requires |before| == Start(p) + HEADER_SIZE + Part(p, |data|)
    ensures Part(p, |data|) < |data| ==> Holds(crc, before + Tail(crc, p, data), |before|, false, data[Part(p, |data|)..])
    decreases |data|, if Room(p) == 0 then 1 else 0, 0
  {
    RoomNext(p);
    hide Holds, Frames, Start, Room;
    if Part(p, |data|) < |data| {
      FramesHold(crc, before, false, data[Part(p, |data|)..]);
    }
  }

  lemma {:induction false} FramesEnd(crc: Checksum, p: nat, begin: bool, data: bytes)
    ensures p + |Frames(crc, p, begin, data)| == EndOf(p, |data|)
    decreases |data|, if Room(p) == 0 then 1 else 0
  {
    RoomNext(p);
    TailEnd(crc, p, data);
    assert Frames(crc, p, begin, data) == Head(crc, p, begin, data) + Tail(crc, p, data);
  }

  lemma TailEnd(crc: Checksum, p: nat, data: bytes)
    ensures Start(p) + HEADER_SIZE + Part(p, |data|) + |Tail(crc, p, data)| == EndOf(p, |data|)
    decreases |data|, if Room(p) == 0 then 1 else 0, 0
  {
    RoomNext(p);
    var n := Part(p, |data|);
    if n < |data| {
      FramesEnd(crc, Start(p) + HEADER_SIZE + n, false, data[n..]);
    }
  }

  lemma FrameStays(crc: Checksum, file: bytes, more: bytes, p: nat, t: byte, data: bytes)
    requires FrameAt(crc, file, p, t, data)
    ensures FrameAt(crc, file + more, p, t, data)
  {
    var q := Start(p) + HEADER_SIZE + |data|;
    assert (file + more)[Start(p)..q] == file[Start(p)..q];
  }

  lemma {:induction false} StillHolds(crc: Checksum, file: bytes, more: bytes, p: nat, begin: bool, data: bytes)
    requires Holds(crc, file, p, begin, data)
    ensures Holds(crc, file + more, p, begin, data)
    decreases |data|, if Room(p) == 0 then 1 else 0
  {
    RoomNext(p);
    var n := Part(p, |data|);
    FrameStays(crc, file, more, p, Type(begin, n == |data|), data[..n]);
    if n < |data| {
      StillHolds(crc, file, more, Start(p) + HEADER_SIZE + n, false, data[n..]);
    }
  }

  lemma {:induction false} LogPrefix(crc: Checksum, records: seq<bytes>, k: nat)
    requires k <= |records|
    ensures LogFile(crc, records[..k]) <= LogFile(crc, records)
  {
    if k < |records| {
      LogPrefix(crc, records[..|records| - 1], k);
      assert records[..|records| - 1][..k] == records[..k];
    } else {
      assert records[..k] == records;
    }
  }

  lemma LogStep(crc: Checksum, records: seq<bytes>, k: nat)
    requires k < |records|
    ensures
      var before := LogFile(crc, records[..k]);
      LogFile(crc, records[..k + 1]) == before + Frames(crc, |before|, true, records[k])
  {
    assert records[..k + 1][..k] == records[..k];
  }

  /** Every record of a log stands where the records before it end. */
  lemma RecordsHold(crc: Checksum, records: seq<bytes>, k: nat)
    requires k < |records|
    ensures Holds(crc, LogFile(crc, records), |LogFile(crc, records[..k])|, true, records[k])
    ensures EndOf(|LogFile(crc, records[..k])|, |records[k]|) == |LogFile(crc, records[..k + 1])| <= |LogFile(crc, records)|
  {
    var file, before, upto := LogFile(crc, records), LogFile(crc, records[..k]), LogFile(crc, records[..k + 1]);
    LogStep(crc, records, k);
    LogPrefix(crc, records, k + 1);
    FramesHold(crc, before, true, records[k]);
    FramesEnd(crc, |before|, true, records[k]);
    StillHolds(crc, upto, file[|upto|..], |before|, true, records[k]);
    Splits(file, upto);
  }

  lemma Splits(s: bytes, head: bytes)
    requires head <= s
    ensures head + s[|head|..] == s
  {
  }

  // ---- The writer ----

  class Writer {
    const crc: Checksum
    var dest: bytes
    var blockOffset: nat

    /** Start a log, or go on with one that holds `dest` already. */
    constructor (crc: Checksum, dest: bytes)
      ensures Valid() && this.crc == crc && this.dest == dest
    {
      OffsetIsRemainder(|dest|);
      this.crc, this.dest, blockOffset := crc, dest, |dest| % BLOCK_SIZE;
    }

    ghost predicate Valid()
      reads this
    {
      blockOffset == Offset(|dest|) || (blockOffset == BLOCK_SIZE && Offset(|dest|) == 0)
    }

    method AddRecord(slice: bytes)
      requires Valid()
      modifies this
      ensures Valid() && dest == old(dest) + Frames(crc, |old(dest)|, true, slice)
    {
      var left, begin := slice, true;
      var more := true;
      ghost var goal := Finished(crc, dest, true, true, slice);
      while more
        invariant Valid() && goal == Finished(crc, dest, more, begin, left)
        decreases more, |left|, if Room(|dest|) == 0 then 1 else 0
      {
        var length := AddFragment(begin, left);
        left, begin, more := left[length..], false, |left| > length;
      }
    }

    /** One turn of the loop: write as much of the record as the block has room for. */
    method AddFragment(begin: bool, left: bytes) returns (length: nat)
      requires Valid()
      modifies this
      ensures Valid() && length <= |left|
      ensures Finished(crc, old(dest), true, begin, left) == Finished(crc, dest, length < |left|, false, left[length..])
      ensures length == 0 < |left| ==> Room(|old(dest)|) == 0 < Room(|dest|)
    {
      ghost var was := dest;
      var avail := StartFragment();
      length := if |left| < avail then |left| else avail;
      var end := |left| == length;
      EmitPhysicalRecord(Type(begin, end), left[..length]);
      Emitted(crc, was, begin, left, dest);
      RoomNext(|was|);
    }

    /** Leave a block whose rest is too short for a header. */
    method StartFragment() returns (avail: nat)
      requires Valid()
      modifies this
      ensures dest == old(dest) + Zeros(Start(|old(dest)|) - |old(dest)|)
      ensures avail == Room(|old(dest)|) == BLOCK_SIZE - blockOffset - HEADER_SIZE
      ensures blockOffset == Offset(|dest|)
    {
      var leftover := BLOCK_SIZE - blockOffset;
      OffsetAdvance(|dest|, BLOCK_SIZE - Offset(|dest|));
      if leftover < HEADER_SIZE {
        if leftover > 0 {
          dest := dest + Zeros(leftover);
        }
        blockOffset := 0;
      }
      avail := BLOCK_SIZE - blockOffset - HEADER_SIZE;
    }

    method EmitPhysicalRecord(t: byte, data: bytes)
      requires |data| <= 0xffff && blockOffset + HEADER_SIZE + |data| <= BLOCK_SIZE && blockOffset == Offset(|dest|)
      modifies this
      ensures Valid() && dest == old(dest) + Frame(crc, t, data)
      ensures blockOffset == old(blockOffset) + HEADER_SIZE + |data|
    {
      OffsetAdvance(|dest|, HEADER_SIZE + |data|);
      var header := Fixed(Mask(crc([t] + data)), 4) + [|data| % 256, |data| / 256, t];
      dest := dest + header;
      dest := dest + data;
      blockOffset := blockOffset + HEADER_SIZE + |data|;
    }
  }

  /** What the file is once the rest of the record has been written. */
  ghost function Finished(crc: Checksum, dest: bytes, more: bool, begin: bool, left: bytes): bytes {
    dest + if more then Frames(crc, |dest|, begin, left) else []
  }

  lemma Emitted(crc: Checksum, was: bytes, begin: bool, left: bytes, dest: bytes)
    requires
      var n := Part(|was|, |left|);
      dest == was + Zeros(Start(|was|) - |was|) + Frame(crc, Type(begin, n == |left|), left[..n])
    ensures |dest| == Start(|was|) + HEADER_SIZE + Part(|was|, |left|)
    ensures
      var n := Part(|was|, |left|);
      Finished(crc, was, true, begin, left) == Finished(crc, dest, n < |left|, false, left[n..])
  {
    var n := Part(|was|, |left|);
    Assoc(was, Zeros(Start(|was|) - |was|), Frame(crc, Type(begin, n == |left|), left[..n]));
    Assoc(was, Head(crc, |was|, begin, left), Tail(crc, |was|, left));
  }

  // ---- The reader ----

  function Length16(low: byte, high: byte): nat {
    low + 256 * high
  }

  /** What a header says of its fragment. */
  lemma HeaderOf(crc: Checksum, t: byte, data: bytes)
    requires |data| <= 0xffff
    ensures
      var f := Frame(crc, t, data);
      && Length16(f[4], f[5]) == |data| && f[6] == t
      && DecodeFixed(f[..4]) == Mask(crc([t] + data))
      && f[6..] == [t] + data && f[HEADER_SIZE..] == data
  {
    var f, sum := Frame(crc, t, data), Mask(crc([t] + data));
    assert f[..4] == Fixed(sum, 4);
    Fixed32RoundTrip(sum);
  }

  // ---- What a record that is read was made of ----

  /** A fragment stands at `p`; with checksums on it is the very frame the writer makes. */
  ghost predicate FragmentAt(crc: Checksum, checksum: bool, file: bytes, p: nat, t: byte, data: bytes) {
    && |data| <= 0xffff && Start(p) + HEADER_SIZE + |data| <= |file|
    && file[Start(p) + 4..Start(p) + HEADER_SIZE + |data|] == Frame(crc, t, data)[4..]
    && (checksum ==> FrameAt(crc, file, p, t, data))
  }

  /** Where fragments with these data end, the first of them at `q`. */
  ghost function EndAfter(q: nat, ds: seq<bytes>): nat {
    if ds == [] then q else Start(EndAfter(q, ds[..|ds| - 1])) + HEADER_SIZE + |ds[|ds| - 1]|
  }

  ghost function Joined(ds: seq<bytes>): bytes {
    if ds == [] then [] else Joined(ds[..|ds| - 1]) + ds[|ds| - 1]
  }

  /** One fragment after the other from `q`, typed as the parts of one record. */
  ghost predicate Fragments(crc: Checksum, checksum: bool, file: bytes, q: nat, ds: seq<bytes>, closed: bool) {
    && ds != []
    && var n := |ds| - 1;
       && FragmentAt(crc, checksum, file, EndAfter(q, ds[..n]), Type(n == 0, closed), ds[n])
       && (n > 0 ==> Fragments(crc, checksum, file, q, ds[..n], false))
  }

  /** A record, or when not `closed` the beginning of one, whose fragments stand back to back up to `to`. */
  ghost predicate Gathered(crc: Checksum, checksum: bool, file: bytes, from: nat, to: nat, closed: bool, record: bytes) {
    exists q: nat, ds: seq<bytes> ::
      from <= q && EndAfter(q, ds) == to && Joined(ds) == record && Fragments(crc, checksum, file, q, ds, closed)
  }

  lemma GatheredOne(crc: Checksum, checksum: bool, file: bytes, from: nat, p: nat, closed: bool, data: bytes)
    requires from <= p && FragmentAt(crc, checksum, file, p, Type(true, closed), data)
    ensures Gathered(crc, checksum, file, from, Start(p) + HEADER_SIZE + |data|, closed, data)
  {
    hide Start, FragmentAt;
    var ds := [data];
    assert ds[..0] == [];
    assert EndAfter(p, ds) == Start(p) + HEADER_SIZE + |data| && Joined(ds) == data;
  }

  lemma GatheredMore(crc: Checksum, checksum: bool, file: bytes, from: nat, p: nat, closed: bool, record: bytes, data: bytes)
    requires Gathered(crc, checksum, file, from, p, false, record)
    requires FragmentAt(crc, checksum, file, p, Type(false, closed), data)
    ensures Gathered(crc, checksum, file, from, Start(p) + HEADER_SIZE + |data|, closed, record + data)
  {
    hide Start, FragmentAt;
    var q: nat, ds: seq<bytes> :|
      from <= q && EndAfter(q, ds) == p && Joined(ds) == record && Fragments(crc, checksum, file, q, ds, false);
    var more := ds + [data];
    assert more[..|more| - 1] == ds;
    assert EndAfter(q, more) == Start(p) + HEADER_SIZE + |data| && Joined(more) == record + data;
  }

  class Reader {
    const crc: Checksum
    const checksum: bool
    const file: bytes
    var buffer: bytes
    var eof: bool
    var endOfBuffer: nat
    /** Number of corruption reports. */
    var reports: nat

    constructor (crc: Checksum, checksum: bool, file: bytes)
      ensures Valid() && this.crc == crc && this.checksum == checksum && this.file == file
      ensures Pos() == 0 && reports == 0
    {
      this.crc, this.checksum, this.file := crc, checksum, file;
      buffer, eof, endOfBuffer, reports := [], false, 0, 0;
    }

    /** Everything before this offset has been consumed. */
    ghost function Pos(): nat
      requires |buffer| <= endOfBuffer
      reads this
    {
      endOfBuffer - |buffer|
    }

    /** The buffer is the unconsumed rest of the block, or of the file. */
    ghost predicate Valid()
      reads this
    {
      && |buffer| <= endOfBuffer <= |file|
      && buffer == file[Pos()..endOfBuffer]
      && |buffer| <= BLOCK_SIZE - Offset(Pos())
      && (if eof then endOfBuffer == |file| else Offset(endOfBuffer) == 0)
    }

    method ReportCorruption()
      modifies this`reports
      ensures reports == old(reports) + 1
    {
      reports := reports + 1;
    }

    /** Read the next block; a read that comes back short is the last one. */
    method FillBuffer()
      requires Valid() && |buffer| < HEADER_SIZE && !eof
      modifies this
      ensures Valid() && reports == old(reports)
      ensures Pos() == Start(old(Pos()))
      ensures |buffer| < BLOCK_SIZE ==> eof
      ensures |buffer| + |file| - endOfBuffer <= old(|buffer| + |file| - endOfBuffer)
    {
      hide Start, Offset;
      BlockEnds(Pos(), |buffer|);
      var n := if |file| - endOfBuffer < BLOCK_SIZE then |file| - endOfBuffer else BLOCK_SIZE;
      buffer := file[endOfBuffer..endOfBuffer + n];
      OffsetAdvance(endOfBuffer, n);
      endOfBuffer := endOfBuffer + n;
      if |buffer| < BLOCK_SIZE {
        eof := true;
      }
    }

    /** Bring a whole header into the buffer, past the trailer of a used-up block. */
    method FindHeader() returns (found: bool)
      requires Valid()
      modifies this
      ensures Valid() && reports == old(reports)
      ensures found ==> |buffer| >= HEADER_SIZE && Pos() == Start(old(Pos()))
      ensures !found ==> Start(old(Pos())) + HEADER_SIZE > |file|
    {
      ghost var p := Pos();
      StartIsHere(Pos(), |buffer|);
      while |buffer| < HEADER_SIZE
        invariant Valid() && reports == old(reports)
        invariant Pos() == Start(p) || (Pos() == p && |buffer| < HEADER_SIZE)
        decreases !eof, if |buffer| < HEADER_SIZE then 1 else 0
      {
        if !eof {
          FillBuffer();
          StartTwice(p);
        } else {
          buffer := [];
          return false;
        }
      }
      found := true;
    }

    /** `data` with type `t` is the next fragment of the log this file was cut from. */
    ghost predicate Next(whole: bytes, p: nat, t: byte, data: bytes) {
      file <= whole && 1 <= t <= 4 && FrameAt(crc, whole, p, t, data)
    }

    method ReadPhysicalRecord(ghost whole: bytes, ghost t: byte, ghost data: bytes) returns (r: nat, fragment: bytes)
      requires Valid()
      modifies this
      ensures Valid() && (r != EOF ==> old(Pos()) < Pos())
      ensures old(Pos()) == |file| ==> r == EOF && reports == old(reports)
      ensures 1 <= r <= 4 ==>
                FragmentAt(crc, checksum, file, old(Pos()), r, fragment)
                && Pos() == Start(old(Pos())) + HEADER_SIZE + |fragment|
      ensures Next(whole, old(Pos()), t, data) ==>
                Delivered(Start(old(Pos())) + HEADER_SIZE + |data|, t, data, r, fragment) && reports == old(reports)
    {
      ghost var p := Pos();
      var found := FindHeader();
      if !found {
        return EOF, [];
      }
      InBuffer(this, whole, p, t, data);
      StartTwice(p);
      r, fragment := ParseFragment();
      SameStart(crc, checksum, file, p, r, fragment);
    }

    /** The whole fragment is in the file and was read, or else the end of the file was. */
    ghost predicate Delivered(end: nat, t: byte, data: bytes, r: nat, fragment: bytes)
      requires |buffer| <= endOfBuffer
      reads this
    {
      if end <= |file| then r == t && fragment == data && Pos() == end else r == EOF
    }

    /** The fragment the buffer starts with, checked. */
    method ParseFragment() returns (r: nat, fragment: bytes)
      requires Valid() && |buffer| >= HEADER_SIZE
      modifies this
      ensures Valid() && (r != EOF ==> old(Pos()) < Pos())
      ensures
        var length := Length16(old(buffer)[4], old(buffer)[5]);
        if HEADER_SIZE + length > |old(buffer)|
        then old(eof) ==> r == EOF && reports == old(reports)
        else 1 <= old(buffer)[6] <= 4 && crc(old(buffer)[6..HEADER_SIZE + length]) == Unmask(DecodeCrc(old(buffer)[..4])) ==>
          && r == old(buffer)[6] && fragment == old(buffer)[HEADER_SIZE..HEADER_SIZE + length]
          && Pos() == old(Pos()) + HEADER_SIZE + length && reports == old(reports)
      ensures 1 <= r <= 4 ==>
                FragmentAt(crc, checksum, file, old(Pos()), r, fragment)
                && Pos() == old(Pos()) + HEADER_SIZE + |fragment|
    {
      hide Offset, Start, Unmask, DecodeCrc, FragmentAt, Length16;
      ghost var was, p := buffer, Pos();
      var length := Length16(buffer[4], buffer[5]);
      var kind := SignExtended(buffer[6]);
      fragment := [];
      if HEADER_SIZE + length > |buffer| {
        buffer := [];
        if !eof {
          ReportCorruption();
          return BAD_RECORD, [];
        }
        return EOF, [];
      }
      if kind == ZERO_TYPE && length == 0 {
        buffer := [];
        return BAD_RECORD, [];
      }
      if checksum {
        var stored := DecodeCrc(buffer[..4]);
        if crc(buffer[6..HEADER_SIZE + length]) != Unmask(stored) {
          buffer := [];
          ReportCorruption();
          return BAD_RECORD, [];
        }
      }
      fragment := buffer[HEADER_SIZE..HEADER_SIZE + length];
      Consumed(Pos(), |buffer|, HEADER_SIZE + length);
      buffer := buffer[HEADER_SIZE + length..];
      r := kind;
      Checked(crc, checksum, file, p, was, r, fragment);
    }

    /** `data` is the next record of the log this file was cut from. */
    ghost predicate NextRecord(whole: bytes, p: nat, begin: bool, data: bytes) {
      file <= whole && Holds(crc, whole, p, begin, data)
    }

    method ReadRecord(ghost whole: bytes, ghost data: bytes) returns (ok: bool, record: bytes)
      requires Valid()
      modifies this
      ensures Valid() && (ok ==> old(Pos()) < Pos())
      ensures old(Pos()) == |file| ==> !ok && reports == old(reports)
      ensures ok ==> Gathered(crc, checksum, file, old(Pos()), Pos(), true, record)
      ensures NextRecord(whole, old(Pos()), true, data) ==>
                var end := EndOf(old(Pos()), |data|);
                && reports == old(reports) && ok == (end <= |file|)
                && (ok ==> record == data && Pos() == end)
    {
      hide Holds, EndOf, Offset, FrameAt, Start, Gathered, FragmentAt;
      var scratch, inFragmented := [], false;
      record := [];
      ghost var p, end := Pos(), EndOf(Pos(), |data|);
      ghost var clean := NextRecord(whole, p, true, data);
      ghost var left := data;
      while true
        invariant Valid() && p <= Pos()
        invariant p == |file| ==> Pos() == |file| && reports == old(reports)
        invariant clean ==> Pending(crc, whole, data, end, Pos(), !inFragmented, scratch, left)
        invariant clean ==> reports == old(reports)
        invariant inFragmented ==> Gathered(crc, checksum, file, p, Pos(), false, scratch)
        decreases |file| - Pos()
      {
        var r, fragment;
        ghost var last;
        ghost var at, before, within := Pos(), scratch, inFragmented;
        r, fragment, last, left := ReadFragment(clean, whole, data, end, !inFragmented, scratch, left);
        var stop;
        stop, ok, scratch, inFragmented := Assemble(r, fragment, scratch, inFragmented, last);
        GatheredStep(crc, checksum, file, p, at, Pos(), r, fragment, before, within, scratch,
                     inFragmented && !stop, stop && ok);
        if stop {
          return ok, scratch;
        }
      }
    }

    /** The next physical record, seen as the next fragment of the pending record. */
    method ReadFragment(ghost clean: bool, ghost whole: bytes, ghost data: bytes, ghost end: nat, ghost begin: bool,
                        ghost scratch: bytes, ghost left: bytes)
      returns (r: nat, fragment: bytes, ghost last: bool, ghost left': bytes)
      requires Valid()
      requires clean ==> file <= whole && Pending(crc, whole, data, end, Pos(), begin, scratch, left)
      modifies this
      ensures Valid() && (r != EOF ==> old(Pos()) < Pos())
      ensures old(Pos()) == |file| ==> r == EOF && reports == old(reports)
      ensures clean ==> reports == old(reports) && (r == EOF ==> |file| < end)
      ensures 1 <= r <= 4 ==>
                FragmentAt(crc, checksum, file, old(Pos()), r, fragment)
                && Pos() == Start(old(Pos())) + HEADER_SIZE + |fragment|
      ensures clean && r != EOF ==> r == Type(begin, last)
      ensures clean && r != EOF && last ==> Pos() == end <= |file| && data == scratch + fragment
      ensures clean && r != EOF && !last ==> Pending(crc, whole, data, end, Pos(), false, scratch + fragment, left')
    {
      hide Pending, FrameAt, FragmentAt, EndOf, Start, Offset;
      ghost var n := Part(Pos(), |left|);
      last, left' := n == |left|, left[n..];
      if clean {
        PendingStep(crc, whole, data, end, Pos(), begin, scratch, left, n);
      }
      r, fragment := ReadPhysicalRecord(whole, Type(begin, last), left[..n]);
    }

    /** What one physical record does to the record being gathered. */
    method Assemble(r: nat, fragment: bytes, scratch0: bytes, inFragmented0: bool, ghost last: bool)
      returns (stop: bool, ok: bool, scratch: bytes, inFragmented: bool)
      modifies this`reports
      ensures r == EOF ==> stop && !ok && reports == old(reports)
      ensures stop ==> (ok <==> r != EOF)
      ensures Takes(r, fragment, scratch0, inFragmented0, scratch, inFragmented && !stop, stop && ok)
      ensures r == Type(!inFragmented0, last) && (!inFragmented0 ==> scratch0 == []) ==>
                && reports == old(reports) && stop == last && inFragmented == !stop
                && scratch == scratch0 + fragment
    {
      stop, ok, scratch, inFragmented := false, false, scratch0, inFragmented0;
      if r == FULL_TYPE {
        if inFragmented && scratch != [] {
          ReportCorruption();
        }
        stop, ok, scratch, inFragmented := true, true, fragment, false;
      } else if r == FIRST_TYPE {
        if inFragmented && scratch != [] {
          ReportCorruption();
        }
        scratch, inFragmented := fragment, true;
      } else if r == MIDDLE_TYPE {
        if !inFragmented {
          ReportCorruption();
        } else {
          scratch := scratch + fragment;
        }
      } else if r == LAST_TYPE {
        if !inFragmented {
          ReportCorruption();
        } else {
          stop, ok, scratch, inFragmented := true, true, scratch + fragment, false;
        }
      } else if r == EOF {
        stop, scratch := true, [];
      } else if r == BAD_RECORD {
        if inFragmented {
          ReportCorruption();
          scratch, inFragmented := [], false;
        }
      } else {
        ReportCorruption();
        scratch, inFragmented := [], false;
      }
    }
  }

  /** A fragment completes a record, leaves one begun, or is not taken. */
  ghost predicate Takes(r: nat, fragment: bytes, scratch0: bytes, inFragmented0: bool, scratch: bytes, inFragmented: bool,
                        done: bool)
  {
    && (done ==>
          || (r == FULL_TYPE && scratch == fragment)
          || (r == LAST_TYPE && inFragmented0 && scratch == scratch0 + fragment))
    && (inFragmented ==>
          || (r == FIRST_TYPE && scratch == fragment)
          || (r == MIDDLE_TYPE && inFragmented0 && scratch == scratch0 + fragment))
  }

  lemma GatheredStep(crc: Checksum, checksum: bool, file: bytes, from: nat, p: nat, to: nat, r: nat, fragment: bytes,
                     scratch0: bytes, inFragmented0: bool, scratch: bytes, inFragmented: bool, done: bool)
    requires from <= p && (inFragmented0 ==> Gathered(crc, checksum, file, from, p, false, scratch0))
    requires 1 <= r <= 4 ==>
               FragmentAt(crc, checksum, file, p, r, fragment) && to == Start(p) + HEADER_SIZE + |fragment|
    requires Takes(r, fragment, scratch0, inFragmented0, scratch, inFragmented, done)
    ensures done ==> Gathered(crc, checksum, file, from, to, true, scratch)
    ensures inFragmented ==> Gathered(crc, checksum, file, from, to, false, scratch)
  {
    hide Gathered, FragmentAt, Start;
    if r == FULL_TYPE || r == FIRST_TYPE {
      GatheredOne(crc, checksum, file, from, p, r == FULL_TYPE, fragment);
    } else if inFragmented0 && (r == MIDDLE_TYPE || r == LAST_TYPE) {
      GatheredMore(crc, checksum, file, from, p, r == LAST_TYPE, scratch0, fragment);
    }
  }

  /** What the reader checked makes a fragment. */
  lemma Checked(crc: Checksum, checksum: bool, file: bytes, p: nat, buffer: bytes, r: nat, data: bytes)
    requires p + |buffer| <= |file| && buffer == file[p..p + |buffer|] && |buffer| <= BLOCK_SIZE - Offset(p)
    requires HEADER_SIZE + |data| <= |buffer| && data == buffer[HEADER_SIZE..HEADER_SIZE + |data|]
    requires |data| == Length16(buffer[4], buffer[5]) && r == SignExtended(buffer[6])
    requires checksum ==> crc(buffer[6..HEADER_SIZE + |data|]) == Unmask(DecodeCrc(buffer[..4]))
    ensures 1 <= r <= 4 ==> FragmentAt(crc, checksum, file, p, r, data)
  {
    hide Offset, Start, Frame, Unmask, DecodeCrc, Mask, Length16;
    StartIsHere(p, |buffer|);
    var n, t := HEADER_SIZE + |data|, buffer[6];
    HeaderParts(buffer, data);
    FrameParts(crc, t, data);
    Within(file, p, buffer, n);
    if checksum {
      StoredCrc(crc([t] + data), buffer[..4]);
      assert buffer[..n] == buffer[..4] + buffer[4..n];
    }
  }

  lemma Within(file: bytes, p: nat, buffer: bytes, n: nat)
    requires p + |buffer| <= |file| && buffer == file[p..p + |buffer|] && 4 <= n <= |buffer|
    ensures file[p + 4..p + n] == buffer[4..n] && file[p..p + n] == buffer[..n]
  {
  }

  lemma HeaderParts(buffer: bytes, data: bytes)
    requires HEADER_SIZE + |data| <= |buffer| && data == buffer[HEADER_SIZE..HEADER_SIZE + |data|]
    requires |data| == Length16(buffer[4], buffer[5])
    ensures |data| <= 0xffff
    ensures buffer[4..HEADER_SIZE + |data|] == [|data| % 256, |data| / 256, buffer[6]] + data
    ensures buffer[6..HEADER_SIZE + |data|] == [buffer[6]] + data
  {
  }

  lemma FrameParts(crc: Checksum, t: byte, data: bytes)
    requires |data| <= 0xffff
    ensures Frame(crc, t, data) == Fixed(Mask(crc([t] + data)), 4) + ([|data| % 256, |data| / 256, t] + data)
    ensures Frame(crc, t, data)[4..] == [|data| % 256, |data| / 256, t] + data
  {
    Assoc(Fixed(Mask(crc([t] + data)), 4), [|data| % 256, |data| / 256, t], data);
  }

  lemma StoredCrc(c: uint32, stored: bytes)
    requires |stored| == 4 && c == Unmask(DecodeCrc(stored))
    ensures stored == Fixed(Mask(c), 4)
  {
    UnmaskRoundTrip(DecodeCrc(stored));
    FixedOfDecoded(stored);
  }

  lemma SameStart(crc: Checksum, checksum: bool, file: bytes, p: nat, r: nat, data: bytes)
    requires 1 <= r <= 4 ==> FragmentAt(crc, checksum, file, Start(p), r, data)
    ensures 1 <= r <= 4 ==> FragmentAt(crc, checksum, file, p, r, data)
  {
    StartTwice(p);
  }

  /** Midway through a record at `p`: what was gathered, and what the log still holds of it. */
  ghost predicate Pending(crc: Checksum, whole: bytes, data: bytes, end: nat, p: nat, begin: bool, scratch: bytes, left: bytes) {
    && Holds(crc, whole, p, begin, left) && EndOf(p, |left|) == end
    && data == scratch + left && (begin ==> scratch == [])
  }

  /** What the next fragment of a record brings. */
  lemma PendingStep(crc: Checksum, whole: bytes, data: bytes, end: nat, p: nat, begin: bool, scratch: bytes, left: bytes, n: nat)
    requires Pending(crc, whole, data, end, p, begin, scratch, left) && n == Part(p, |left|)
    ensures FrameAt(crc, whole, p, Type(begin, n == |left|), left[..n])
    ensures
      var q := Start(p) + HEADER_SIZE + n;
      && q <= end
      && (n == |left| ==> q == end && data == scratch + left[..n])
      && (n < |left| ==> Pending(crc, whole, data, end, q, false, scratch + left[..n], left[n..]))
  {
    EndSplit(p, |left|);
    HoldsSplit(crc, whole, p, begin, left);
    hide Holds, EndOf, FrameAt, Start, Room;
    Cut(left, n);
    Assoc(scratch, left[..n], left[n..]);
  }

  lemma EndSplit(p: nat, n: nat)
    ensures
      var k := Part(p, n);
      EndOf(p, n) == if k == n then Start(p) + HEADER_SIZE + n else EndOf(Start(p) + HEADER_SIZE + k, n - k)
  {
  }

  lemma Cut(s: bytes, n: nat)
    requires n <= |s|
    ensures s == s[..n] + s[n..] && (n == |s| ==> s[..n] == s)
  {
  }

  /** The header holds a signed character, widened to an unsigned integer. */
  function SignExtended(b: byte): nat {
    if b < 128 then b else 0xffff_ff00 + b
  }

  lemma StartIsHere(p: nat, n: nat)
    requires n <= BLOCK_SIZE - Offset(p)
    ensures n >= HEADER_SIZE ==> Start(p) == p
  {
  }

  lemma StartTwice(p: nat)
    ensures Start(Start(p)) == Start(p)
  {
  }

  lemma Consumed(p: nat, n: nat, k: nat)
    requires k <= n <= BLOCK_SIZE - Offset(p)
    ensures n - k <= BLOCK_SIZE - Offset(p + k)
  {
    OffsetAdvance(p, k);
  }

  /** Short of the end of the file the buffer reaches to the end of its block. */
  lemma ReachesEnd(p: nat, n: nat)
    requires 0 < n <= BLOCK_SIZE - Offset(p) && Offset(p + n) == 0
    ensures n == BLOCK_SIZE - Offset(p)
  {
    OffsetAdvance(p, n);
  }

  /** The buffer starts with as much of the expected fragment as the file still has. */
  lemma InBuffer(r: Reader, whole: bytes, p: nat, t: byte, data: bytes)
    requires r.Valid() && r.Pos() == Start(p) && |r.buffer| >= HEADER_SIZE
    ensures r.Next(whole, p, t, data) ==>
              && Length16(r.buffer[4], r.buffer[5]) == |data| && r.buffer[6] == t
              && (Start(p) + HEADER_SIZE + |data| <= |r.file| <==> HEADER_SIZE + |data| <= |r.buffer|)
              && (HEADER_SIZE + |data| > |r.buffer| ==> r.eof)
              && (HEADER_SIZE + |data| <= |r.buffer| ==>
                    && r.buffer[HEADER_SIZE..HEADER_SIZE + |data|] == data
                    && Unmask(DecodeCrc(r.buffer[..4])) == r.crc(r.buffer[6..HEADER_SIZE + |data|]))
  {
    if r.Next(whole, p, t, data) {
      var f, s := Frame(r.crc, t, data), Start(p);
      assert f == whole[s..s + |f|];
      forall i | 0 <= i < |r.buffer| && i < |f|
        ensures r.buffer[i] == f[i]
      {
        assert r.buffer[i] == r.file[s + i] == whole[s + i] == f[i];
      }
      HeaderOf(r.crc, t, data);
      if !r.eof {
        ReachesEnd(s, |r.buffer|);
      }
      assert r.buffer[..4] == f[..4];
      MaskRoundTrip(r.crc([t] + data));
      if HEADER_SIZE + |data| <= |r.buffer| {
        assert r.buffer[6..HEADER_SIZE + |data|] == f[6..];
        assert r.buffer[HEADER_SIZE..HEADER_SIZE + |data|] == f[HEADER_SIZE..];
      }
    }
  }

  /** A short rest of a block is the trailer the writer skips. */
  lemma BlockEnds(p: nat, n: nat)
    requires n < HEADER_SIZE && n <= BLOCK_SIZE - Offset(p) && Offset(p + n) == 0
    ensures Start(p) == p + n
  {
    OffsetAdvance(p, n);
  }

  // ---- Writing, crashing, reading ----

  method WriteLog(crc: Checksum, records: seq<bytes>) returns (file: bytes)
    ensures file == LogFile(crc, records)
  {
    var w := new Writer(crc, []);
    assert records[..0] == [];
    for i := 0 to |records|
      invariant w.Valid() && w.crc == crc && w.dest == LogFile(crc, records[..i])
    {
      w.AddRecord(records[i]);
      LogStep(crc, records, i);
    }
    assert records[..|records|] == records;
    file := w.dest;
  }

  /** Where the first `k` records of a log end. */
  ghost function EndAt(crc: Checksum, records: seq<bytes>, k: nat): nat
    requires k <= |records|
  {
    |LogFile(crc, records[..k])|
  }

  lemma EndsAscend(crc: Checksum, records: seq<bytes>, j: nat, k: nat)
    requires j <= k <= |records|
    ensures EndAt(crc, records, j) <= EndAt(crc, records, k)
  {
    LogPrefix(crc, records[..k], j);
    assert records[..k][..j] == records[..j];
  }

  lemma EmptyStart(crc: Checksum, records: seq<bytes>)
    ensures EndAt(crc, records, 0) == 0
  {
    assert records[..0] == [];
  }

  lemma EndOfAll(crc: Checksum, records: seq<bytes>)
    ensures EndAt(crc, records, |records|) == |LogFile(crc, records)|
  {
    assert records[..|records|] == records;
  }

  /** Having read `k` records, the next call reads the next one, if it is whole. */
  method ReadNext(r: Reader, ghost records: seq<bytes>, ghost k: nat) returns (ok: bool, record: bytes)
    requires r.Valid() && k <= |records| && r.file <= LogFile(r.crc, records)
    requires r.Pos() == EndAt(r.crc, records, k)
    modifies r
    ensures r.Valid() && r.reports == old(r.reports)
    ensures ok == (k < |records| && EndAt(r.crc, records, k + 1) <= |r.file|)
    ensures ok ==> record == records[k] && r.Pos() == EndAt(r.crc, records, k + 1) > old(r.Pos())
  {
    ghost var next := if k < |records| then records[k] else [];
    if k < |records| {
      RecordsHold(r.crc, records, k);
    } else {
      assert records[..k] == records;
    }
    ok, record := r.ReadRecord(LogFile(r.crc, records), next);
  }

  /** Read a log to its end, as recovery does. */
  method ReadLog(crc: Checksum, checksum: bool, file: bytes, ghost records: seq<bytes>)
    returns (read: seq<bytes>, reports: nat)
    requires file <= LogFile(crc, records)
    ensures |read| <= |records| && read == records[..|read|] && reports == 0
    ensures forall k :: 0 <= k <= |records| ==> (k <= |read| <==> EndAt(crc, records, k) <= |file|)
  {
    hide LogFile, EndAt, Offset;
    var r := new Reader(crc, checksum, file);
    read := [];
    assert records[..0] == [];
    EmptyStart(crc, records);
    var ok, record := ReadNext(r, records, 0);
    while ok
      invariant r.Valid() && r.crc == crc && r.file == file && r.reports == 0
      invariant |read| <= |records| && read == records[..|read|] && EndAt(crc, records, |read|) <= |file|
      invariant ok == (|read| < |records| && EndAt(crc, records, |read| + 1) <= |file|)
      invariant ok ==> record == records[|read|] && r.Pos() == EndAt(crc, records, |read| + 1)
      decreases ok, |file| - r.Pos()
    {
      OneMore(read, records, record);
      read := read + [record];
      ok, record := ReadNext(r, records, |read|);
    }
    reports := r.reports;
    CutBetween(crc, records, |read|, |file|);
  }

  lemma CutBetween(crc: Checksum, records: seq<bytes>, n: nat, size: nat)
    requires n <= |records| && EndAt(crc, records, n) <= size
    requires n < |records| ==> size < EndAt(crc, records, n + 1)
    ensures forall k :: 0 <= k <= |records| ==> (k <= n <==> EndAt(crc, records, k) <= size)
  {
    forall k | 0 <= k <= |records|
      ensures k <= n <==> EndAt(crc, records, k) <= size
    {
      if k <= n {
        EndsAscend(crc, records, k, n);
      } else {
        EndsAscend(crc, records, n + 1, k);
      }
    }
  }

  lemma OneMore(read: seq<bytes>, records: seq<bytes>, record: bytes)
    requires |read| < |records| && read == records[..|read|] && record == records[|read|]
    ensures read + [record] == records[..|read| + 1]
  {
  }

  /**
   A crash may cut the log at any byte.  Reading what is left gives exactly the records that
   were complete before the cut, in order, and reports no corruption.
   */
  method CrashRoundTrip(crc: Checksum, checksum: bool, records: seq<bytes>, cut: nat)
    returns (read: seq<bytes>, reports: nat)
    requires cut <= |LogFile(crc, records)|
    ensures |read| <= |records| && read == records[..|read|] && reports == 0
    ensures forall k :: 0 <= k <= |records| ==> (k <= |read| <==> EndAt(crc, records, k) <= cut)
  {
    var file := WriteLog(crc, records);
    read, reports := ReadLog(crc, checksum, file[..cut], records);
  }
}
