/**
 The manifest: every change of version is logged as an edit before it takes effect, and
 replaying the log gives the version back, wherever a crash cut it (db/version_set.cc,
 LogAndApply, WriteSnapshot and Recover).
 */
module Manifest {
  import opened Coding
  import opened Crc
  import opened Entries
  import opened Versions
  import opened StoreState
  import VB = VersionBuilder
  import VE = VersionEdit
  import Log
  import Store

  // ---- Replaying edits on values ----

  const NO_FILES: Levels := [[], [], [], [], [], [], []]

  /** Everything a run of edits ever added to a level. */
  ghost function EverAdded(edits: seq<VB.Edit>, l: nat): set<File> {
    if edits == [] then {} else EverAdded(edits[..|edits| - 1], l) + VB.AddedAt(edits[|edits| - 1].added, l)
  }

  ghost predicate OneFilePerNumberEver(edits: seq<VB.Edit>) {
    forall l: nat :: l < NUM_LEVELS ==> VB.OneFilePerNumber(EverAdded(edits, l))
  }

  /** One edit after another, each giving the next version. */
  ghost predicate Evolves(vs: seq<Levels>, edits: seq<VB.Edit>) {
    && |vs| == |edits| + 1 && vs[0] == NO_FILES
    && forall i :: 0 <= i < |edits| ==> EditStep(vs[i], edits[i], vs[i + 1])
  }

  ghost predicate EditStep(v: Levels, e: VB.Edit, v': Levels) {
    && |v| == NUM_LEVELS && VB.EditInRange(e) && AllOrdered(v')
    && Edited(v, e.deleted, Store.AdditionsOf(e), v')
  }

  /** What a builder that saw some edits holds, against the version they lead to. */
  ghost predicate Tracks(b: VB.Builder, v: Levels, edits: seq<VB.Edit>)
    reads b
  {
    && b.Valid() && |v| == NUM_LEVELS
    && (forall l: nat :: l < NUM_LEVELS ==> b.Added(l) == EverAdded(edits, l))
    && (forall l: nat, f :: l < NUM_LEVELS ==> (f in v[l] <==> f in b.Added(l) && f.number !in b.deleted[l]))
  }

  lemma {:induction false} EverPrefix(edits: seq<VB.Edit>, k: nat, l: nat)
    requires k <= |edits|
    ensures EverAdded(edits[..k], l) <= EverAdded(edits, l)
  {
    if k < |edits| {
      EverPrefix(edits[..|edits| - 1], k, l);
      assert edits[..|edits| - 1][..k] == edits[..k];
    } else {
      assert edits[..k] == edits;
    }
  }

  lemma EverStep(edits: seq<VB.Edit>, k: nat, l: nat)
    requires k < |edits|
    ensures EverAdded(edits[..k + 1], l) == EverAdded(edits[..k], l) + VB.AddedAt(edits[k].added, l)
  {
    assert edits[..k + 1][..k] == edits[..k];
  }

  /** A file is live after an edit just when it was ever added and its number is not deleted. */
  lemma ReplayStep(v: Levels, e: VB.Edit, v': Levels, l: nat, added: set<File>, deleted: set<nat>, f: File)
    requires EditStep(v, e, v') && l < NUM_LEVELS && |v'| == NUM_LEVELS
    requires f in v[l] <==> f in added && f.number !in deleted
    requires VB.OneFilePerNumber(added + VB.AddedAt(e.added, l))
    ensures f in v'[l] <==> f in added + VB.AddedAt(e.added, l)
                            && f.number !in deleted + VB.DeletedAt(e, l) - VB.Numbers(VB.AddedAt(e.added, l))
  {
    var news := VB.AddedAt(e.added, l);
    assert f in news <==> (l, f) in Store.AdditionsOf(e);
    assert f.number in VB.DeletedAt(e, l) <==> (l, f.number) in e.deleted;
    if f.number in VB.Numbers(news) && f in added {
      var g :| g in news && g.number == f.number;
      assert f == g;
    }
  }

  method ApplyNext(b: VB.Builder, e: VB.Edit, ghost edits: seq<VB.Edit>, ghost vs: seq<Levels>, ghost k: nat)
    requires Evolves(vs, edits) && OneFilePerNumberEver(edits) && k < |edits| && e == edits[k]
    requires Tracks(b, vs[k], edits[..k])
    modifies b
    ensures Tracks(b, vs[k + 1], edits[..k + 1])
  {
    forall l: nat | l < NUM_LEVELS
      ensures EverAdded(edits[..k + 1], l) == EverAdded(edits[..k], l) + VB.AddedAt(e.added, l)
      ensures VB.OneFilePerNumber(EverAdded(edits[..k], l) + VB.AddedAt(e.added, l))
    {
      EverStep(edits, k, l);
      EverPrefix(edits, k + 1, l);
    }
    assert EditStep(vs[k], e, vs[k + 1]);
    ghost var added, deleted := b.added, b.deleted;
    b.Apply(e);
    forall l: nat, f | l < NUM_LEVELS
      ensures f in vs[k + 1][l] <==> f in b.Added(l) && f.number !in b.deleted[l]
    {
      ReplayStep(vs[k], e, vs[k + 1], l, EverAdded(edits[..k], l), deleted[l], f);
    }
  }

  lemma SavedIsLast(b: VB.Builder, v: Levels, last: Levels)
    requires b.Valid() && |v| == |last| == NUM_LEVELS && AllOrdered(last)
    requires forall l: nat, f :: l < NUM_LEVELS ==> (f in last[l] <==> f in b.Added(l) && f.number !in b.deleted[l])
    requires forall l :: 0 <= l < NUM_LEVELS ==> VB.Saved([], b.added[l], b.deleted[l], v[l])
    ensures v == last
  {
    forall l: nat | l < NUM_LEVELS
      ensures v[l] == last[l]
    {
      assert forall f :: f in b.added[l] <==> f in b.Added(l);
      VB.OrderedIsUnique(v[l], last[l]);
    }
  }

  /** Saving once what all edits so far have built up. */
  method SaveAll(b: VB.Builder, ghost edits: seq<VB.Edit>, ghost vs: seq<Levels>, ghost k: nat) returns (v: Levels)
    requires Evolves(vs, edits) && k <= |edits| && b.base == NO_FILES && Tracks(b, vs[k], edits[..k])
    ensures v == vs[k]
  {
    v := b.SaveTo();
    KthOrdered(vs, edits, k);
    SavedIsLast(b, v, vs[k]);
  }

  lemma Started(b: VB.Builder, edits: seq<VB.Edit>, vs: seq<Levels>)
    requires Evolves(vs, edits) && b.Valid() && forall l :: 0 <= l < NUM_LEVELS ==> b.deleted[l] == {} && b.added[l] == []
    ensures Tracks(b, vs[0], edits[..0])
  {
  }

  lemma KthOrdered(vs: seq<Levels>, edits: seq<VB.Edit>, k: nat)
    requires Evolves(vs, edits) && k <= |edits|
    ensures |vs[k]| == NUM_LEVELS && AllOrdered(vs[k])
  {
    if k > 0 {
      assert EditStep(vs[k - 1], edits[k - 1], vs[k]);
    }
  }

  // ---- Edits as records ----

  /** Opening a table: what the file a metadata record names holds. */
  type Loader = VE.FileMeta -> File

  function Pair(level: nat, number: nat): (nat, nat) {
    (level, number)
  }

  function Placed(level: nat, f: File): (nat, File) {
    (level, f)
  }

  /** The edit a decoded record stands for. */
  function Loaded(load: Loader, e: VE.Edit): VB.Edit {
    VB.Edit(set d | d in e.deleted :: Pair(d.level, d.number),
            seq(|e.added|, i requires 0 <= i < |e.added| => Placed(e.added[i].level, load(e.added[i].meta))))
  }

  ghost function LoadedAll(load: Loader, edits: seq<VE.Edit>): (r: seq<VB.Edit>)
    ensures |r| == |edits| && forall i :: 0 <= i < |edits| ==> r[i] == Loaded(load, edits[i])
  {
    seq(|edits|, i requires 0 <= i < |edits| => Loaded(load, edits[i]))
  }

  ghost predicate EditsOk(edits: seq<VE.Edit>) {
    forall i :: 0 <= i < |edits| ==> VE.EditOk(edits[i])
  }

  ghost function Records(edits: seq<VE.Edit>): (r: seq<bytes>)
    requires EditsOk(edits)
    ensures |r| == |edits| && forall i :: 0 <= i < |edits| ==> r[i] == VE.Record(edits[i])
  {
    seq(|edits|, i requires 0 <= i < |edits| => VE.Record(edits[i]))
  }

  lemma LoadedInRange(load: Loader, e: VE.Edit)
    requires VE.PartsOk(e)
    ensures VB.EditInRange(Loaded(load, e))
  {
    forall i | 0 <= i < |e.added|
      ensures Loaded(load, e).added[i].0 < NUM_LEVELS
    {
      assert e.added[i].level < NUM_LEVELS;
    }
  }

  // ---- Counters ----

  datatype Counters = Counters(log: Option<uint64>, prevLog: Option<uint64>, nextFile: Option<uint64>, lastSequence: Option<uint64>)

  function Later(now: Option<uint64>, said: Option<uint64>): Option<uint64> {
    if said.Some? then said else now
  }

  function Count(c: Counters, e: VE.Edit): Counters {
    Counters(Later(c.log, e.logNumber), Later(c.prevLog, e.prevLogNumber), Later(c.nextFile, e.nextFile),
             Later(c.lastSequence, e.lastSequence))
  }

  ghost function CountAll(edits: seq<VE.Edit>): Counters {
    if edits == [] then Counters(None, None, None, None)
    else Count(CountAll(edits[..|edits| - 1]), edits[|edits| - 1])
  }

  datatype Counter = LogCounter | PrevLogCounter | NextFileCounter | SequenceCounter

  function Said(e: VE.Edit, which: Counter): Option<uint64> {
    match which
    case LogCounter => e.logNumber
    case PrevLogCounter => e.prevLogNumber
    case NextFileCounter => e.nextFile
    case SequenceCounter => e.lastSequence
  }

  function Counted(c: Counters, which: Counter): Option<uint64> {
    match which
    case LogCounter => c.log
    case PrevLogCounter => c.prevLog
    case NextFileCounter => c.nextFile
    case SequenceCounter => c.lastSequence
  }

  /** Edit `i` is the last to name the counter. */
  ghost predicate LastSays(edits: seq<VE.Edit>, which: Counter, i: nat) {
    && i < |edits| && Said(edits[i], which).Some?
    && forall j :: i < j < |edits| ==> Said(edits[j], which).None?
  }

  ghost predicate NeverSaid(edits: seq<VE.Edit>, which: Counter) {
    forall i :: 0 <= i < |edits| ==> Said(edits[i], which).None?
  }

  /** Every counter is what the last edit naming it says. */
  ghost predicate LastCounts(edits: seq<VE.Edit>, c: Counters) {
    && (forall which, i: nat :: LastSays(edits, which, i) ==> Counted(c, which) == Said(edits[i], which))
    && (forall which :: NeverSaid(edits, which) ==> Counted(c, which) == None)
  }

  lemma {:induction false} CountIsLast(edits: seq<VE.Edit>)
    ensures LastCounts(edits, CountAll(edits))
  {
    if edits != [] {
      var n := |edits| - 1;
      CountIsLast(edits[..n]);
      forall which, i: nat | LastSays(edits, which, i)
        ensures Counted(CountAll(edits), which) == Said(edits[i], which)
      {
        if i < n {
          assert LastSays(edits[..n], which, i);
        }
      }
      forall which | NeverSaid(edits, which)
        ensures Counted(CountAll(edits), which) == None
      {
        assert NeverSaid(edits[..n], which);
      }
    }
  }

  // ---- Compaction pointers ----

  const NO_POINTERS: seq<bytes> := [[], [], [], [], [], [], []]

  function PointersAfter(ps: seq<bytes>, moves: seq<VE.Pointer>): (r: seq<bytes>)
    requires LevelsIn(moves, |ps|)
    ensures |r| == |ps|
  {
    if moves == [] then ps
    else
      var m := moves[|moves| - 1];
      PointersAfter(ps, moves[..|moves| - 1])[m.level := m.key]
  }

  ghost predicate LevelsIn(moves: seq<VE.Pointer>, n: nat) {
    forall i :: 0 <= i < |moves| ==> moves[i].level < n
  }

  /** Move `i` is the last one of its level. */
  ghost predicate LastMove(moves: seq<VE.Pointer>, l: nat, i: nat) {
    && i < |moves| && moves[i].level == l
    && forall j :: i < j < |moves| ==> moves[j].level != l
  }

  ghost predicate NotMoved(moves: seq<VE.Pointer>, l: nat) {
    forall i :: 0 <= i < |moves| ==> moves[i].level != l
  }

  /** Each level's pointer is the last one given for it, or the old one. */
  ghost predicate PointersMoved(ps: seq<bytes>, moves: seq<VE.Pointer>, ps': seq<bytes>) {
    && |ps'| == |ps|
    && (forall l: nat, i: nat :: l < |ps| && LastMove(moves, l, i) ==> ps'[l] == moves[i].key)
    && (forall l: nat :: l < |ps| && NotMoved(moves, l) ==> ps'[l] == ps[l])
  }

  lemma {:induction false} AfterIsMoved(ps: seq<bytes>, moves: seq<VE.Pointer>)
    requires LevelsIn(moves, |ps|)
    ensures PointersMoved(ps, moves, PointersAfter(ps, moves))
  {
    if moves != [] {
      var n := |moves| - 1;
      AfterIsMoved(ps, moves[..n]);
      forall l: nat, i: nat | l < |ps| && LastMove(moves, l, i)
        ensures PointersAfter(ps, moves)[l] == moves[i].key
      {
        if i < n {
          assert LastMove(moves[..n], l, i);
        }
      }
      forall l: nat | l < |ps| && NotMoved(moves, l)
        ensures PointersAfter(ps, moves)[l] == ps[l]
      {
        assert NotMoved(moves[..n], l);
      }
    }
  }

  lemma OneMoveMore(ps: seq<bytes>, moves: seq<VE.Pointer>, i: nat)
    requires i < |moves| && LevelsIn(moves, |ps|)
    ensures PointersAfter(ps, moves[..i + 1]) == PointersAfter(ps, moves[..i])[moves[i].level := moves[i].key]
  {
    assert moves[..i + 1][..i] == moves[..i];
  }

  lemma {:induction false} MovesInTurn(ps: seq<bytes>, a: seq<VE.Pointer>, b: seq<VE.Pointer>)
    requires LevelsIn(a, |ps|) && LevelsIn(b, |ps|)
    ensures LevelsIn(a + b, |ps|) && PointersAfter(ps, a + b) == PointersAfter(PointersAfter(ps, a), b)
    decreases |b|
  {
    if b == [] {
      assert a + b == a;
    } else {
      var n := |b| - 1;
      MovesInTurn(ps, a, b[..n]);
      assert (a + b)[..|a + b| - 1] == a + b[..n];
    }
  }

  lemma {:induction false} LastOrNone(moves: seq<VE.Pointer>, l: nat) returns (i: nat)
    ensures LastMove(moves, l, i) || NotMoved(moves, l)
  {
    i := 0;
    if moves != [] {
      var n := |moves| - 1;
      i := LastOrNone(moves[..n], l);
      if moves[n].level == l {
        i := n;
      }
    }
  }

  /** Moving the pointers once more changes nothing. */
  lemma MovedTwice(ps: seq<bytes>, moves: seq<VE.Pointer>)
    requires LevelsIn(moves, |ps|)
    ensures PointersAfter(PointersAfter(ps, moves), moves) == PointersAfter(ps, moves)
  {
    var once := PointersAfter(ps, moves);
    var twice := PointersAfter(once, moves);
    AfterIsMoved(ps, moves);
    AfterIsMoved(once, moves);
    forall l | 0 <= l < |ps|
      ensures once[l] == twice[l]
    {
      var i := LastOrNone(moves, l);
    }
  }

  /** All pointers the edits give, in turn. */
  ghost function AllMoves(edits: seq<VE.Edit>): (r: seq<VE.Pointer>)
    requires EditsOk(edits)
    ensures LevelsIn(r, NUM_LEVELS)
  {
    if edits == [] then []
    else
      var n := |edits| - 1;
      assert VE.EditOk(edits[n]);
      EditMoves(edits[n]);
      AllMoves(edits[..n]) + edits[n].pointers
  }

  lemma EditMoves(e: VE.Edit)
    requires VE.EditOk(e)
    ensures LevelsIn(e.pointers, NUM_LEVELS)
  {
    VE.PartsMakeEdit(e);
  }

  /** The pointers the edits leave, starting from none. */
  ghost function PointersLeft(edits: seq<VE.Edit>): (r: seq<bytes>)
    requires EditsOk(edits)
    ensures |r| == NUM_LEVELS
  {
    PointersAfter(NO_POINTERS, AllMoves(edits))
  }

  /** An edit whose pointers stand already, in the base edit before it, leaves them standing. */
  lemma LeftAfter(edits: seq<VE.Edit>, e: VE.Edit, start: seq<bytes>)
    requires EditsOk(edits) && VE.EditOk(e) && |start| == NUM_LEVELS && LevelsIn(e.pointers, NUM_LEVELS)
    requires PointersLeft(edits) == start || PointersLeft(edits) == PointersAfter(start, e.pointers)
    ensures EditsOk(edits + [e]) && PointersLeft(edits + [e]) == PointersAfter(start, e.pointers)
  {
    hide VE.EditOk;
    assert (edits + [e])[..|edits|] == edits;
    MovesInTurn(NO_POINTERS, AllMoves(edits), e.pointers);
    MovedTwice(start, e.pointers);
  }

  // ---- Recovery ----

  ghost predicate History(load: Loader, name: bytes, edits: seq<VE.Edit>, vs: seq<Levels>) {
    && EditsOk(edits) && Evolves(vs, LoadedAll(load, edits)) && OneFilePerNumberEver(LoadedAll(load, edits))
    && forall i :: 0 <= i < |edits| ==> edits[i].comparator.None? || edits[i].comparator == Some(name)
  }

  /** Apply one record to the builder, the counters and the pointers. */
  method ApplyRecord(load: Loader, name: bytes, b: VB.Builder, record: bytes, c: Counters, ps: seq<bytes>,
                     ghost edits: seq<VE.Edit>, ghost vs: seq<Levels>, ghost k: nat)
    returns (ok: bool, c': Counters, ps': seq<bytes>)
    requires History(load, name, edits, vs) && k < |edits| && record == VE.Record(edits[k])
    requires Tracks(b, vs[k], LoadedAll(load, edits)[..k]) && c == CountAll(edits[..k]) && ps == PointersLeft(edits[..k])
    modifies b
    ensures ok && Tracks(b, vs[k + 1], LoadedAll(load, edits)[..k + 1]) && c' == CountAll(edits[..k + 1])
    ensures ps' == PointersLeft(edits[..k + 1])
  {
    hide VE.Record, VE.EditOk, VE.Decode, Tracks, PointersLeft, PointersAfter;
    var decoded := VE.DecodeFrom(record);
    if decoded.None? || (decoded.value.comparator.Some? && decoded.value.comparator.value != name) {
      return false, c, ps;
    }
    var edit := decoded.value;
    ApplyNext(b, Loaded(load, edit), LoadedAll(load, edits), vs, k);
    c' := Count(c, edit);
    LeftStep(edits, k);
    ps' := MoveAll(ps, edit.pointers);
    ok := true;
    assert edits[..k + 1][..k] == edits[..k];
  }

  lemma LeftStep(edits: seq<VE.Edit>, k: nat)
    requires EditsOk(edits) && k < |edits|
    ensures LevelsIn(edits[k].pointers, NUM_LEVELS)
    ensures PointersLeft(edits[..k + 1]) == PointersAfter(PointersLeft(edits[..k]), edits[k].pointers)
  {
    hide VE.EditOk;
    EditMoves(edits[k]);
    assert edits[..k + 1][..k] == edits[..k];
    MovesInTurn(NO_POINTERS, AllMoves(edits[..k]), edits[k].pointers);
  }

  lemma NoneLeft(edits: seq<VE.Edit>)
    ensures PointersLeft(edits[..0]) == NO_POINTERS
  {
  }

  lemma LeftIsMoved(edits: seq<VE.Edit>)
    requires EditsOk(edits)
    ensures PointersMoved(NO_POINTERS, AllMoves(edits), PointersLeft(edits))
  {
    AfterIsMoved(NO_POINTERS, AllMoves(edits));
  }

  method MoveAll(ps: seq<bytes>, moves: seq<VE.Pointer>) returns (r: seq<bytes>)
    requires LevelsIn(moves, |ps|)
    ensures r == PointersAfter(ps, moves)
  {
    hide PointersAfter;
    r := ps;
    NoMoves(ps, moves);
    for i := 0 to |moves|
      invariant |r| == |ps| && r == PointersAfter(ps, moves[..i])
    {
      OneMoveMore(ps, moves, i);
      r := r[moves[i].level := moves[i].key];
    }
    assert moves[..|moves|] == moves;
  }

  lemma NoMoves(ps: seq<bytes>, moves: seq<VE.Pointer>)
    ensures PointersAfter(ps, moves[..0]) == ps
  {
  }

  /**
   Replaying a manifest that a crash cut anywhere: the version after the edits whose records
   are whole, or an error if those never named the counters.
   */
  method Recover(crc: Checksum, load: Loader, name: bytes, file: bytes, ghost edits: seq<VE.Edit>, ghost vs: seq<Levels>)
    returns (ok: bool, v: Levels, c: Counters, ps: seq<bytes>, ghost k: nat)
    requires History(load, name, edits, vs) && file <= Log.LogFile(crc, Records(edits))
    ensures k <= |edits|
    ensures forall j :: 0 <= j <= |edits| ==> (j <= k <==> Log.EndAt(crc, Records(edits), j) <= |file|)
    ensures LastCounts(edits[..k], c) && ps == PointersLeft(edits[..k])
    ensures PointersMoved(NO_POINTERS, AllMoves(edits[..k]), ps)
    ensures c == CountAll(edits[..k]) && ok == (c.nextFile.Some? && c.log.Some? && c.lastSequence.Some?)
    ensures ok ==> v == vs[k]
  {
    hide VE.Record, VE.EditOk, Log.LogFile, Tracks, LastCounts, PointersLeft, PointersAfter, PointersMoved;
    var r := new Log.Reader(crc, true, file);
    var b := new VB.Builder(NO_FILES);
    ghost var records := Records(edits);
    c, ps, k := Counters(None, None, None, None), NO_POINTERS, 0;
    NoneLeft(edits);
    Started(b, LoadedAll(load, edits), vs);
    Log.EmptyStart(crc, records);
    var more, record := Log.ReadNext(r, records, 0);
    while more
      invariant r.Valid() && r.crc == crc && r.file == file && fresh(r) && fresh(b) && b.base == NO_FILES
      invariant k <= |edits| && Log.EndAt(crc, records, k) <= |file|
      invariant more == (k < |edits| && Log.EndAt(crc, records, k + 1) <= |file|)
      invariant more ==> record == records[k] && r.Pos() == Log.EndAt(crc, records, k + 1)
      invariant Tracks(b, vs[k], LoadedAll(load, edits)[..k]) && c == CountAll(edits[..k])
      invariant ps == PointersLeft(edits[..k])
      decreases more, |file| - r.Pos()
    {
      var applied;
      applied, c, ps := ApplyRecord(load, name, b, record, c, ps, edits, vs, k);
      k := k + 1;
      more, record := Log.ReadNext(r, records, k);
    }
    Log.CutBetween(crc, records, k, |file|);
    CountIsLast(edits[..k]);
    LeftIsMoved(edits[..k]);
    ok, v := c.nextFile.Some? && c.log.Some? && c.lastSequence.Some?, NO_FILES;
    if ok {
      v := SaveAll(b, LoadedAll(load, edits), vs, k);
    }
  }

  // ---- Logging and applying ----

  predicate MetaFits(m: VE.FileMeta) {
    |m.smallest| < TWO_32 && |m.largest| < TWO_32
  }

  /** Describing a loaded file again gives metadata that loads to the same file. */
  ghost predicate Describes(load: Loader, meta: File -> VE.FileMeta, f: File) {
    MetaFits(meta(f)) && load(meta(f)) == f
  }

  ghost predicate AllDescribed(load: Loader, meta: File -> VE.FileMeta, v: Levels) {
    forall l, f :: 0 <= l < |v| && f in v[l] ==> Describes(load, meta, f)
  }

  ghost predicate OneFilePerLevelNumber(v: Levels) {
    forall l :: 0 <= l < |v| ==> VB.OneFilePerNumber(VB.Members(v[l]))
  }

  ghost predicate CurrentOk(load: Loader, meta: File -> VE.FileMeta, v: Levels) {
    |v| == NUM_LEVELS && AllOrdered(v) && AllDescribed(load, meta, v) && OneFilePerLevelNumber(v)
  }

  /** The edit that recreates a version from nothing. */
  ghost predicate Recreates(meta: File -> VE.FileMeta, v: Levels, e: VE.Edit) {
    && e.deleted == []
    && (forall a :: a in e.added ==> a.level < |v| && exists f :: f in v[a.level] && a.meta == meta(f))
    && (forall l: nat, f :: l < |v| && f in v[l] ==> VE.Addition(l, meta(f)) in e.added)
  }

  lemma SnapshotAdds(load: Loader, meta: File -> VE.FileMeta, v: Levels, e: VE.Edit, l: nat, f: File)
    requires AllDescribed(load, meta, v) && Recreates(meta, v, e) && l < |v|
    ensures (l, f) in Loaded(load, e).added <==> f in v[l]
  {
    if (l, f) in Loaded(load, e).added {
      AddedIsThere(load, meta, v, e, l, f);
    }
    if f in v[l] {
      ThereIsAdded(load, meta, v, e, l, f);
    }
  }

  lemma AddedIsThere(load: Loader, meta: File -> VE.FileMeta, v: Levels, e: VE.Edit, l: nat, f: File)
    requires AllDescribed(load, meta, v) && Recreates(meta, v, e) && l < |v| && (l, f) in Loaded(load, e).added
    ensures f in v[l]
  {
    var i :| 0 <= i < |e.added| && (l, f) == Placed(e.added[i].level, load(e.added[i].meta));
    assert e.added[i] in e.added;
    var g :| g in v[l] && e.added[i].meta == meta(g);
    assert Describes(load, meta, g);
  }

  lemma ThereIsAdded(load: Loader, meta: File -> VE.FileMeta, v: Levels, e: VE.Edit, l: nat, f: File)
    requires AllDescribed(load, meta, v) && Recreates(meta, v, e) && l < |v| && f in v[l]
    ensures (l, f) in Loaded(load, e).added
  {
    assert Describes(load, meta, f);
    assert VE.Addition(l, meta(f)) in e.added;
    var i :| 0 <= i < |e.added| && e.added[i] == VE.Addition(l, meta(f));
    assert Loaded(load, e).added[i] == (l, f);
  }

  lemma SnapshotSteps(load: Loader, meta: File -> VE.FileMeta, v: Levels, e: VE.Edit)
    requires CurrentOk(load, meta, v) && VE.PartsOk(e) && Recreates(meta, v, e)
    ensures EditStep(NO_FILES, Loaded(load, e), v)
    ensures forall l: nat :: l < NUM_LEVELS ==> VB.AddedAt(Loaded(load, e).added, l) == VB.Members(v[l])
  {
    hide AllDescribed, Loaded, OneFilePerLevelNumber;
    var edit := Loaded(load, e);
    LoadedInRange(load, e);
    forall l: nat, f | l < NUM_LEVELS
      ensures (l, f) in edit.added <==> f in v[l]
    {
      SnapshotAdds(load, meta, v, e, l, f);
    }
    forall l: nat | l < NUM_LEVELS
      ensures VB.AddedAt(edit.added, l) == VB.Members(v[l])
    {
      forall f
        ensures f in VB.AddedAt(edit.added, l) <==> f in VB.Members(v[l])
      {
        assert f in VB.AddedAt(edit.added, l) <==> (l, f) in edit.added;
      }
    }
    NothingDeleted(load, e);
  }

  lemma NothingDeleted(load: Loader, e: VE.Edit)
    ensures e.deleted == [] ==> Loaded(load, e).deleted == {}
  {
  }

  lemma EvolvesOn(vs: seq<Levels>, edits: seq<VB.Edit>, e: VB.Edit, v': Levels)
    requires Evolves(vs, edits) && EditStep(vs[|edits|], e, v')
    ensures Evolves(vs + [v'], edits + [e])
  {
    hide EditStep;
  }

  /** The history one edit longer. */
  lemma HistoryGrows(load: Loader, name: bytes, edits: seq<VE.Edit>, vs: seq<Levels>, e: VE.Edit, v': Levels)
    requires History(load, name, edits, vs) && VE.PartsOk(e) && e.comparator.None?
    requires |vs[|edits|]| == NUM_LEVELS && AllOrdered(v')
    requires Edited(vs[|edits|], Loaded(load, e).deleted, Store.AdditionsOf(Loaded(load, e)), v')
    requires forall l: nat :: l < NUM_LEVELS ==>
               VB.OneFilePerNumber(EverAdded(LoadedAll(load, edits), l) + VB.AddedAt(Loaded(load, e).added, l))
    ensures History(load, name, edits + [e], vs + [v'])
  {
    HistoryShape(load, name, edits, vs);
    hide Loaded, EditStep, VB.OneFilePerNumber, Evolves;
    var n, all, all' := |edits|, LoadedAll(load, edits), LoadedAll(load, edits + [e]);
    VE.PartsMakeEdit(e);
    LoadedInRange(load, e);
    LastStep(vs[n], Loaded(load, e), v');
    assert all'[..n] == all && all'[n] == Loaded(load, e);
    assert all' == all + [Loaded(load, e)];
    EvolvesOn(vs, all, Loaded(load, e), v');
    hide LoadedAll;
    forall l: nat | l < NUM_LEVELS
      ensures VB.OneFilePerNumber(EverAdded(all', l))
    {
      assert EverAdded(all', l) == EverAdded(all, l) + VB.AddedAt(Loaded(load, e).added, l);
    }
  }

  lemma HistoryShape(load: Loader, name: bytes, edits: seq<VE.Edit>, vs: seq<Levels>)
    requires History(load, name, edits, vs)
    ensures EditsOk(edits) && |vs| == |edits| + 1
  {
  }

  lemma FewerStillOne(some: set<File>, all: set<File>, more: set<File>)
    requires some <= all && VB.OneFilePerNumber(all + more)
    ensures VB.OneFilePerNumber(some + more)
  {
  }

  lemma CountLast(edits: seq<VE.Edit>, e: VE.Edit)
    requires edits != [] && edits[|edits| - 1] == e
    requires e.logNumber.Some? && e.prevLogNumber.Some? && e.nextFile.Some? && e.lastSequence.Some?
    ensures CountAll(edits) == Counters(e.logNumber, e.prevLogNumber, e.nextFile, e.lastSequence)
  {
  }

  lemma LastStep(v: Levels, e: VB.Edit, v': Levels)
    requires |v| == NUM_LEVELS && AllOrdered(v') && VB.EditInRange(e) && Edited(v, e.deleted, Store.AdditionsOf(e), v')
    ensures EditStep(v, e, v')
  {
  }

  lemma SnapshotHistory(load: Loader, meta: File -> VE.FileMeta, name: bytes, v: Levels, e: VE.Edit)
    requires CurrentOk(load, meta, v) && VE.PartsOk(e) && Recreates(meta, v, e) && e.comparator == Some(name)
    ensures History(load, name, [e], [NO_FILES, v])
    ensures forall l: nat :: l < NUM_LEVELS ==> EverAdded(LoadedAll(load, [e]), l) == VB.Members(v[l])
  {
    hide Loaded;
    SnapshotSteps(load, meta, v, e);
    VE.PartsMakeEdit(e);
    var all := LoadedAll(load, [e]);
    assert all[..0] == [] && all == [Loaded(load, e)];
    forall l: nat | l < NUM_LEVELS
      ensures EverAdded(all, l) == VB.Members(v[l])
    {
      assert EverAdded([], l) == {};
    }
  }

  ghost predicate PointersOk(ps: seq<bytes>) {
    |ps| == NUM_LEVELS && forall p :: p in ps ==> |p| < TWO_32
  }

  /** One addition for every file of a level. */
  method AddLevel(added: seq<VE.Addition>, level: nat, files: seq<File>, meta: File -> VE.FileMeta)
    returns (r: seq<VE.Addition>)
    ensures forall a :: a in r ==> a in added || (a.level == level && exists f :: f in files && a.meta == meta(f))
    ensures forall a :: a in added ==> a in r
    ensures forall f :: f in files ==> VE.Addition(level, meta(f)) in r
  {
    r := added;
    for i := 0 to |files|
      invariant forall a :: a in r ==> a in added || (a.level == level && exists f :: f in files && a.meta == meta(f))
      invariant forall a :: a in added ==> a in r
      invariant forall f :: f in files[..i] ==> VE.Addition(level, meta(f)) in r
    {
      assert files[..i + 1] == files[..i] + [files[i]];
      assert files[i] in files;
      r := r + [VE.Addition(level, meta(files[i]))];
    }
    assert files[..|files|] == files;
  }

  /** The pointers of the first levels, and none for the others. */
  ghost function Upto(ps: seq<bytes>, level: nat): (r: seq<bytes>)
    requires |ps| == NUM_LEVELS && level <= NUM_LEVELS
    ensures |r| == NUM_LEVELS
  {
    ps[..level] + NO_POINTERS[level..]
  }

  lemma NextUpto(ps: seq<bytes>, level: nat)
    requires |ps| == NUM_LEVELS && level <= NUM_LEVELS
    ensures level < NUM_LEVELS ==> Upto(ps, level + 1) == Upto(ps, level)[level := ps[level]]
    ensures level < NUM_LEVELS && ps[level] == [] ==> Upto(ps, level + 1) == Upto(ps, level)
    ensures Upto(ps, 0) == NO_POINTERS
    ensures level == NUM_LEVELS ==> Upto(ps, level) == ps
  {
  }

  lemma OneMore(moves: seq<VE.Pointer>, m: VE.Pointer)
    requires LevelsIn(moves, NUM_LEVELS) && m.level < NUM_LEVELS
    ensures LevelsIn(moves + [m], NUM_LEVELS)
    ensures PointersAfter(NO_POINTERS, moves + [m]) == PointersAfter(NO_POINTERS, moves)[m.level := m.key]
  {
    assert (moves + [m])[..|moves|] == moves;
  }

  /** The pointers that are set. */
  method ListPointers(compactPointers: seq<bytes>) returns (pointers: seq<VE.Pointer>)
    requires PointersOk(compactPointers)
    ensures forall i :: 0 <= i < |pointers| ==> pointers[i].level < NUM_LEVELS && |pointers[i].key| < TWO_32
    ensures LevelsIn(pointers, NUM_LEVELS) && PointersAfter(NO_POINTERS, pointers) == compactPointers
  {
    pointers := [];
    NextUpto(compactPointers, 0);
    NoMoves(NO_POINTERS, []);
    hide Upto, PointersAfter;
    for level := 0 to NUM_LEVELS
      invariant forall i :: 0 <= i < |pointers| ==> pointers[i].level < NUM_LEVELS && |pointers[i].key| < TWO_32
      invariant LevelsIn(pointers, NUM_LEVELS)
      invariant PointersAfter(NO_POINTERS, pointers) == Upto(compactPointers, level)
    {
      NextUpto(compactPointers, level);
      if compactPointers[level] != [] {
        assert compactPointers[level] in compactPointers;
        OneMore(pointers, VE.Pointer(level, compactPointers[level]));
        pointers := pointers + [VE.Pointer(level, compactPointers[level])];
      }
    }
    NextUpto(compactPointers, NUM_LEVELS);
  }

  method SnapshotEdit(v: Levels, ghost load: Loader, meta: File -> VE.FileMeta, compactPointers: seq<bytes>, name: bytes)
    returns (e: VE.Edit)
    requires CurrentOk(load, meta, v) && PointersOk(compactPointers) && |name| < TWO_32
    ensures VE.PartsOk(e) && Recreates(meta, v, e) && e.comparator == Some(name)
    ensures e.logNumber == e.prevLogNumber == e.nextFile == e.lastSequence == None
    ensures LevelsIn(e.pointers, NUM_LEVELS) && PointersAfter(NO_POINTERS, e.pointers) == compactPointers
  {
    var pointers := ListPointers(compactPointers);
    hide PointersAfter;
    var added: seq<VE.Addition> := [];
    for level := 0 to NUM_LEVELS
      invariant forall a :: a in added ==> a.level < level && exists f :: f in v[a.level] && a.meta == meta(f)
      invariant forall l: nat, f :: l < level && f in v[l] ==> VE.Addition(l, meta(f)) in added
    {
      added := AddLevel(added, level, v[level], meta);
    }
    forall i | 0 <= i < |added|
      ensures |added[i].meta.smallest| < TWO_32 && |added[i].meta.largest| < TWO_32
    {
      assert added[i] in added;
      var f :| f in v[added[i].level] && added[i].meta == meta(f);
      assert Describes(load, meta, f);
    }
    e := VE.Edit(Some(name), None, None, None, None, pointers, [], added);
  }

  lemma OnlyMoves(e: VE.Edit)
    requires VE.EditOk(e)
    ensures EditsOk([e]) && LevelsIn(e.pointers, NUM_LEVELS) && PointersLeft([e]) == PointersAfter(NO_POINTERS, e.pointers)
  {
    hide VE.EditOk, PointersAfter;
    EditMoves(e);
    assert [e][..0] == [] && AllMoves([e][..0]) + e.pointers == e.pointers;
    assert AllMoves([e]) == AllMoves([e][..0]) + e.pointers;
  }

  lemma FirstRecord(crc: Checksum, e: VE.Edit)
    requires VE.EditOk(e)
    ensures Log.LogFile(crc, Records([e])) == [] + Log.Frames(crc, 0, true, VE.Record(e))
  {
    hide Log.Frames, VE.Record;
    assert Records([e])[..0] == [];
  }

  lemma NextRecord(crc: Checksum, edits: seq<VE.Edit>, e: VE.Edit)
    requires EditsOk(edits) && VE.EditOk(e)
    ensures EditsOk(edits + [e])
    ensures
      var before := Log.LogFile(crc, Records(edits));
      Log.LogFile(crc, Records(edits + [e])) == before + Log.Frames(crc, |before|, true, VE.Record(e))
  {
    hide Log.Frames, VE.Record, VE.EditOk;
    assert Records(edits + [e])[..|edits|] == Records(edits);
  }

  /** An edit with the four counters filled in. */
  function Completed(e: VE.Edit, log: uint64, prevLog: uint64, nextFile: uint64, lastSequence: uint64): VE.Edit {
    e.(logNumber := if e.logNumber.Some? then e.logNumber else Some(log),
       prevLogNumber := if e.prevLogNumber.Some? then e.prevLogNumber else Some(prevLog),
       nextFile := Some(nextFile), lastSequence := Some(lastSequence))
  }

  lemma CompletedIsSame(load: Loader, e: VE.Edit, e': VE.Edit)
    requires VE.PartsOk(e)
    requires e' == e.(logNumber := e'.logNumber, prevLogNumber := e'.prevLogNumber, nextFile := e'.nextFile,
                      lastSequence := e'.lastSequence)
    ensures VE.PartsOk(e') && VE.EditOk(e') && Loaded(load, e') == Loaded(load, e) && VB.EditInRange(Loaded(load, e'))
  {
    VE.PartsMakeEdit(e');
    LoadedInRange(load, e');
  }

  lemma CurrentParts(load: Loader, meta: File -> VE.FileMeta, v: Levels)
    requires CurrentOk(load, meta, v)
    ensures |v| == NUM_LEVELS && AllOrdered(v)
  {
  }

  lemma {:induction false} PointersStayOk(ps: seq<bytes>, moves: seq<VE.Pointer>)
    requires PointersOk(ps)
    requires forall i :: 0 <= i < |moves| ==> moves[i].level < NUM_LEVELS && |moves[i].key| < TWO_32
    ensures PointersOk(PointersAfter(ps, moves))
  {
    if moves != [] {
      PointersStayOk(ps, moves[..|moves| - 1]);
    }
  }

  /** Whatever is live was added at some point. */
  lemma {:induction false} LiveWasAdded(vs: seq<Levels>, edits: seq<VB.Edit>, k: nat, l: nat, f: File)
    requires Evolves(vs, edits) && k <= |edits| && l < NUM_LEVELS && |vs[k]| == NUM_LEVELS && f in vs[k][l]
    ensures f in EverAdded(edits[..k], l)
  {
    if k > 0 {
      var e := edits[k - 1];
      assert EditStep(vs[k - 1], e, vs[k]);
      EverStep(edits, k - 1, l);
      if (l, f) in Store.AdditionsOf(e) {
        assert f in VB.AddedAt(e.added, l);
      } else {
        LiveWasAdded(vs, edits, k - 1, l, f);
      }
    }
  }

  lemma StillCurrent(load: Loader, meta: File -> VE.FileMeta, v: Levels, edit: VB.Edit, v': Levels)
    requires CurrentOk(load, meta, v) && AllOrdered(v') && Edited(v, edit.deleted, Store.AdditionsOf(edit), v')
    requires forall p :: p in edit.added ==> Describes(load, meta, p.1)
    requires forall l: nat :: l < NUM_LEVELS ==> VB.OneFilePerNumber(VB.Members(v[l]) + VB.AddedAt(edit.added, l))
    ensures CurrentOk(load, meta, v')
  {
    forall l: nat | l < NUM_LEVELS
      ensures VB.OneFilePerNumber(VB.Members(v'[l]))
      ensures forall f :: f in v'[l] ==> Describes(load, meta, f)
    {
      forall f | f in v'[l]
        ensures f in VB.Members(v[l]) + VB.AddedAt(edit.added, l) && Describes(load, meta, f)
      {
        assert (l, f) in Store.AdditionsOf(edit) <==> (l, f) in edit.added;
        assert f in v[l] || (l, f) in edit.added;
        if (l, f) in edit.added {
          assert f in VB.AddedAt(edit.added, l);
        }
      }
    }
  }

  class VersionSet {
    const crc: Checksum
    const load: Loader
    const meta: File -> VE.FileMeta
    const name: bytes
    var current: Levels
    var log: Log.Writer?
    var compactPointers: seq<bytes>
    var nextFileNumber: uint64
    var lastSequence: uint64
    var logNumber: uint64
    var prevLogNumber: uint64
    /** The edits in the manifest and the versions they lead to. */
    ghost var edits: seq<VE.Edit>
    ghost var vs: seq<Levels>

    ghost predicate Valid()
      reads this, log
    {
      && CurrentOk(load, meta, current) && PointersOk(compactPointers) && |name| < TWO_32
      && (if log == null then edits == [] else log.Valid() && log.crc == crc && Logged(log.dest))
    }

    /** The manifest leads to the compaction pointers as they are. */
    ghost predicate Recorded()
      requires Valid()
      reads this, log
    {
      log != null ==> PointersLeft(edits) == compactPointers
    }

    ghost predicate Logged(file: bytes)
      reads this
    {
      && History(load, name, edits, vs) && vs[|edits|] == current && edits != []
      && file == Log.LogFile(crc, Records(edits))
    }

    /** Everything this manifest, or its snapshot to come, adds to a level. */
    ghost function Known(l: nat): set<File>
      requires l < NUM_LEVELS && |current| == NUM_LEVELS
      reads this
    {
      if log == null then VB.Members(current[l]) else EverAdded(LoadedAll(load, edits), l)
    }

    /** A new database: no files, no manifest yet. */
    constructor (crc: Checksum, load: Loader, meta: File -> VE.FileMeta, name: bytes)
      requires |name| < TWO_32
      ensures Valid() && Recorded() && log == null && current == NO_FILES
      ensures this.crc == crc && this.load == load && this.meta == meta && this.name == name
    {
      this.crc, this.load, this.meta, this.name := crc, load, meta, name;
      current, log, compactPointers := NO_FILES, null, NO_POINTERS;
      nextFileNumber, lastSequence, logNumber, prevLogNumber := 2, 0, 0, 0;
      edits, vs := [], [NO_FILES];
    }

    /** A fresh manifest starts with one edit that adds every current file. */
    method WriteSnapshot()
      requires Valid() && log == null
      modifies this`log, this`edits, this`vs
      ensures Valid() && log != null && fresh(log) && |edits| == 1
      ensures CountAll(edits) == Counters(None, None, None, None) && Recorded()
      ensures forall l: nat :: l < NUM_LEVELS ==> Known(l) == old(Known(l))
    {
      hide CurrentOk, VE.PartsOk, VE.EditOk, Recreates, History, Log.LogFile, VE.Record, PointersOk, PointersLeft;
      var edit := SnapshotEdit(current, load, meta, compactPointers, name);
      SnapshotHistory(load, meta, name, current, edit);
      VE.PartsMakeEdit(edit);
      var record := VE.EncodeTo(edit);
      var w := new Log.Writer(crc, []);
      w.AddRecord(record);
      edits, vs, log := [edit], [NO_FILES, current], w;
      FirstRecord(crc, edit);
      OnlyMoves(edit);
      assert [edit][..0] == [];
    }

    /** What the caller owes: files with new numbers, described by their metadata. */
    ghost predicate Applicable(e: VE.Edit)
      requires Valid()
      reads this, log
    {
      var edit := Loaded(load, e);
      && VE.PartsOk(e) && e.comparator.None? && Store.NumbersAreNew(current, edit)
      && (forall p :: p in edit.added ==> Describes(load, meta, p.1))
      && (forall l: nat :: l < NUM_LEVELS ==> VB.OneFilePerNumber(Known(l) + VB.AddedAt(edit.added, l)))
    }

    lemma KnownHolds()
      requires Valid()
      ensures forall l: nat :: l < NUM_LEVELS ==> VB.Members(current[l]) <= Known(l)
    {
      if log != null {
        var all := LoadedAll(load, edits);
        assert all[..|all|] == all;
        forall l: nat, f | l < NUM_LEVELS && f in current[l]
          ensures f in EverAdded(all, l)
        {
          LiveWasAdded(vs, all, |all|, l, f);
        }
      }
    }

    /** Log an edit, then make the version it gives the current one. */
    method LogAndApply(e: VE.Edit)
      requires Valid() && Recorded() && Applicable(e)
      requires e.logNumber.Some? ==> logNumber <= e.logNumber.value < nextFileNumber
      modifies this, log
      ensures Valid() && log != null && (old(log) != null ==> log == old(log)) && (old(log) == null ==> fresh(log))
      ensures Recorded()
      ensures Edited(old(current), Loaded(load, e).deleted, Store.AdditionsOf(Loaded(load, e)), current)
      ensures CountAll(edits) == Counters(Some(logNumber), Some(prevLogNumber), Some(nextFileNumber), Some(lastSequence))
      ensures nextFileNumber == old(nextFileNumber) && lastSequence == old(lastSequence)
      ensures logNumber == (if e.logNumber.Some? then e.logNumber.value else old(logNumber))
      ensures prevLogNumber == (if e.prevLogNumber.Some? then e.prevLogNumber.value else old(prevLogNumber))
      ensures PointersMoved(old(compactPointers), e.pointers, compactPointers)
      ensures edits != [] && edits[|edits| - 1] == e.(logNumber := Some(logNumber), prevLogNumber := Some(prevLogNumber),
                                                      nextFile := Some(nextFileNumber), lastSequence := Some(lastSequence))
      ensures old(log) != null ==> edits[..|edits| - 1] == old(edits)
    {
      hide CurrentOk, VE.EditOk, VE.PartsOk, VE.Record, History, Log.LogFile, PointersOk, PointersAfter, Loaded, Edited;
      hide VB.OneFilePerNumber, EverAdded, VersionSet.Applicable, CountAll, PointersMoved, PointersLeft, LevelsIn;
      ghost var start := compactPointers;
      var edit, v := NextVersion(e);
      MovePointers(e.pointers);
      LogEdit(edit, v, start);
      CountLast(edits, edit);
      logNumber, prevLogNumber := edit.logNumber.value, edit.prevLogNumber.value;
    }

    /** The record of the edit, after a snapshot in a new manifest; the pointers have moved already. */
    method LogEdit(edit: VE.Edit, v: Levels, ghost start: seq<bytes>)
      requires Valid() && VE.PartsOk(edit) && edit.comparator.None? && CurrentOk(load, meta, v)
      requires Edited(current, Loaded(load, edit).deleted, Store.AdditionsOf(Loaded(load, edit)), v)
      requires forall l: nat :: l < NUM_LEVELS ==> VB.OneFilePerNumber(Known(l) + VB.AddedAt(Loaded(load, edit).added, l))
      requires |start| == NUM_LEVELS && LevelsIn(edit.pointers, NUM_LEVELS)
      requires compactPointers == PointersAfter(start, edit.pointers) && (log != null ==> PointersLeft(edits) == start)
      modifies this`log, this`edits, this`vs, this`current, log
      ensures Valid() && Recorded() && current == v
      ensures log != null && (old(log) != null ==> log == old(log)) && (old(log) == null ==> fresh(log))
      ensures edits != [] && edits[|edits| - 1] == edit && (old(log) != null ==> edits[..|edits| - 1] == old(edits))
    {
      hide CurrentOk, VE.EditOk, VE.PartsOk, VE.Record, History, Log.LogFile, PointersOk, PointersAfter, Loaded, Edited;
      hide VB.OneFilePerNumber, EverAdded, PointersLeft, LevelsIn;
      VE.PartsMakeEdit(edit);
      if log == null {
        WriteSnapshot();
      }
      HistoryShape(load, name, edits, vs);
      LeftAfter(edits, edit, start);
      AppendEdit(edit, v);
    }

    method MovePointers(moves: seq<VE.Pointer>)
      requires Valid()
      requires forall i :: 0 <= i < |moves| ==> moves[i].level < NUM_LEVELS && |moves[i].key| < TWO_32
      modifies this`compactPointers
      ensures Valid() && PointersMoved(old(compactPointers), moves, compactPointers)
      ensures LevelsIn(moves, NUM_LEVELS) && |old(compactPointers)| == NUM_LEVELS
      ensures compactPointers == PointersAfter(old(compactPointers), moves)
    {
      hide CurrentOk, History, Log.LogFile, PointersMoved, PointersAfter;
      PointersStayOk(compactPointers, moves);
      AfterIsMoved(compactPointers, moves);
      compactPointers := MoveAll(compactPointers, moves);
    }

    /** The completed edit and the version it gives; nothing is changed yet. */
    method NextVersion(e: VE.Edit) returns (edit: VE.Edit, v: Levels)
      requires Valid() && Applicable(e)
      ensures edit == Completed(e, logNumber, prevLogNumber, nextFileNumber, lastSequence)
      ensures VE.PartsOk(edit) && edit.comparator.None? && CurrentOk(load, meta, v)
      ensures forall i :: 0 <= i < |e.pointers| ==> e.pointers[i].level < NUM_LEVELS && |e.pointers[i].key| < TWO_32
      ensures Loaded(load, edit) == Loaded(load, e)
      ensures Edited(current, Loaded(load, edit).deleted, Store.AdditionsOf(Loaded(load, edit)), v)
      ensures forall l: nat :: l < NUM_LEVELS ==> VB.OneFilePerNumber(Known(l) + VB.AddedAt(Loaded(load, edit).added, l))
    {
      hide CurrentOk, VE.EditOk, History, Log.LogFile, PointersOk, Loaded, Store.NumbersAreNew, Edited, VB.OneFilePerNumber;
      edit := Completed(e, logNumber, prevLogNumber, nextFileNumber, lastSequence);
      CompletedIsSame(load, e, edit);
      CurrentParts(load, meta, current);
      v := Store.InstallEdit(current, Loaded(load, edit));
      KnownHolds();
      forall l: nat | l < NUM_LEVELS
        ensures VB.OneFilePerNumber(VB.Members(current[l]) + VB.AddedAt(Loaded(load, edit).added, l))
      {
        FewerStillOne(VB.Members(current[l]), Known(l), VB.AddedAt(Loaded(load, edit).added, l));
      }
      StillCurrent(load, meta, current, Loaded(load, edit), v);
    }

    /** The manifest record comes first, the version after it. */
    method AppendEdit(edit: VE.Edit, v: Levels)
      requires Valid() && log != null && VE.PartsOk(edit) && edit.comparator.None? && CurrentOk(load, meta, v)
      requires Edited(current, Loaded(load, edit).deleted, Store.AdditionsOf(Loaded(load, edit)), v)
      requires forall l: nat :: l < NUM_LEVELS ==> VB.OneFilePerNumber(Known(l) + VB.AddedAt(Loaded(load, edit).added, l))
      modifies log, this`edits, this`vs, this`current
      ensures Valid() && current == v && edits == old(edits) + [edit]
    {
      hide CurrentOk, VE.EditOk, History, Log.LogFile, PointersOk, Loaded, Edited, VB.OneFilePerNumber, Log.Frames, EverAdded;
      CurrentParts(load, meta, v);
      CurrentParts(load, meta, current);
      VE.PartsMakeEdit(edit);
      HistoryShape(load, name, edits, vs);
      NextRecord(crc, edits, edit);
      HistoryGrows(load, name, edits, vs, edit, v);
      var record := VE.EncodeTo(edit);
      log.AddRecord(record);
      edits, vs, current := edits + [edit], vs + [v], v;
    }
  }

  /**
   A crash may cut the manifest at any byte.  Recovery then gives a version the store was in,
   and the current one, with its counters and compaction pointers, if nothing was cut off.
   */
  method CrashAndRecover(s: VersionSet, cut: nat) returns (ok: bool, v: Levels, c: Counters, ps: seq<bytes>)
    requires s.Valid() && s.Recorded() && s.log != null && cut <= |s.log.dest|
    ensures ok ==> v in s.vs
    ensures cut == |s.log.dest| ==> c == CountAll(s.edits) && LastCounts(s.edits, c) && (ok ==> v == s.current)
    ensures cut == |s.log.dest| ==> ps == s.compactPointers
    ensures cut == |s.log.dest| ==> ok == (c.nextFile.Some? && c.log.Some? && c.lastSequence.Some?)
  {
    hide Log.LogFile, Log.EndAt, History, CurrentOk, PointersOk, CountAll, EditsOk, VE.Record, Evolves, LastCounts, PointersLeft, PointersMoved;
    HistoryShape(s.load, s.name, s.edits, s.vs);
    var file := s.log.dest[..cut];
    ghost var k;
    ok, v, c, ps, k := Recover(s.crc, s.load, s.name, file, s.edits, s.vs);
    Log.EndOfAll(s.crc, Records(s.edits));
    assert s.edits[..|s.edits|] == s.edits;
  }
}
