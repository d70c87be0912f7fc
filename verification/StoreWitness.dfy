/**
 Two concrete cases in which the compaction code does change a read, because what it drops is
 not matched by what it leaves behind. The first is a run from the empty store.
 */
module StoreWitness {
  import opened Entries
  import opened Versions
  import opened CompactionInputs
  import opened CompactionSetup
  import opened CompactionPass
  import opened VersionBuilder
  import opened StoreState
  import opened StoreRuns

  function Value(u: int, s: nat, v: int): Entry {
    Entry(IKey(u, s, TYPE_VALUE), [v])
  }

  function Marker(u: int, s: nat): Entry {
    Entry(IKey(u, s, TYPE_DELETION), [])
  }

  // ---- The run ----

  // Keys 1 and 5 are written and flushed, and key 5 is deleted while a snapshot still sees it.
  // Merging the marker down therefore keeps the value behind it, and the output is cut between
  // the two. Once the snapshot is gone, a compaction around key 1 picks only the first file.

  const OLD: seq<Entry> := [Value(1, 1, 20), Value(5, 2, 30)]
  const FIRST: File := Finish(OLD, 2, 1)
  const DELETED: File := Finish([Marker(5, 3)], 3, 1)
  const PULLED: seq<Entry> := [Value(1, 1, 20), Marker(5, 3), Value(5, 2, 30)]
  const LEFT: File := Finish([Value(1, 1, 20), Marker(5, 3)], 4, 1)
  const RIGHT: File := Finish([Value(5, 2, 30)], 5, 1)
  const UPPER: File := Finish([Value(1, 4, 70)], 6, 1)
  const MERGED: seq<Entry> := [Value(1, 4, 70), Value(1, 1, 20), Marker(5, 3)]
  const OUTPUT: File := Finish([Value(1, 4, 70)], 7, 1)

  /** Levels with files on levels 1 and 2 only. */
  function Two(a: seq<File>, b: seq<File>): Levels {
    [[], a, b, [], [], [], []]
  }

  const BEFORE: Db := Db([], NoFrozen, Two([UPPER], [LEFT, RIGHT]), 4, 7, [])
  const AFTER: Db := Db([], NoFrozen, Two([], [OUTPUT, RIGHT]), 4, 8, [])

  const STATES: seq<Db> := [
    Db([], NoFrozen, Two([], []), 0, 2, []),
    Db(OLD, NoFrozen, Two([], []), 2, 2, []),
    Db(OLD, NoFrozen, Two([], []), 2, 2, [2]),
    Db([], Frozen(OLD), Two([], []), 2, 2, [2]),
    Db([], NoFrozen, Two([], [FIRST]), 2, 3, [2]),
    Db([Marker(5, 3)], NoFrozen, Two([], [FIRST]), 3, 3, [2]),
    Db([], Frozen([Marker(5, 3)]), Two([], [FIRST]), 3, 3, [2]),
    Db([], NoFrozen, Two([DELETED], [FIRST]), 3, 4, [2]),
    Db([], NoFrozen, Two([], [LEFT, RIGHT]), 3, 6, [2]),
    Db([], NoFrozen, Two([], [LEFT, RIGHT]), 3, 6, []),
    Db([Value(1, 4, 70)], NoFrozen, Two([], [LEFT, RIGHT]), 4, 6, []),
    Db([], Frozen([Value(1, 4, 70)]), Two([], [LEFT, RIGHT]), 4, 6, []),
    BEFORE,
    AFTER
  ]

  const STEPS: seq<Step> := [
    Write([Put(1, [20]), Put(5, [30])]),
    TakeSnapshot,
    Freeze,
    Flush(2, 1),
    Write([Delete(5)]),
    Freeze,
    Flush(1, 1),
    Compact(1, [DELETED], [FIRST], PULLED, 2, [LEFT, RIGHT]),
    ReleaseSnapshot(0),
    Write([Put(1, [70])]),
    Freeze,
    Flush(1, 1),
    Compact(1, [UPPER], [LEFT], MERGED, 4, [OUTPUT])
  ]

  lemma StartsEmpty()
    ensures EmptyDb() == STATES[0]
  {
    assert EmptyDb().levels == Two([], []);
  }

  lemma FirstWrite()
    ensures Next(STATES[0], STEPS[0], STATES[1])
  {
    assert Stamp([Put(1, [20]), Put(5, [30])], 1) == OLD;
    FromNothing(OLD);
  }

  lemma DeletionWrite()
    ensures Next(STATES[4], STEPS[4], STATES[5])
  {
    assert Stamp([Delete(5)], 3) == [Marker(5, 3)];
    FromNothing([Marker(5, 3)]);
  }

  lemma LastWrite()
    ensures Next(STATES[9], STEPS[9], STATES[10])
  {
    assert Stamp([Put(1, [70])], 4) == [Value(1, 4, 70)];
    FromNothing([Value(1, 4, 70)]);
  }

  lemma FromNothing(es: seq<Entry>)
    ensures SetOf(es) == SetOf([]) + SetOf(es)
  {
  }

  lemma SnapshotsAndFreezes()
    ensures Next(STATES[1], STEPS[1], STATES[2]) && Next(STATES[8], STEPS[8], STATES[9])
    ensures Next(STATES[2], STEPS[2], STATES[3]) && Next(STATES[5], STEPS[5], STATES[6])
    ensures Next(STATES[10], STEPS[10], STATES[11])
  {
    assert [2][..0] + [2][1..] == [];
  }

  /** A file that joins an empty level 1 or 2. */
  lemma Flushed(a: seq<File>, b: seq<File>, level: nat, f: File)
    requires (level == 1 && a == []) || (level == 2 && b == [])
    requires Ordered(a) && Ordered(b)
    ensures Edited(Two(a, b), {}, {(level, f)}, if level == 1 then Two([f], b) else Two(a, [f]))
  {
    var v, v' := Two(a, b), if level == 1 then Two([f], b) else Two(a, [f]);
    forall l | 0 <= l < 7
      ensures Ordered(v'[l])
    {
    }
  }

  lemma FirstFlush()
    ensures Next(STATES[3], STEPS[3], STATES[4])
  {
    Flushed([], [], 2, FIRST);
  }

  lemma MarkerFlush()
    ensures Next(STATES[6], STEPS[6], STATES[7])
  {
    Flushed([], [FIRST], 1, DELETED);
  }

  lemma LastFlush()
    ensures Next(STATES[11], STEPS[11], STATES[12])
  {
    Flushed([], [LEFT, RIGHT], 1, UPPER);
  }

  // ---- The compaction that splits key 5 ----

  lemma PullIsPlanned()
    ensures Planned(Two([DELETED], [FIRST]), 1, [DELETED], [FIRST], 0, DELETED.smallest, DELETED.largest)
  {
    assert [FIRST][..0] == [] && [DELETED][0..1] == [DELETED];
    assert Overlapping([FIRST], At(5), At(5)) == [FIRST];
    assert DELETED in [DELETED];
    assert IsLargest([DELETED], DELETED.largest);
  }

  lemma PullKeepsAll(v: Levels)
    ensures Kept(PULLED, 2, v, 1, 3) == PULLED
  {
    assert !Dropped(PULLED, 2, v, 1, 0) && !Dropped(PULLED, 2, v, 1, 1) && !Dropped(PULLED, 2, v, 1, 2);
    assert Kept(PULLED, 2, v, 1, 1) == PULLED[..1];
    assert Kept(PULLED, 2, v, 1, 2) == PULLED[..2];
  }

  lemma PullInstalls()
    ensures Installed(Two([DELETED], [FIRST]), 1, [DELETED], [FIRST], [LEFT, RIGHT], Two([], [LEFT, RIGHT]))
  {
    var del, add := Deletions(1, [DELETED], [FIRST]), Additions(2, [LEFT, RIGHT]);
    assert DELETED in [DELETED] && FIRST in [FIRST] && LEFT in [LEFT, RIGHT] && RIGHT in [LEFT, RIGHT];
    assert (1, 3) in del && (2, 2) in del && (2, LEFT) in add && (2, RIGHT) in add;
    assert Ordered([LEFT, RIGHT]);
  }

  lemma PullShape()
    ensures Sorted(PULLED) && AllOk([LEFT, RIGHT]) && Disjoint([LEFT, RIGHT]) && NumberedFrom([LEFT, RIGHT], 4)
  {
  }

  /** The parts of a compaction step. */
  lemma Compacted(db: Db, level: nat, in0: seq<File>, in1: seq<File>, input: seq<Entry>, snap: nat, outs: seq<File>,
                  db': Db, a: nat, lo: IKey, hi: IKey)
    requires level + 1 < |db.levels| && Planned(db.levels, level, in0, in1, a, lo, hi)
    requires Sorted(input) && SetOf(input) == FileEntries(in0 + in1) && snap <= SmallestSnapshot(db)
    requires Contents(outs) == Kept(input, snap, db.levels, level, |input|)
    requires AllOk(outs) && Disjoint(outs) && NumberedFrom(outs, db.nextFile)
    requires Installed(db.levels, level, in0, in1, outs, db'.levels)
    requires db' == db.(levels := db'.levels, nextFile := db.nextFile + |outs|)
    ensures Next(db, Compact(level, in0, in1, input, snap, outs), db')
  {
  }

  lemma PullIsLegal()
    ensures Next(STATES[7], STEPS[7], STATES[8])
  {
    hide Planned, Kept, Installed, Contents, FileEntries, SetOf, Sorted, AllOk, Disjoint, NumberedFrom, Next;
    PullIsPlanned();
    PullKeepsAll(Two([DELETED], [FIRST]));
    PullInstalls();
    PullShape();
    PullContents();
    MergeOfTwo(PULLED, DELETED, FIRST);
    Compacted(STATES[7], 1, [DELETED], [FIRST], PULLED, 2, [LEFT, RIGHT], STATES[8], 0, DELETED.smallest, DELETED.largest);
  }

  lemma PullContents()
    ensures Contents([LEFT, RIGHT]) == PULLED
  {
    assert [LEFT, RIGHT][..1] == [LEFT];
    assert Contents([LEFT]) == Contents([LEFT][..0]) + LEFT.entries;
  }

  lemma MergeOfTwo(input: seq<Entry>, f: File, g: File)
    requires forall e :: e in input <==> e in f.entries || e in g.entries
    ensures SetOf(input) == FileEntries([f] + [g])
  {
    assert f in [f] + [g] && g in [f] + [g];
  }

  // ---- The compaction that brings key 5 back ----

  lemma PlanIsLegal()
    ensures Planned(BEFORE.levels, 1, [UPPER], [LEFT], 0, UPPER.smallest, UPPER.largest)
  {
    var fs := BEFORE.levels[2];
    assert fs[..1] == [LEFT] && fs[..1][..0] == [];
    assert Overlapping(fs[..1], At(1), At(1)) == [LEFT];
    assert Overlapping(fs, At(1), At(1)) == [LEFT];
    assert UPPER in [UPPER];
    assert IsLargest([UPPER], UPPER.largest);
    assert BEFORE.levels[1][0..1] == [UPPER];
  }

  lemma LoopKeepsOne(v: Levels)
    requires BaseLevel(v, 1, 5)
    ensures Kept(MERGED, 4, v, 1, 3) == [Value(1, 4, 70)]
  {
    assert !Dropped(MERGED, 4, v, 1, 0);
    assert Dropped(MERGED, 4, v, 1, 1);
    assert Dropped(MERGED, 4, v, 1, 2);
    assert Kept(MERGED, 4, v, 1, 0) == [];
    assert Kept(MERGED, 4, v, 1, 1) == [Value(1, 4, 70)];
    assert Kept(MERGED, 4, v, 1, 2) == [Value(1, 4, 70)];
  }

  lemma InstallIsIt()
    ensures Installed(BEFORE.levels, 1, [UPPER], [LEFT], [OUTPUT], AFTER.levels)
  {
    var del, add := Deletions(1, [UPPER], [LEFT]), Additions(2, [OUTPUT]);
    assert UPPER in [UPPER] && LEFT in [LEFT] && OUTPUT in [OUTPUT];
    assert (1, 6) in del && (2, 4) in del && (2, 5) !in del && (2, OUTPUT) in add;
    assert Ordered([OUTPUT, RIGHT]);
  }

  lemma LastShape()
    ensures Sorted(MERGED) && AllOk([OUTPUT]) && Disjoint([OUTPUT]) && NumberedFrom([OUTPUT], 7)
    ensures Contents([OUTPUT]) == OUTPUT.entries && BaseLevel(BEFORE.levels, 1, 5)
  {
    assert Contents([OUTPUT]) == Contents([OUTPUT][..0]) + OUTPUT.entries;
  }

  lemma LastStepIsLegal()
    ensures Next(STATES[12], STEPS[12], STATES[13])
  {
    hide Planned, Kept, Installed, Contents, FileEntries, SetOf, Sorted, AllOk, Disjoint, NumberedFrom, BaseLevel, Next;
    PlanIsLegal();
    LastShape();
    LoopKeepsOne(BEFORE.levels);
    InstallIsIt();
    MergeOfTwo(MERGED, UPPER, LEFT);
    Compacted(BEFORE, 1, [UPPER], [LEFT], MERGED, 4, [OUTPUT], AFTER, 0, UPPER.smallest, UPPER.largest);
  }

  // ---- What is read ----

  lemma TwoEntries(a: seq<File>, b: seq<File>)
    ensures VersionEntries(Two(a, b)) == FileEntries(a) + FileEntries(b)
  {
    var v := Two(a, b);
    assert v[1] == a && v[2] == b;
    forall e | e in VersionEntries(v)
      ensures e in FileEntries(a) + FileEntries(b)
    {
      var l, f := EntryWhere(v, e);
    }
    forall f, e | (f in a || f in b) && e in f.entries
      ensures e in VersionEntries(v)
    {
      EntryIn(v, if f in a then 1 else 2, f, e);
    }
  }

  lemma BeforeHolds()
    ensures Marker(5, 3) in AllEntries(BEFORE)
    ensures forall e :: e in AllEntries(BEFORE) ==> e in UPPER.entries || e in LEFT.entries || e in RIGHT.entries
  {
    hide VersionEntries;
    TwoEntries([UPPER], [LEFT, RIGHT]);
    assert LEFT in [LEFT, RIGHT] && LEFT.entries[1] == Marker(5, 3);
    assert Marker(5, 3) in LEFT.entries;
    forall e | e in AllEntries(BEFORE)
      ensures e in UPPER.entries || e in LEFT.entries || e in RIGHT.entries
    {
      assert e in FileEntries([UPPER]) || e in FileEntries([LEFT, RIGHT]);
    }
  }

  lemma ReadBefore()
    ensures Lookup(AllEntries(BEFORE), 5, 4) == Missing
  {
    hide AllEntries;
    BeforeHolds();
    assert IsNewest(AllEntries(BEFORE), 5, 4, Marker(5, 3));
    LookupIs(AllEntries(BEFORE), 5, 4, Marker(5, 3));
  }

  lemma ReadAfter()
    ensures Lookup(AllEntries(AFTER), 5, 4) == Found([30])
  {
    TwoEntries([], [OUTPUT, RIGHT]);
    var es := AllEntries(AFTER);
    assert AFTER.levels[2][1] == RIGHT && RIGHT.entries[0] == Value(5, 2, 30);
    EntryIn(AFTER.levels, 2, RIGHT, Value(5, 2, 30));
    LookupIs(es, 5, 4, Value(5, 2, 30));
  }

  lemma RunIsLegal()
    ensures Execution(STATES, STEPS) && STATES[0] == EmptyDb()
  {
    hide Next, Inv;
    StartsEmpty();
    EmptyIsOk();
    FirstWrite();
    DeletionWrite();
    LastWrite();
    SnapshotsAndFreezes();
    FirstFlush();
    MarkerFlush();
    LastFlush();
    PullIsLegal();
    LastStepIsLegal();
  }

  /**
   A legal run from the empty store whose last compaction makes a deleted key read as present
   again, and leaves behind the boundary file it did not pick.
   */
  lemma DeletedKeyReturns()
    ensures Execution(STATES, STEPS) && STATES[0] == EmptyDb()
    ensures STATES[12] == BEFORE && STATES[13] == AFTER
    ensures Lookup(AllEntries(BEFORE), 5, BEFORE.lastSeq) == Missing
    ensures Lookup(AllEntries(AFTER), 5, AFTER.lastSeq) == Found([30])
    ensures !ClosedStep(BEFORE, STEPS[12]) && !SafeStep(BEFORE, STEPS[12])
  {
    RunIsLegal();
    ReadBefore();
    ReadAfter();
    StepIsUnsafe();
  }

  lemma StepIsUnsafe()
    requires Execution(STATES, STEPS)
    requires Lookup(AllEntries(BEFORE), 5, 4) == Missing && Lookup(AllEntries(AFTER), 5, 4) == Found([30])
    ensures !ClosedStep(BEFORE, STEPS[12]) && !SafeStep(BEFORE, STEPS[12])
  {
    hide Next, Inv, AllEntries, Lookup;
    RunKeepsInv(STATES, STEPS, 12);
    assert Next(STATES[12], STEPS[12], STATES[13]);
    if SafeStep(BEFORE, STEPS[12]) {
      StepKeepsReads(BEFORE, STEPS[12], AFTER, 5, 4);
    }
    if ClosedStep(BEFORE, STEPS[12]) {
      ClosedIsSafe(BEFORE, STEPS[12], AFTER);
    }
  }

  /**
   An unparsed entry counts among those a dropped marker may expose: the loop keeps it and what
   it hid, and a key that read as missing reads as corrupted.
   */
  lemma UnparsedEntryUnmasks(v: Levels)
    requires BaseLevel(v, 1, 5)
    ensures
      var bad := Entry(IKey(5, 4, 9), []);
      var es := [Marker(5, 5), bad, Value(5, 3, 30)];
      && Sorted(es)
      && !NothingExposed(es, Unparsed(es), 10, v, 1)
      && !SameReads(SetOf(es), SetOf(Kept(es, 10, v, 1, 3)), 10)
      && Lookup(SetOf(es), 5, 10) == Missing
      && Lookup(SetOf(Kept(es, 10, v, 1, 3)), 5, 10) == Corrupted
  {
    var bad := Entry(IKey(5, 4, 9), []);
    var es := [Marker(5, 5), bad, Value(5, 3, 30)];
    assert es[1] in es && Unparsed(es) == {bad};
    assert ObsoleteMarker(es, 10, v, 1, 0);
    assert IsNewest(Unparsed(es), 5, 10, bad);
    assert {} + Unparsed(es) == Unparsed(es) && SetOf(es) + {} == SetOf(es);
    MarkerIsNewest(es, {}, 10, v, 1, 0, bad);
    HiddenIsNewest(es, {}, 10, v, 1, 0, bad);
    LookupIs(SetOf(es), 5, 10, es[0]);
    assert SetOf(Kept(es, 10, v, 1, 3)) + {} == SetOf(Kept(es, 10, v, 1, 3));
    LookupIs(SetOf(Kept(es, 10, v, 1, 3)), 5, 10, bad);
  }
}
