/**
 The database object.  Each method performs exactly one step of the StoreRuns state
 machine on the object's state, and Get agrees with the whole content (db/db_impl.cc).
 */
module DbObject {
  import opened Entries
  import opened Versions
  import opened Cursors
  import opened CompactionInputs
  import opened CompactionSetup
  import opened CompactionCuts
  import opened CompactionPass
  import opened VersionBuilder
  import opened StoreState
  import opened StoreRuns
  import opened Snapshots
  import opened Store
  import opened StoreView
  import DbIter
  import Merger

  /** Insertion into the ordered memtable. */
  function InsertEntry(run: seq<Entry>, e: Entry): seq<Entry> {
    var p := SeekPos(run, e.key);
    run[..p] + [e] + run[p..]
  }

  lemma InsertHolds(run: seq<Entry>, p: nat, e: Entry)
    requires p <= |run|
    ensures SetOf(run[..p] + [e] + run[p..]) == SetOf(run) + {e}
  {
    assert run == run[..p] + run[p..];
  }

  lemma InsertSorted(run: seq<Entry>, p: nat, e: Entry)
    requires Sorted(run) && p <= |run|
    requires forall x :: x in run[..p] ==> Less(x.key, e.key)
    requires forall x :: x in run[p..] ==> Less(e.key, x.key)
    ensures Sorted(run[..p] + [e] + run[p..])
  {
    assert run == run[..p] + run[p..];
    SortedParts(run[..p], run[p..]);
    JoinSorted([e], run[p..]);
    JoinSorted(run[..p], [e] + run[p..]);
    assert run[..p] + [e] + run[p..] == run[..p] + ([e] + run[p..]);
  }

  lemma InsertEntryOk(run: seq<Entry>, e: Entry)
    requires Sorted(run) && forall x :: x in run ==> x.key != e.key
    ensures Sorted(InsertEntry(run, e))
    ensures SetOf(InsertEntry(run, e)) == SetOf(run) + {e}
  {
    var p := SeekPos(run, e.key);
    forall i | p <= i < |run|
      ensures Less(e.key, run[i].key)
    {
      assert run[i] in run;
      SeekSplits(run, e.key, run[i]);
    }
    InsertSorted(run, p, e);
    InsertHolds(run, p, e);
  }

  /** A hit in a run decides the read when the run is newer than everything else considered. */
  lemma LayerHit(run: seq<Entry>, rest: set<Entry>, u: int, s: nat)
    requires Sorted(run) && RunNewer(run, rest)
    ensures
      var p := SeekPos(run, Target(u, s));
      Lookup(SetOf(run) + rest, u, s) ==
      if p < |run| && run[p].key.user == u then OutcomeOf(run[p]) else Lookup(rest, u, s)
  {
    var p := SeekPos(run, Target(u, s));
    var all := SetOf(run) + rest;
    forall f | f in run && Visible(f.key, u, s)
      ensures p < |run| && (f == run[p] || Less(run[p].key, f.key))
    {
      SeekSplits(run, Target(u, s), f);
    }
    if p < |run| && run[p].key.user == u {
      assert run[p] in run && IsNewest(all, u, s, run[p]);
      LookupIs(all, u, s, run[p]);
    } else {
      SameLookup(all, rest, u, s);
    }
  }

  /** The memtable's answer: a value or deletion for the user key, or nothing. */
  function MemGet(run: seq<Entry>, u: int, s: nat): Probe {
    var p := SeekPos(run, Target(u, s));
    if p < |run| && run[p].key.user == u && Parses(run[p].key) then Hit(OutcomeOf(run[p])) else NoHit
  }

  /** A read is answered by the memtable, or by what lies beneath it. */
  lemma ReadMem(db: Db, u: int, s: nat)
    requires Inv(db)
    ensures Lookup(AllEntries(db), u, s) ==
            match MemGet(db.mem, u, s) {
              case Hit(outcome) => outcome
              case NoHit => if db.imm.NoFrozen? then Lookup(VersionEntries(db.levels), u, s)
                            else match MemGet(db.imm.run, u, s) {
                              case Hit(outcome) => outcome
                              case NoHit => Lookup(VersionEntries(db.levels), u, s)
                            }
            }
  {
    var files := VersionEntries(db.levels);
    MemoryHit(db.mem, ImmEntries(db) + files, u, s);
    assert AllEntries(db) == SetOf(db.mem) + (ImmEntries(db) + files);
    if db.imm.Frozen? {
      MemoryHit(db.imm.run, files, u, s);
    } else {
      assert ImmEntries(db) + files == files;
    }
  }

  lemma MemoryHit(run: seq<Entry>, rest: set<Entry>, u: int, s: nat)
    requires Sorted(run) && RunNewer(run, rest) && forall e :: e in run ==> Parses(e.key)
    ensures Lookup(SetOf(run) + rest, u, s) ==
            match MemGet(run, u, s) {
              case Hit(outcome) => outcome
              case NoHit => Lookup(rest, u, s)
            }
  {
    LayerHit(run, rest, u, s);
  }

  /** What the planned input lists look like to the merge. */
  lemma PlannedLists(v: Levels, next: nat, level: nat, in0: seq<File>, in1: seq<File>, a: nat, lo: IKey, hi: IKey)
    requires WellFormed(v) && NumbersOk(v, next) && level + 1 < |v| && Planned(v, level, in0, in1, a, lo, hi)
    ensures InputLists(v, level, in0, in1)
  {
    PlannedIsGood(v, next, level, in0, in1, a, lo, hi);
    OverlapKeepsDisjoint(v[level + 1], At(lo.user), At(hi.user));
    if level > 0 {
      RunIsDisjoint(v[level], in0, a);
    } else {
      ZeroPickDistinct(v[0], in0);
    }
  }

  lemma OverlapKeepsDisjoint(fs: seq<File>, lo: Bound, hi: Bound)
    requires AllOk(fs) && Disjoint(fs)
    ensures Disjoint(Overlapping(fs, lo, hi))
  {
    DisjointAscends(fs);
    var x, y := OverlapIsRun(fs, lo, hi);
  }

  lemma ZeroPickDistinct(fs: seq<File>, picked: seq<File>)
    requires LevelZeroOk(fs) && exists l, h :: Closed(fs, l, h) && picked == Overlapping(fs, l, h)
    ensures forall i, j :: 0 <= i < j < |picked| ==> picked[i] != picked[j]
  {
    var l, h :| Closed(fs, l, h) && picked == Overlapping(fs, l, h);
    OverlapDistinct(fs, l, h);
  }

  lemma RunIsDisjoint(fs: seq<File>, picked: seq<File>, a: nat)
    requires AllOk(fs) && Disjoint(fs) && IsRun(fs, a, picked)
    ensures Disjoint(picked)
    ensures forall i, j :: 0 <= i < j < |picked| ==> picked[i] != picked[j]
  {
    assert forall i :: 0 <= i < |picked| ==> picked[i] == fs[a + i];
    forall i, j | 0 <= i < j < |picked|
      ensures Less(picked[i].largest, picked[j].smallest) && picked[i] != picked[j]
    {
      assert Less(fs[a + i].largest, fs[a + j].smallest) && fs[a + i] in fs;
      FileCovers(fs[a + i], fs[a + i].entries[0]);
    }
  }

  lemma {:induction false} OverlapDistinct(fs: seq<File>, lo: Bound, hi: Bound)
    requires forall i, j :: 0 <= i < j < |fs| ==> fs[i].number != fs[j].number
    ensures forall i, j :: 0 <= i < j < |Overlapping(fs, lo, hi)| ==>
              Overlapping(fs, lo, hi)[i] != Overlapping(fs, lo, hi)[j]
  {
    if fs != [] {
      var front, f := fs[..|fs| - 1], fs[|fs| - 1];
      OverlapDistinct(front, lo, hi);
      OverlappingHolds(front, lo, hi, f);
    }
  }

  class DbImpl {
    var mem: seq<Entry>
    var imm: Frozen
    var levels: Levels
    var lastSeq: nat
    var nextFile: nat
    const snapshots: SnapshotList

    ghost function State(): Db
      reads this, snapshots
    {
      Db(mem, imm, levels, lastSeq, nextFile, snapshots.Held())
    }

    ghost predicate Valid()
      reads this, snapshots, snapshots.ring
    {
      snapshots.Valid() && Inv(State())
    }

    constructor ()
      ensures State() == EmptyDb() && Valid() && fresh(snapshots) && fresh(snapshots.ring)
    {
      mem, imm, levels := [], NoFrozen, seq(NUM_LEVELS, _ => []);
      lastSeq, nextFile := 0, 2;
      snapshots := new SnapshotList();
      new;
      EmptyIsOk();
    }

    /** Apply one batch to the memtable, giving its operations consecutive sequence numbers. */
    method Write(ops: seq<Op>)
      requires Valid() && lastSeq + |ops| < MAX_SEQUENCE
      modifies this
      ensures Next(old(State()), StoreRuns.Write(ops), State()) && Valid()
      ensures ReadsItsWrites(old(AllEntries(State())), old(lastSeq), ops, AllEntries(State()))
    {
      ghost var was := State();
      mem := InsertBatch(mem, ops, lastSeq);
      lastSeq := lastSeq + |ops|;
      WriteKeepsInv(was, ops, State());
      WriteIsRead(was, ops, State());
    }

    method FreezeMemTable()
      requires Valid() && imm.NoFrozen?
      modifies this
      ensures Next(old(State()), Freeze, State()) && Valid()
    {
      ghost var was := State();
      imm, mem := Frozen(mem), [];
      FreezeKeepsInv(was, State());
    }

    /** Write the frozen memtable as a table and install it. */
    method CompactMemTable(size: nat, maxOverlap: nat) returns (level: nat)
      requires Valid() && imm.Frozen?
      modifies this
      ensures Next(old(State()), Flush(level, size), State()) && Valid()
      ensures
        var run := old(imm).run;
        run != [] ==> DeepestLevel(old(levels), run[0].key.user, run[|run| - 1].key.user, maxOverlap, level)
    {
      hide Inv, Next, FlushLevelOk, Edited, WellFormed, AllOrdered, NumbersOk, DeepestLevel;
      ghost var was := State();
      InvParts(was);
      level := 0;
      var number := nextFile;
      nextFile := nextFile + 1;
      if imm.run != [] {
        LargestBelowMax(was);
        level, levels := InstallFlushed(levels, number, Finish(imm.run, number, size), maxOverlap);
      }
      imm := NoFrozen;
      FlushIsStep(was, level, size, State());
    }

    /**
     One background compaction of `level`: pick, plan, and either move a lone file down or
     merge, drop and install.  `tableBytes` and the limits only steer where outputs are cut
     and whether the level set grows.
     */
    method BackgroundCompaction(level: nat, pointer: MaybeKey, maxFileSize: nat, tableBytes: seq<Entry> -> nat)
      returns (ghost step: Step, ghost plan: Plan)
      requires Valid() && level + 1 < NUM_LEVELS && levels[level] != []
      modifies this
      ensures Next(old(State()), step, State()) && Valid()
      ensures PlanInTurn(old(levels), level, pointer, 25 * maxFileSize, plan)
      ensures
        if IsTrivialMove(plan, 10 * maxFileSize) then step == Move(level, plan.in0[0])
        else Follows(step, level, plan, maxFileSize, tableBytes) && step.snap == SmallestSnapshot(old(State()))
    {
      hide Inv, Next, PlanOk, PlanInTurn, WellFormed, NumbersOk, FilesOk, WellCut, Measured, Runs;
      InvParts(State());
      var planned := PlanCompaction(levels, nextFile, level, pointer, maxFileSize);
      plan := planned;
      PlanIsLone(levels, level, plan);
      if IsTrivialMove(planned, 10 * maxFileSize) {
        step := MoveDown(level, planned.in0[0]);
      } else {
        step := MergeDown(level, planned, maxFileSize, tableBytes);
      }
    }

    /** The trivial move: relink a lone input file one level down. */
    method MoveDown(level: nat, f: File) returns (ghost step: Step)
      requires Valid() && level + 1 < NUM_LEVELS && PlanOk(levels, level, PlanOf(f))
      modifies this
      ensures step == Move(level, f) && Next(old(State()), step, State()) && Valid()
    {
      hide Inv, Next, PlanOk, FilesOk, Installed;
      ghost var was := State();
      InvParts(was);
      levels := InstallMove(levels, nextFile, level, f);
      step := Move(level, f);
      MoveIsStep(was, level, f, State());
    }

    method MergeDown(level: nat, plan: Plan, maxFileSize: nat, tableBytes: seq<Entry> -> nat) returns (ghost step: Step)
      requires Valid() && level + 1 < NUM_LEVELS && PlanOk(levels, level, plan)
      modifies this
      ensures Follows(step, level, plan, maxFileSize, tableBytes) && step.snap == SmallestSnapshot(old(State()))
      ensures Next(old(State()), step, State()) && Valid()
    {
      hide Inv, Next, PlanOk, FilesOk, Installed, Kept, Contents, AllOk, Disjoint, NumberedFrom, Sorted, FileEntries;
      hide WellCut, Measured, Runs;
      ghost var was := State();
      InvParts(was);
      var snap := lastSeq;
      if !snapshots.Empty() {
        var oldest := snapshots.Oldest();
        snap := oldest.sequenceNumber;
      }
      var input, outs, levels' := MergeAndInstall(levels, nextFile, level, plan, snap, maxFileSize, tableBytes);
      levels, nextFile := levels', nextFile + |outs|;
      step := Compact(level, plan.in0, plan.in1, input, snap, outs);
      InstallIsStep(was, level, plan, input, snap, outs, State());
    }

    /** A handle on the state as it is now. */
    method GetSnapshot() returns (s: SnapshotImpl)
      requires Valid()
      modifies snapshots, snapshots.ring
      ensures Next(old(State()), TakeSnapshot, State()) && Valid()
      ensures snapshots.ring == old(snapshots.ring) + [s] && fresh(s) && s.sequenceNumber == lastSeq
    {
      ghost var was := State();
      s := snapshots.New(lastSeq);
      SnapshotsKeepInv(was, TakeSnapshot, State());
    }

    method ReleaseSnapshot(s: SnapshotImpl, ghost k: nat)
      requires Valid() && 1 <= k < |snapshots.ring| && s == snapshots.ring[k]
      modifies snapshots, snapshots.ring
      ensures Next(old(State()), StoreRuns.ReleaseSnapshot(k - 1), State()) && Valid()
      ensures snapshots.ring == old(snapshots.ring[..k] + snapshots.ring[k + 1..])
    {
      ghost var was := State();
      snapshots.Delete(s, k);
      SnapshotsKeepInv(was, StoreRuns.ReleaseSnapshot(k - 1), State());
    }

    /** An iterator over the live keys as of `s`, on a merge of the memtables and the files. */
    method NewIterator(s: nat) returns (it: DbIter.DBIter)
      requires Valid()
      ensures fresh(it) && it.Valid() && !it.valid && it.sequence == s && it.iter.run == MergeAll(Layers(State()))
      ensures fresh(it.iter) && fresh(it.iter.inner) && forall c :: c in it.iter.inner.children ==> fresh(c)
    {
      hide Inv, Layers, Mergeable, DbIter.View;
      MergeIsStore(State());
      var runs := [mem] + ((if imm.Frozen? then [imm.run] else []) + LevelRuns(levels, |levels|));
      LayersOf(State(), runs);
      var children := MakeChildren(runs);
      var merging := new Merger.MergingIterator(children, runs);
      var internal := new DbIter.InternalIterator(merging);
      it := new DbIter.DBIter(internal, s);
    }

    /** Look in the memtable, then the frozen memtable, then the files. */
    method Get(u: int, s: nat) returns (r: Outcome)
      requires Valid()
      ensures r == Lookup(AllEntries(State()), u, s)
    {
      hide Inv, AllEntries, ImmEntries, Lookup, RunNewer, WellFormed;
      InvParts(State());
      ReadMem(State(), u, s);
      var got := MemGet(mem, u, s);
      if got.Hit? {
        return got.outcome;
      }
      if imm.Frozen? {
        got := MemGet(imm.run, u, s);
        if got.Hit? {
          return got.outcome;
        }
      }
      r := Versions.Get(levels, u, s);
    }
  }

  /** Insert a batch's operations one by one, counting the sequence number up. */
  method InsertBatch(mem: seq<Entry>, ops: seq<Op>, last: nat) returns (run: seq<Entry>)
    requires Sorted(mem) && forall x :: x in mem ==> x.key.seqno <= last
    ensures Sorted(run) && SetOf(run) == SetOf(mem) + SetOf(Stamp(ops, last + 1))
  {
    var entries := Stamp(ops, last + 1);
    run := mem;
    for i := 0 to |entries|
      invariant Sorted(run) && SetOf(run) == SetOf(mem) + SetOf(entries[..i])
      invariant forall x :: x in run ==> x.key.seqno <= last + i
    {
      StampAt(ops, last + 1, i);
      InsertEntryOk(run, entries[i]);
      assert entries[..i + 1] == entries[..i] + [entries[i]];
      ghost var before := run;
      run := InsertEntry(run, entries[i]);
      forall x | x in run
        ensures x.key.seqno <= last + i + 1
      {
        assert x in SetOf(run) && (x in before || x == entries[i]);
      }
    }
    assert entries[..|entries|] == entries;
  }

  /** Choose a level for a flushed table and install it there. */
  method InstallFlushed(v: Levels, next: nat, f: File, maxOverlap: nat) returns (level: nat, v': Levels)
    requires WellFormed(v) && AllOrdered(v) && NumbersOk(v, next) && f.number == next
    requires forall l, g :: 0 <= l < |v| && g in v[l] ==> g.largest.seqno < MAX_SEQUENCE
    ensures FlushLevelOk(v, level, f) && Edited(v, {}, {(level, f)}, v')
    ensures DeepestLevel(v, f.smallest.user, f.largest.user, maxOverlap, level)
  {
    level := PickLevelForMemTableOutput(v, f.smallest.user, f.largest.user, maxOverlap);
    var edit := Edit({}, [(level, f)]);
    FlushNumberIsNew(v, next, edit, level, f);
    v' := InstallEdit(v, edit);
    assert edit.added[0] == (level, f);
    assert AdditionsOf(edit) == {(level, f)};
    forall l, g | level > 0 && 0 <= l <= level && g in v[l]
      ensures g.largest.user < f.smallest.user || f.largest.user < g.smallest.user
    {
      assert NoOverlapAt(v, l, f.smallest.user, f.largest.user);
    }
  }

  lemma StampAt(ops: seq<Op>, first: nat, i: nat)
    requires i < |ops|
    ensures Stamp(ops, first)[i].key.seqno == first + i
  {
  }

  lemma LargestBelowMax(db: Db)
    requires Inv(db)
    ensures forall l, f :: 0 <= l < |db.levels| && f in db.levels[l] ==> f.largest.seqno < MAX_SEQUENCE
  {
    forall l: nat, f | l < |db.levels| && f in db.levels[l]
      ensures f.largest.seqno < MAX_SEQUENCE
    {
      var e := f.entries[|f.entries| - 1];
      EntryIn(db.levels, l, f, e);
      assert e in AllEntries(db);
    }
  }

  lemma FlushNumberIsNew(v: Levels, next: nat, edit: Edit, level: nat, f: File)
    requires NumbersOk(v, next) && f.number == next && edit == Edit({}, [(level, f)]) && level < NUM_LEVELS
    ensures NumbersAreNew(v, edit) && EditInRange(edit)
  {
  }

  datatype Plan = Plan(in0: seq<File>, in1: seq<File>, grandparents: seq<File>)

  function PlanOf(f: File): Plan {
    Plan([f], [], [])
  }

  ghost predicate PlanOk(v: Levels, level: nat, plan: Plan) {
    && level + 1 < |v| && InputLists(v, level, plan.in0, plan.in1)
    && exists a, lo, hi :: Planned(v, level, plan.in0, plan.in1, a, lo, hi)
  }

  /** What lies two levels down within the range of the inputs. */
  ghost predicate GrandparentsOk(v: Levels, level: nat, all: seq<File>, grandparents: seq<File>)
    requires |v| == NUM_LEVELS
  {
    if level + 2 < NUM_LEVELS then
      exists lo, hi ::
        IsSmallest(all, lo) && IsLargest(all, hi) && grandparents == Overlapping(v[level + 2], At(lo.user), At(hi.user))
    else grandparents == []
  }

  /** The inputs come from the file whose turn it is: with boundary files, and expanded where that pays. */
  ghost predicate PlanInTurn(v: Levels, level: nat, pointer: MaybeKey, expandLimit: nat, plan: Plan)
    requires |v| == NUM_LEVELS && level + 1 < NUM_LEVELS
  {
    && GrandparentsOk(v, level, plan.in0 + plan.in1, plan.grandparents)
    && exists i: nat, picked, base, wide ::
         && i < |v[level]| && NextInTurn(v[level], pointer, i) && PickedFor(v, level, i, picked)
         && AddedInTurn(v[level], picked, base) && PlannedInputs(v, level, base, plan.in1)
         && (plan.in1 != [] ==> Expanded(v, level, base, plan.in1, wide))
         && plan.in0 == if Pays(v, level, base, plan.in1, wide, expandLimit) then wide else base
  }

  /** A lone input file with nothing to merge with, and little two levels down. */
  predicate IsTrivialMove(plan: Plan, maxOverlap: nat) {
    |plan.in0| == 1 && plan.in1 == [] && TotalFileSize(plan.grandparents) <= maxOverlap
  }

  function CutLimits(plan: Plan, maxFileSize: nat, tableBytes: seq<Entry> -> nat): Limits {
    Limits(plan.grandparents, 10 * maxFileSize, maxFileSize, tableBytes)
  }

  /** The step merges the inputs of the plan into outputs that are cut where they should be. */
  ghost predicate Follows(step: Step, level: nat, plan: Plan, maxFileSize: nat, tableBytes: seq<Entry> -> nat) {
    && step.Compact? && step.level == level && step.in0 == plan.in0 && step.in1 == plan.in1
    && Measured(step.outs, tableBytes) && WellCut(CutLimits(plan, maxFileSize, tableBytes), step.input, Runs(step.outs))
  }

  lemma PlanIsLone(v: Levels, level: nat, plan: Plan)
    requires PlanOk(v, level, plan)
    ensures |plan.in0| == 1 && plan.in1 == [] ==> PlanOk(v, level, PlanOf(plan.in0[0]))
  {
    assert |plan.in0| == 1 ==> plan.in0 == [plan.in0[0]];
  }

  /** Pick and widen the inputs, and note the grandparent files they cover. */
  method PlanCompaction(v: Levels, ghost next: nat, level: nat, pointer: MaybeKey, maxFileSize: nat) returns (plan: Plan)
    requires WellFormed(v) && NumbersOk(v, next) && level + 1 < NUM_LEVELS && v[level] != []
    ensures PlanOk(v, level, plan) && PlanInTurn(v, level, pointer, 25 * maxFileSize, plan)
  {
    hide Chosen, Overlapping, OverlapClosure, LeastClosed, FileOk, Layered, LevelZeroOk, NumbersOk;
    hide NextInTurn, PickedFor, AddedInTurn, Expanded, Pays, NoBoundaryLeft, GrandparentsOk, PlanInTurn;
    var picked;
    ghost var a;
    picked, a := PickCompaction(v, level, pointer);
    var in0, in1;
    ghost var a', lo, hi, base, baseLo, baseHi, wide;
    in0, in1, a', lo, hi, base, baseLo, baseHi, wide := SetupOtherInputs(v, level, picked, 25 * maxFileSize, a);
    PlannedLists(v, next, level, in0, in1, a', lo, hi);
    NotNone(v, level, in0, a');
    var grandparents := PickGrandparents(v, level, in0 + in1);
    plan := Plan(in0, in1, grandparents);
    TurnIs(v, level, pointer, 25 * maxFileSize, plan, picked, base, wide);
  }

  method PickGrandparents(v: Levels, level: nat, all: seq<File>) returns (grandparents: seq<File>)
    requires WellFormed(v) && all != []
    ensures GrandparentsOk(v, level, all, grandparents)
  {
    grandparents := [];
    if level + 2 < NUM_LEVELS {
      var allStart, allLimit := GetRange(all);
      ghost var l, h;
      grandparents, l, h := GetOverlappingInputs(v[level + 2], false, At(allStart.user), At(allLimit.user));
    }
  }

  lemma TurnIs(v: Levels, level: nat, pointer: MaybeKey, expandLimit: nat, plan: Plan, picked: seq<File>, base: seq<File>,
               wide: seq<File>)
    requires |v| == NUM_LEVELS && level + 1 < NUM_LEVELS && GrandparentsOk(v, level, plan.in0 + plan.in1, plan.grandparents)
    requires exists i: nat :: i < |v[level]| && NextInTurn(v[level], pointer, i) && PickedFor(v, level, i, picked)
    requires AddedInTurn(v[level], picked, base) && PlannedInputs(v, level, base, plan.in1)
    requires plan.in1 != [] ==> Expanded(v, level, base, plan.in1, wide)
    requires plan.in0 == if Pays(v, level, base, plan.in1, wide, expandLimit) then wide else base
    ensures PlanInTurn(v, level, pointer, expandLimit, plan)
  {
    hide GrandparentsOk, NextInTurn, PickedFor, AddedInTurn, PlannedInputs, Expanded, Pays;
  }

  lemma PlanIsGood(v: Levels, next: nat, level: nat, plan: Plan)
    requires WellFormed(v) && NumbersOk(v, next) && PlanOk(v, level, plan)
    ensures InputsOf(v, level, plan.in0, plan.in1)
  {
    var a: nat, lo, hi :| Planned(v, level, plan.in0, plan.in1, a, lo, hi);
    PlannedIsGood(v, next, level, plan.in0, plan.in1, a, lo, hi);
  }

  function PlanDeletions(level: nat, in0: seq<File>, in1: seq<File>): (r: set<(nat, nat)>)
    ensures r == Deletions(level, in0, in1)
  {
    (set f | f in in0 :: (level, f.number)) + (set f | f in in1 :: (level + 1, f.number))
  }

  function PlanAdditions(level: nat, outs: seq<File>): (r: seq<(nat, File)>)
    ensures forall p :: p in r <==> p in Additions(level, outs)
  {
    var r := seq(|outs|, i requires 0 <= i < |outs| => (level, outs[i]));
    assert forall i :: 0 <= i < |outs| ==> r[i] in r && outs[i] in outs;
    r
  }

  /** Delete the inputs from their levels and add the outputs one level down. */
  method InstallPlan(v: Levels, ghost next: nat, level: nat, in0: seq<File>, in1: seq<File>, outs: seq<File>)
    returns (v': Levels)
    requires |v| == NUM_LEVELS && AllOrdered(v) && NumbersOk(v, next) && level + 1 < NUM_LEVELS
    requires forall f, g :: f in outs && g in outs && f.number == g.number ==> f == g
    requires forall f, g :: f in v[level + 1] && g in outs ==> f.number != g.number
    ensures Installed(v, level, in0, in1, outs, v')
  {
    var edit := Edit(PlanDeletions(level, in0, in1), PlanAdditions(level + 1, outs));
    forall l: nat | l < |v|
      ensures OneFilePerNumber(AddedAt(edit.added, l))
    {
      forall f | f in AddedAt(edit.added, l)
        ensures f in outs
      {
        assert (l, f) in edit.added;
      }
    }
    forall l, f, g | 0 <= l < |v| && f in v[l] && (l, g) in edit.added
      ensures f.number != g.number
    {
      assert (l, g) in Additions(level + 1, outs);
    }
    v' := InstallEdit(v, edit);
    assert AdditionsOf(edit) == Additions(level + 1, outs);
  }

  method InstallMove(v: Levels, ghost next: nat, level: nat, f: File) returns (v': Levels)
    requires FilesOk(v, next) && level + 1 < NUM_LEVELS && PlanOk(v, level, PlanOf(f))
    ensures Installed(v, level, [f], [], [f], v')
  {
    hide PlanOk, Installed;
    PlanIsGood(v, next, level, PlanOf(f));
    assert f in [f];
    forall g | g in v[level + 1]
      ensures g.number != f.number
    {
      assert g.number == f.number ==> ShareNumber(v, level, f, level + 1, g);
    }
    v' := InstallPlan(v, next, level, [f], [], [f]);
  }

  lemma LayersOf(db: Db, runs: seq<seq<Entry>>)
    requires runs == [db.mem] + ((if db.imm.Frozen? then [db.imm.run] else []) + LevelRuns(db.levels, |db.levels|))
    ensures runs == Layers(db)
  {
  }

  lemma InvParts(db: Db)
    requires Inv(db)
    ensures FilesOk(db.levels, db.nextFile) && SmallestSnapshot(db) < MAX_SEQUENCE
    ensures |db.levels| == NUM_LEVELS && WellFormed(db.levels) && NumbersOk(db.levels, db.nextFile)
    ensures AllOrdered(db.levels)
  {
    SmallestIsLeast(db);
  }

  lemma FlushIsStep(db: Db, level: nat, size: nat, db': Db)
    requires Inv(db) && db.imm.Frozen?
    requires db' == db.(imm := NoFrozen, levels := db'.levels, nextFile := db.nextFile + 1)
    requires db.imm.run == [] ==> db'.levels == db.levels
    requires db.imm.run != [] ==>
      var f := Finish(db.imm.run, db.nextFile, size);
      FlushLevelOk(db.levels, level, f) && Edited(db.levels, {}, {(level, f)}, db'.levels)
    ensures Next(db, Flush(level, size), db') && Inv(db')
  {
    hide Inv, FlushLevelOk, Edited, Finish;
    FlushKeepsInv(db, level, size, db');
  }

  lemma MoveIsStep(db: Db, level: nat, f: File, db': Db)
    requires Inv(db) && PlanOk(db.levels, level, PlanOf(f))
    requires Installed(db.levels, level, [f], [], [f], db'.levels) && db' == db.(levels := db'.levels)
    ensures Next(db, Move(level, f), db') && Inv(db')
  {
    hide Inv, Installed, InputLists, Planned;
    MoveKeepsInv(db, level, f, db');
  }

  lemma InstallIsStep(db: Db, level: nat, plan: Plan, input: seq<Entry>, snap: nat, outs: seq<File>, db': Db)
    requires Inv(db) && PlanOk(db.levels, level, plan) && snap == SmallestSnapshot(db)
    requires Sorted(input) && SetOf(input) == FileEntries(plan.in0 + plan.in1)
    requires Contents(outs) == Kept(input, snap, db.levels, level, |input|)
    requires AllOk(outs) && Disjoint(outs) && NumberedFrom(outs, db.nextFile)
    requires Installed(db.levels, level, plan.in0, plan.in1, outs, db'.levels)
    requires db' == db.(levels := db'.levels, nextFile := db.nextFile + |outs|)
    ensures Next(db, Compact(level, plan.in0, plan.in1, input, snap, outs), db') && Inv(db')
  {
    hide Inv, Installed, Kept, Contents, AllOk, Disjoint, NumberedFrom, Sorted, FileEntries, Planned;
    CompactKeepsInv(db, level, plan.in0, plan.in1, input, snap, outs, db');
  }

  /** Merge the inputs, run the keep/drop loop, and install its outputs. */
  method MergeAndInstall(v: Levels, next: nat, level: nat, plan: Plan, snap: nat, maxFileSize: nat,
                         tableBytes: seq<Entry> -> nat)
    returns (input: seq<Entry>, outs: seq<File>, v': Levels)
    requires FilesOk(v, next) && PlanOk(v, level, plan) && snap < MAX_SEQUENCE
    ensures Sorted(input) && SetOf(input) == FileEntries(plan.in0 + plan.in1)
    ensures Contents(outs) == Kept(input, snap, v, level, |input|)
    ensures AllOk(outs) && Disjoint(outs) && NumberedFrom(outs, next)
    ensures Installed(v, level, plan.in0, plan.in1, outs, v')
    ensures Measured(outs, tableBytes) && WellCut(CutLimits(plan, maxFileSize, tableBytes), input, Runs(outs))
  {
    hide WellCut, Measured, Runs;
    input := MakeInput(v, level, plan);
    var c := new Compaction(level, v, plan.grandparents, maxFileSize, 10 * maxFileSize);
    outs := DoCompactionWork(c, input, snap, next, tableBytes);
    forall f, g | f in outs && g in outs && f.number == g.number
      ensures f == g
    {
      NumberedUnique(outs, next, f, g);
    }
    forall f, g | f in v[level + 1] && g in outs
      ensures f.number != g.number
    {
      NumberedOutput(outs, next, g);
    }
    v' := InstallPlan(v, next, level, plan.in0, plan.in1, outs);
  }

  method MakeInput(v: Levels, level: nat, plan: Plan) returns (input: seq<Entry>)
    requires WellFormed(v) && PlanOk(v, level, plan)
    ensures Sorted(input) && SetOf(input) == FileEntries(plan.in0 + plan.in1)
  {
    var runs := InputRuns(level, plan.in0, plan.in1);
    RunsMergeable(v, level, plan.in0, plan.in1);
    input := Drain(runs);
    MergeAllOk(runs);
    forall e
      ensures e in SetOf(input) <==> e in FileEntries(plan.in0 + plan.in1)
    {
      RunsHold(level, plan.in0, plan.in1, e);
    }
  }
}
