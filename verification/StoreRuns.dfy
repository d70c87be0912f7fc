/**
 The store as a state machine.  Every step keeps the invariant, and a held snapshot reads
 the same through every run of steps whose compactions expose nothing, in particular where
 none leaves a boundary file behind on its output level.
 */
module StoreRuns {
  import opened Entries
  import opened Versions
  import opened CompactionInputs
  import opened CompactionSetup
  import opened CompactionPass
  import opened VersionBuilder
  import opened StoreState

  datatype Op = Put(user: int, value: seq<int>) | Delete(user: int)

  /** Operations of a batch get consecutive sequence numbers. */
  function Stamp(ops: seq<Op>, first: nat): (r: seq<Entry>)
    ensures |r| == |ops|
  {
    seq(|ops|, i requires 0 <= i < |ops| =>
      match ops[i]
      case Put(u, v) => Entry(IKey(u, first + i, TYPE_VALUE), v)
      case Delete(u) => Entry(IKey(u, first + i, TYPE_DELETION), []))
  }

  datatype Step =
    | Write(ops: seq<Op>)
    | Freeze
    | Flush(level: nat, size: nat)
    | Compact(level: nat, in0: seq<File>, in1: seq<File>, input: seq<Entry>, snap: nat, outs: seq<File>)
    | Move(level: nat, file: File)
    | TakeSnapshot
    | ReleaseSnapshot(index: nat)

  /** A flushed table may skip levels that hold nothing in its user-key range. */
  ghost predicate FlushLevelOk(v: Levels, level: nat, f: File) {
    && level < |v|
    && (level > 0 ==> forall l, g :: 0 <= l <= level && g in v[l] ==>
                        g.largest.user < f.smallest.user || f.largest.user < g.smallest.user)
  }

  ghost predicate FlushStep(db: Db, level: nat, size: nat, db': Db) {
    && db.imm.Frozen?
    && db' == db.(imm := NoFrozen, levels := db'.levels, nextFile := db.nextFile + 1)
    && if db.imm.run == [] then db'.levels == db.levels
       else var f := Finish(db.imm.run, db.nextFile, size);
            FlushLevelOk(db.levels, level, f) && Edited(db.levels, {}, {(level, f)}, db'.levels)
  }

  /** The two input sets are planned on the current version and merged in key order. */
  ghost predicate CompactionOf(db: Db, level: nat, in0: seq<File>, in1: seq<File>, input: seq<Entry>) {
    && level + 1 < |db.levels|
    && (exists a, lo, hi :: Planned(db.levels, level, in0, in1, a, lo, hi))
    && Sorted(input) && SetOf(input) == FileEntries(in0 + in1)
  }

  /** `snap` was the oldest snapshot when the compaction began, so it is no larger now. */
  ghost predicate CompactStep(db: Db, level: nat, in0: seq<File>, in1: seq<File>, input: seq<Entry>, snap: nat,
                              outs: seq<File>, db': Db)
  {
    && CompactionOf(db, level, in0, in1, input) && snap <= SmallestSnapshot(db)
    && Contents(outs) == Kept(input, snap, db.levels, level, |input|)
    && AllOk(outs) && Disjoint(outs) && NumberedFrom(outs, db.nextFile)
    && Installed(db.levels, level, in0, in1, outs, db'.levels)
    && db' == db.(levels := db'.levels, nextFile := db.nextFile + |outs|)
  }

  /** A lone input file with nothing beneath it moves down unread. */
  ghost predicate MoveStep(db: Db, level: nat, f: File, db': Db) {
    && level + 1 < |db.levels|
    && (exists a, lo, hi :: Planned(db.levels, level, [f], [], a, lo, hi))
    && Installed(db.levels, level, [f], [], [f], db'.levels)
    && db' == db.(levels := db'.levels)
  }

  ghost predicate WriteStep(db: Db, ops: seq<Op>, db': Db) {
    && db.lastSeq + |ops| < MAX_SEQUENCE
    && db' == db.(mem := db'.mem, lastSeq := db.lastSeq + |ops|)
    && Sorted(db'.mem) && SetOf(db'.mem) == SetOf(db.mem) + SetOf(Stamp(ops, db.lastSeq + 1))
  }

  ghost predicate Next(db: Db, step: Step, db': Db) {
    match step
    case Write(ops) => WriteStep(db, ops, db')
    case Freeze => db.imm.NoFrozen? && db' == db.(mem := [], imm := Frozen(db.mem))
    case Flush(level, size) => FlushStep(db, level, size, db')
    case Compact(level, in0, in1, input, snap, outs) => CompactStep(db, level, in0, in1, input, snap, outs, db')
    case Move(level, f) => MoveStep(db, level, f, db')
    case TakeSnapshot => db' == db.(snapshots := db.snapshots + [db.lastSeq])
    case ReleaseSnapshot(i) => i < |db.snapshots| && db' == db.(snapshots := db.snapshots[..i] + db.snapshots[i + 1..])
  }

  // ---- Writes, freezing, snapshots ----

  lemma StampIs(ops: seq<Op>, first: nat, e: Entry)
    requires e in Stamp(ops, first)
    ensures Parses(e.key) && first <= e.key.seqno < first + |ops|
  {
    var i :| 0 <= i < |ops| && Stamp(ops, first)[i] == e;
  }

  lemma WriteKeepsInv(db: Db, ops: seq<Op>, db': Db)
    requires Inv(db) && WriteStep(db, ops, db')
    ensures Inv(db')
    ensures forall u, s: nat :: s <= db.lastSeq ==> Lookup(AllEntries(db'), u, s) == Lookup(AllEntries(db), u, s)
  {
    var news := SetOf(Stamp(ops, db.lastSeq + 1));
    forall e | e in news
      ensures Parses(e.key) && db.lastSeq < e.key.seqno <= db.lastSeq + |ops|
    {
      StampIs(ops, db.lastSeq + 1, e);
    }
    assert AllEntries(db') == AllEntries(db) + news;
    forall e | e in db'.mem
      ensures e in SetOf(db.mem) || e in news
    {
      assert e in SetOf(db'.mem);
    }
    forall u, s: nat | s <= db.lastSeq
      ensures Lookup(AllEntries(db'), u, s) == Lookup(AllEntries(db), u, s)
    {
      assert forall e :: e in news ==> !Visible(e.key, u, s);
      SameLookup(AllEntries(db'), AllEntries(db), u, s);
    }
  }

  /** Operation `k` is the last one on the key among the first `n`. */
  ghost predicate LastOn(ops: seq<Op>, n: nat, u: int, k: nat) {
    k < n <= |ops| && ops[k].user == u && forall j :: k < j < n ==> ops[j].user != u
  }

  ghost predicate Untold(ops: seq<Op>, n: nat, u: int) {
    n <= |ops| && forall j :: 0 <= j < n ==> ops[j].user != u
  }

  /** A read reports the value put, or that the key was deleted. */
  ghost predicate Tells(es: set<Entry>, u: int, s: nat, op: Op) {
    Lookup(es, u, s) == if op.Put? then Found(op.value) else Missing
  }

  /** After each operation of a batch, a key it or an earlier one is on reads as the last of them says. */
  ghost predicate NewsAreTold(last: nat, ops: seq<Op>, es': set<Entry>) {
    forall u, n: nat, k: nat :: LastOn(ops, n, u, k) ==> Tells(es', u, last + n, ops[k])
  }

  /** A key none of them is on reads as it did before. */
  ghost predicate OthersAreKept(es: set<Entry>, last: nat, ops: seq<Op>, es': set<Entry>) {
    forall u, n: nat :: Untold(ops, n, u) ==> Lookup(es', u, last + n) == Lookup(es, u, last)
  }

  ghost predicate ReadsItsWrites(es: set<Entry>, last: nat, ops: seq<Op>, es': set<Entry>) {
    NewsAreTold(last, ops, es') && OthersAreKept(es, last, ops, es')
  }

  lemma WriteAdds(db: Db, ops: seq<Op>, db': Db)
    requires WriteStep(db, ops, db')
    ensures AllEntries(db') == AllEntries(db) + SetOf(Stamp(ops, db.lastSeq + 1))
  {
    hide WriteStep, Stamp, VersionEntries;
    assert SetOf(db'.mem) == SetOf(db.mem) + SetOf(Stamp(ops, db.lastSeq + 1)) && db'.imm == db.imm && db'.levels == db.levels by {
      WriteParts(db, ops, db');
    }
  }

  lemma WriteParts(db: Db, ops: seq<Op>, db': Db)
    requires WriteStep(db, ops, db')
    ensures SetOf(db'.mem) == SetOf(db.mem) + SetOf(Stamp(ops, db.lastSeq + 1)) && db'.imm == db.imm && db'.levels == db.levels
  {
  }

  /** The last operation on a key is the newest entry of it. */
  lemma LastIsNewest(es: set<Entry>, last: nat, ops: seq<Op>, n: nat, u: int, k: nat)
    requires Written(es, last) && LastOn(ops, n, u, k)
    ensures IsNewest(es + SetOf(Stamp(ops, last + 1)), u, last + n, Stamp(ops, last + 1)[k])
  {
    var news := Stamp(ops, last + 1);
    assert news[k] in news;
    forall f | f in es + SetOf(news) && Visible(f.key, u, last + n)
      ensures f == news[k] || Less(news[k].key, f.key)
    {
      if f in SetOf(news) {
        var j :| 0 <= j < |ops| && news[j] == f;
        assert j <= k;
      }
    }
  }

  lemma LastIsTold(es: set<Entry>, last: nat, ops: seq<Op>, n: nat, u: int, k: nat)
    requires Written(es, last) && LastOn(ops, n, u, k)
    ensures Tells(es + SetOf(Stamp(ops, last + 1)), u, last + n, ops[k])
  {
    LastIsNewest(es, last, ops, n, u, k);
    LookupIs(es + SetOf(Stamp(ops, last + 1)), u, last + n, Stamp(ops, last + 1)[k]);
    hide IsNewest, Lookup, Written, LastOn, SetOf;
  }

  lemma OnlyOldIsSeen(es: set<Entry>, last: nat, ops: seq<Op>, n: nat, u: int, e: Entry)
    requires Written(es, last) && Untold(ops, n, u)
    ensures e in es + SetOf(Stamp(ops, last + 1)) && Visible(e.key, u, last + n) <==> e in es && Visible(e.key, u, last)
  {
    if e in SetOf(Stamp(ops, last + 1)) {
      var j :| 0 <= j < |ops| && Stamp(ops, last + 1)[j] == e;
    }
  }

  /** Without an operation on it, the newest entry of a key stays what it was. */
  lemma UntoldIsSame(es: set<Entry>, last: nat, ops: seq<Op>, n: nat, u: int)
    requires Written(es, last) && Untold(ops, n, u)
    ensures Lookup(es + SetOf(Stamp(ops, last + 1)), u, last + n) == Lookup(es, u, last)
  {
    var all := es + SetOf(Stamp(ops, last + 1));
    forall e
      ensures e in all && Visible(e.key, u, last + n) <==> e in es && Visible(e.key, u, last)
    {
      OnlyOldIsSeen(es, last, ops, n, u, e);
    }
    hide Visible, Less, Untold, Written, Stamp, SetOf;
    forall e
      ensures IsNewest(all, u, last + n, e) <==> IsNewest(es, u, last, e)
    {
    }
    SameLookupAt(all, last + n, es, last, u);
  }

  lemma LastAreTold(es: set<Entry>, last: nat, ops: seq<Op>)
    requires Written(es, last)
    ensures NewsAreTold(last, ops, es + SetOf(Stamp(ops, last + 1)))
  {
    hide Lookup, Written, Tells, SetOf, Stamp;
    forall u, n: nat, k: nat | LastOn(ops, n, u, k)
      ensures Tells(es + SetOf(Stamp(ops, last + 1)), u, last + n, ops[k])
    {
      LastIsTold(es, last, ops, n, u, k);
    }
  }

  lemma UntoldAreSame(es: set<Entry>, last: nat, ops: seq<Op>)
    requires Written(es, last)
    ensures OthersAreKept(es, last, ops, es + SetOf(Stamp(ops, last + 1)))
  {
    hide Lookup, Written, SetOf, Stamp, Untold;
    forall u, n: nat | Untold(ops, n, u)
      ensures Lookup(es + SetOf(Stamp(ops, last + 1)), u, last + n) == Lookup(es, u, last)
    {
      UntoldIsSame(es, last, ops, n, u);
    }
  }

  lemma AllWritten(db: Db)
    requires Inv(db)
    ensures Written(AllEntries(db), db.lastSeq)
  {
  }

  lemma WriteIsRead(db: Db, ops: seq<Op>, db': Db)
    requires Inv(db) && WriteStep(db, ops, db')
    ensures ReadsItsWrites(AllEntries(db), db.lastSeq, ops, AllEntries(db'))
  {
    hide Inv, AllEntries, WriteStep, SetOf, Stamp, NewsAreTold, OthersAreKept, Written;
    AllWritten(db);
    WriteAdds(db, ops, db');
    LastAreTold(AllEntries(db), db.lastSeq, ops);
    UntoldAreSame(AllEntries(db), db.lastSeq, ops);
  }

  lemma SnapshotsKeepInv(db: Db, step: Step, db': Db)
    requires Inv(db) && Next(db, step, db') && (step.TakeSnapshot? || step.ReleaseSnapshot?)
    ensures Inv(db') && AllEntries(db') == AllEntries(db)
  {
    if step.TakeSnapshot? {
      AppendAscends(db.snapshots, db.lastSeq);
    } else {
      var i := step.index;
      CutAscends(db.snapshots, i, db'.snapshots);
    }
  }

  lemma AppendAscends(ss: seq<nat>, n: nat)
    requires Nondecreasing(ss) && forall s :: s in ss ==> s <= n
    ensures Nondecreasing(ss + [n])
    ensures forall s :: s in ss + [n] ==> s <= n
  {
    forall i, j | 0 <= i < j < |ss + [n]|
      ensures (ss + [n])[i] <= (ss + [n])[j]
    {
      assert ss[i] in ss;
    }
  }

  lemma CutAscends(ss: seq<nat>, k: nat, r: seq<nat>)
    requires Nondecreasing(ss) && k < |ss| && r == ss[..k] + ss[k + 1..]
    ensures Nondecreasing(r)
    ensures forall s :: s in r ==> s in ss
  {
    assert forall i :: 0 <= i < |r| ==> r[i] == ss[if i < k then i else i + 1];
  }

  // ---- Flushing a memtable ----

  lemma FlushedMembers(v: Levels, level: nat, f: File, v': Levels)
    requires level < |v| && Edited(v, {}, {(level, f)}, v')
    ensures VersionEntries(v') == VersionEntries(v) + SetOf(f.entries)
  {
    forall e | e in VersionEntries(v')
      ensures e in VersionEntries(v) + SetOf(f.entries)
    {
      var l, g := EntryWhere(v', e);
      if g in v[l] {
        EntryIn(v, l, g, e);
      }
    }
    forall e | e in VersionEntries(v)
      ensures e in VersionEntries(v')
    {
      var l, g := EntryWhere(v, e);
      EntryIn(v', l, g, e);
    }
    forall e | e in f.entries
      ensures e in VersionEntries(v')
    {
      EntryIn(v', level, f, e);
    }
  }

  /** The flushed table is newer than every file. */
  lemma FlushedIsNewest(v: Levels, f: File, l: nat, g: File)
    requires RunNewer(f.entries, VersionEntries(v))
    requires l < |v| && g in v[l]
    ensures Newer(f, g)
  {
    forall e, d | e in f.entries && d in g.entries && e.key.user == d.key.user
      ensures Less(e.key, d.key)
    {
      EntryIn(v, l, g, d);
    }
  }

  lemma ClearRangesShareNothing(f: File, g: File)
    requires FileOk(f) && FileOk(g)
    requires g.largest.user < f.smallest.user || f.largest.user < g.smallest.user
    ensures Newer(f, g) && Newer(g, f) && SortedApart(f, g)
  {
    forall e, d | e in f.entries && d in g.entries
      ensures e.key.user != d.key.user
    {
      FileCovers(f, e);
      FileCovers(g, d);
    }
  }

  lemma FlushKeepsLevel(v: Levels, level: nat, f: File, v': Levels, l: nat)
    requires WellFormed(v) && FileOk(f) && FlushLevelOk(v, level, f)
    requires Edited(v, {}, {(level, f)}, v') && l < |v'|
    ensures AllOk(v'[l]) && (l > 0 ==> Disjoint(v'[l]))
  {
    forall g | g in v'[l]
      ensures FileOk(g) && (g in v[l] || (l == level && g == f))
    {
    }
    if l > 0 {
      forall g, h | g in v'[l] && h in v'[l] && g != h
        ensures SortedApart(g, h)
      {
        if g in v[l] && h in v[l] {
          DisjointIsApart(v[l], g, h);
        } else {
          ClearRangesShareNothing(f, if g == f then h else g);
        }
      }
      ApartIsDisjoint(v'[l]);
    }
  }

  lemma FlushKeepsZero(v: Levels, next: nat, level: nat, f: File, v': Levels)
    requires |v| > 0 && LevelZeroOk(v[0]) && NumbersOk(v, next) && f.number == next
    requires forall g :: g in v[0] ==> Newer(f, g)
    requires level < |v| && Edited(v, {}, {(level, f)}, v')
    ensures LevelZeroOk(v'[0])
  {
    forall g | g in v'[0]
      ensures (g in v[0] && g.number < next) || g == f
    {
    }
    forall i, j | 0 <= i < j < |v'[0]|
      ensures v'[0][i].number != v'[0][j].number
    {
      var g, h := v'[0][i], v'[0][j];
      assert FileLess(g, h) && g in v'[0] && h in v'[0];
      assert g != f && h != f && g.number == h.number ==> ShareNumber(v, 0, g, 0, h);
    }
  }

  lemma FlushKeepsLayers(v: Levels, level: nat, f: File, v': Levels, i: nat, j: nat, g: File, h: File)
    requires WellFormed(v) && FileOk(f) && FlushLevelOk(v, level, f) && RunNewer(f.entries, VersionEntries(v))
    requires Edited(v, {}, {(level, f)}, v')
    requires i < j < |v'| && g in v'[i] && h in v'[j]
    ensures Newer(g, h)
  {
    hide Newer, SortedApart, RunNewer, VersionEntries;
    assert FileOk(g) by {
      hide Layered, LevelZeroOk, Disjoint;
      assert g in v[i] || g == f;
    }
    if h in v[j] {
      assert g in v[i] ==> Above(v, i, g, j, h);
      if g !in v[i] {
        FlushedIsNewest(v, f, j, h);
      }
    } else {
      ClearRangesShareNothing(f, g);
    }
  }

  lemma FlushKeepsWellFormed(v: Levels, next: nat, level: nat, f: File, v': Levels)
    requires WellFormed(v) && NumbersOk(v, next) && FileOk(f) && f.number == next
    requires RunNewer(f.entries, VersionEntries(v))
    requires FlushLevelOk(v, level, f) && Edited(v, {}, {(level, f)}, v')
    ensures WellFormed(v')
  {
    forall l | 0 <= l < |v'|
      ensures AllOk(v'[l]) && (l > 0 ==> Disjoint(v'[l]))
    {
      FlushKeepsLevel(v, level, f, v', l);
    }
    forall g | g in v[0]
      ensures Newer(f, g)
    {
      FlushedIsNewest(v, f, 0, g);
    }
    FlushKeepsZero(v, next, level, f, v');
    forall i, j, g, h | Above(v', i, g, j, h)
      ensures Newer(g, h)
    {
      FlushKeepsLayers(v, level, f, v', i, j, g, h);
    }
  }

  lemma FlushNumbers(v: Levels, next: nat, level: nat, f: File, v': Levels)
    requires NumbersOk(v, next) && f.number == next && level < |v| && Edited(v, {}, {(level, f)}, v')
    ensures NumbersOk(v', next + 1)
  {
    forall l, g | 0 <= l < |v'| && g in v'[l]
      ensures (g in v[l] && g.number < next) || (l == level && g == f)
    {
      assert g in v[l] || (l, g) in {(level, f)};
    }
    forall l, m, g, h | ShareNumber(v', l, g, m, h)
      ensures l == m && g == h
    {
      assert g in v[l] && h in v[m] ==> ShareNumber(v, l, g, m, h);
    }
  }

  lemma FlushKeepsInv(db: Db, level: nat, size: nat, db': Db)
    requires Inv(db) && FlushStep(db, level, size, db')
    ensures Inv(db') && AllEntries(db') == AllEntries(db)
  {
    hide WellFormed, AllOrdered, NumbersOk, VersionEntries, Edited, Sorted, RunNewer;
    if db.imm.run != [] {
      var f := Finish(db.imm.run, db.nextFile, size);
      FlushKeepsFiles(db.levels, db.nextFile, level, f, db'.levels);
      FlushedMembers(db.levels, level, f, db'.levels);
    } else {
      MoreNumbers(db.levels, db.nextFile);
    }
    assert AllEntries(db') == AllEntries(db);
    FlushKeepsMemory(db.mem, db.imm.run, VersionEntries(db.levels), VersionEntries(db'.levels));
  }

  lemma FlushKeepsFiles(v: Levels, next: nat, level: nat, f: File, v': Levels)
    requires FilesOk(v, next) && FileOk(f) && f.number == next
    requires RunNewer(f.entries, VersionEntries(v))
    requires FlushLevelOk(v, level, f) && Edited(v, {}, {(level, f)}, v')
    ensures FilesOk(v', next + 1)
  {
    FlushKeepsWellFormed(v, next, level, f, v');
    FlushNumbers(v, next, level, f, v');
  }

  lemma MoreNumbers(v: Levels, next: nat)
    requires NumbersOk(v, next)
    ensures NumbersOk(v, next + 1)
  {
  }

  lemma FlushKeepsMemory(mem: seq<Entry>, run: seq<Entry>, es: set<Entry>, es': set<Entry>)
    requires MemoryOk(mem, Frozen(run), es) && es' == es + SetOf(run)
    ensures MemoryOk(mem, NoFrozen, es')
  {
  }

  // ---- Compactions ----

  lemma PlannedIsGood(v: Levels, next: nat, level: nat, in0: seq<File>, in1: seq<File>, a: nat, lo: IKey, hi: IKey)
    requires WellFormed(v) && NumbersOk(v, next) && level + 1 < |v| && Planned(v, level, in0, in1, a, lo, hi)
    ensures InputsOf(v, level, in0, in1)
    ensures NothingOlderStays(v[level], in0) && LeavesGap(v[level + 1], in0, in1)
  {
    ChosenFromLevel(v, level, in0, a);
    OlderMovesFirst(v, level, in0, a);
    UnpickedLieApart(v, level, in0, in1, a, lo, hi);
    forall f | f in in1
      ensures f in v[level + 1]
    {
      OverlappingHolds(v[level + 1], At(lo.user), At(hi.user), f);
    }
  }

  lemma {:induction false} ContentsHolds(fs: seq<File>, e: Entry)
    ensures e in Contents(fs) <==> exists f :: f in fs && e in f.entries
  {
    if fs != [] {
      ContentsHolds(fs[..|fs| - 1], e);
      assert fs == fs[..|fs| - 1] + [fs[|fs| - 1]];
    }
  }

  lemma InstallKeepsInv(db: Db, level: nat, in0: seq<File>, in1: seq<File>, outs: seq<File>, db': Db)
    requires Inv(db) && GoodInstall(db.levels, level, in0, in1, outs)
    requires Installed(db.levels, level, in0, in1, outs, db'.levels)
    requires db' == db.(levels := db'.levels, nextFile := db'.nextFile)
    requires NumbersOk(db'.levels, db'.nextFile)
    ensures Inv(db')
  {
    InstallKeepsWellFormed(db.levels, db.nextFile, level, in0, in1, outs, db'.levels);
    InstallAddsNothing(db.levels, db.nextFile, level, in0, in1, outs, db'.levels);
    NewLevelsKeepInv(db, db');
  }

  lemma InstallAddsNothing(v: Levels, next: nat, level: nat, in0: seq<File>, in1: seq<File>, outs: seq<File>, v': Levels)
    requires NumbersOk(v, next) && InputsOf(v, level, in0, in1) && FromInputs(outs, in0, in1)
    requires Installed(v, level, in0, in1, outs, v')
    ensures VersionEntries(v') <= VersionEntries(v)
  {
    EntriesBefore(v, level, in0, in1);
    EntriesAfter(v, next, level, in0, in1, outs, v');
    forall e | e in FileEntries(outs)
      ensures e in FileEntries(in0 + in1)
    {
      var f :| f in outs && e in f.entries;
    }
  }

  lemma OutputNumbers(v: Levels, next: nat, level: nat, in0: seq<File>, in1: seq<File>, outs: seq<File>, v': Levels)
    requires NumbersOk(v, next) && InputsOf(v, level, in0, in1)
    requires Installed(v, level, in0, in1, outs, v') && NumberedFrom(outs, next)
    ensures NumbersOk(v', next + |outs|)
  {
    forall l, f | 0 <= l < |v'| && f in v'[l]
      ensures (f in v[l] && f.number < next) || (l == level + 1 && f in outs && next <= f.number < next + |outs|)
    {
      InstalledMembers(v, next, level, in0, in1, outs, v', l, f);
      NumberedOutput(outs, next, f);
    }
    forall l, m, f, g | ShareNumber(v', l, f, m, g)
      ensures l == m && f == g
    {
      if f in outs && g in outs {
        NumberedUnique(outs, next, f, g);
      }
      assert f in v[l] && g in v[m] ==> ShareNumber(v, l, f, m, g);
    }
  }

  lemma NumberedOutput(outs: seq<File>, next: nat, f: File)
    requires NumberedFrom(outs, next)
    ensures f in outs ==> next <= f.number < next + |outs|
  {
  }

  lemma NumberedUnique(outs: seq<File>, next: nat, f: File, g: File)
    requires NumberedFrom(outs, next) && f in outs && g in outs && f.number == g.number
    ensures f == g
  {
    var i :| 0 <= i < |outs| && outs[i] == f;
    var j :| 0 <= j < |outs| && outs[j] == g;
  }

  /** What a compaction leaves alone, wherever it lives. */
  ghost function Rest(db: Db, level: nat, in0: seq<File>, in1: seq<File>): set<Entry> {
    SetOf(db.mem) + ImmEntries(db) + Untouched(db.levels, level, in0, in1)
  }

  lemma KeptAreInputs(in0: seq<File>, in1: seq<File>, input: seq<Entry>, snap: nat, v: Levels, level: nat, outs: seq<File>)
    requires SetOf(input) == FileEntries(in0 + in1) && Contents(outs) == Kept(input, snap, v, level, |input|)
    ensures FromInputs(outs, in0, in1)
    ensures FileEntries(outs) == SetOf(Kept(input, snap, v, level, |input|))
  {
    var kept := Kept(input, snap, v, level, |input|);
    forall e
      ensures e in FileEntries(outs) <==> e in SetOf(kept)
    {
      ContentsHolds(outs, e);
    }
    KeptSubset(input, snap, v, level);
    forall f, e | f in outs && e in f.entries
      ensures exists g :: g in in0 + in1 && e in g.entries
    {
      assert e in FileEntries(outs) && e in SetOf(kept) && e in FileEntries(in0 + in1);
    }
  }

  lemma CompactIsGood(v: Levels, next: nat, level: nat, in0: seq<File>, in1: seq<File>, input: seq<Entry>, snap: nat,
                      outs: seq<File>)
    requires WellFormed(v) && NumbersOk(v, next) && level + 1 < |v|
    requires exists a, lo, hi :: Planned(v, level, in0, in1, a, lo, hi)
    requires SetOf(input) == FileEntries(in0 + in1) && Contents(outs) == Kept(input, snap, v, level, |input|)
    requires AllOk(outs) && Disjoint(outs)
    ensures GoodInstall(v, level, in0, in1, outs)
  {
    var a: nat, lo, hi :| Planned(v, level, in0, in1, a, lo, hi);
    PlannedIsGood(v, next, level, in0, in1, a, lo, hi);
    KeptAreInputs(in0, in1, input, snap, v, level, outs);
  }

  lemma CompactSets(db: Db, level: nat, in0: seq<File>, in1: seq<File>, input: seq<Entry>, snap: nat,
                    outs: seq<File>, db': Db)
    requires NumbersOk(db.levels, db.nextFile) && InputsOf(db.levels, level, in0, in1)
    requires CompactStep(db, level, in0, in1, input, snap, outs, db')
    ensures AllEntries(db) == SetOf(input) + Rest(db, level, in0, in1)
    ensures AllEntries(db') == SetOf(Kept(input, snap, db.levels, level, |input|)) + Rest(db, level, in0, in1)
  {
    KeptAreInputs(in0, in1, input, snap, db.levels, level, outs);
    EntriesBefore(db.levels, level, in0, in1);
    EntriesAfter(db.levels, db.nextFile, level, in0, in1, outs, db'.levels);
  }

  lemma CompactKeepsInv(db: Db, level: nat, in0: seq<File>, in1: seq<File>, input: seq<Entry>, snap: nat,
                        outs: seq<File>, db': Db)
    requires Inv(db) && CompactStep(db, level, in0, in1, input, snap, outs, db')
    ensures Inv(db')
  {
    CompactIsGood(db.levels, db.nextFile, level, in0, in1, input, snap, outs);
    OutputNumbers(db.levels, db.nextFile, level, in0, in1, outs, db'.levels);
    InstallKeepsInv(db, level, in0, in1, outs, db');
  }

  /** A compaction changes no read from `snap` on exactly when it exposes nothing. */
  lemma CompactReadsIff(db: Db, level: nat, in0: seq<File>, in1: seq<File>, input: seq<Entry>, snap: nat,
                        outs: seq<File>, db': Db)
    requires Inv(db) && CompactStep(db, level, in0, in1, input, snap, outs, db')
    ensures SameReads(AllEntries(db), AllEntries(db'), snap)
            <==> NothingExposed(input, Rest(db, level, in0, in1), snap, db.levels, level)
  {
    hide SameReads, NothingExposed, Rest, AllEntries, Planned, WellFormed, Kept, Contents, Installed, Sorted, Less;
    CompactIsGood(db.levels, db.nextFile, level, in0, in1, input, snap, outs);
    CompactSets(db, level, in0, in1, input, snap, outs, db');
    AllKeysDistinct(db);
    forall e | e in input
      ensures Parses(e.key)
    {
      assert e in AllEntries(db);
    }
    assert Unparsed(input) == {};
    assert Rest(db, level, in0, in1) + Unparsed(input) == Rest(db, level, in0, in1);
    ReadsPreservedIff(input, Rest(db, level, in0, in1), snap, db.levels, level);
  }

  /** The guard the code applies to the input level but not to the output level. */
  ghost predicate NextLevelClosed(v: Levels, level: nat, in1: seq<File>)
    requires level + 1 < |v|
  {
    in1 == [] || NoBoundaryLeft(v[level + 1], in1)
  }

  /** With that guard, nothing older than a dropped marker is left anywhere. */
  lemma ClosedExposesNothing(db: Db, level: nat, in0: seq<File>, in1: seq<File>, input: seq<Entry>, snap: nat)
    requires Inv(db) && CompactionOf(db, level, in0, in1, input)
    requires NextLevelClosed(db.levels, level, in1)
    ensures NothingExposed(input, Rest(db, level, in0, in1), snap, db.levels, level)
  {
    hide Planned, WellFormed, Sorted, NextLevelClosed, NumbersOk, MemoryOk;
    forall i, r | 0 <= i < |input| && ObsoleteMarker(input, snap, db.levels, level, i)
                  && r in Rest(db, level, in0, in1) && r.key.user == input[i].key.user
      ensures Less(r.key, input[i].key)
    {
      assert input[i] in SetOf(input);
      RestIsNewer(db.levels, db.nextFile, db.mem, db.imm, level, in0, in1, input[i], r);
    }
  }

  lemma RestIsNewer(v: Levels, next: nat, mem: seq<Entry>, imm: Frozen, level: nat, in0: seq<File>, in1: seq<File>,
                    d: Entry, r: Entry)
    requires WellFormed(v) && NumbersOk(v, next) && MemoryOk(mem, imm, VersionEntries(v)) && level + 1 < |v|
    requires exists a, lo, hi :: Planned(v, level, in0, in1, a, lo, hi)
    requires NextLevelClosed(v, level, in1) && BaseLevel(v, level, d.key.user)
    requires d in FileEntries(in0 + in1) && r.key.user == d.key.user
    requires r in mem || (imm.Frozen? && r in imm.run) || r in Untouched(v, level, in0, in1)
    ensures Less(r.key, d.key)
  {
    var a: nat, lo, hi :| Planned(v, level, in0, in1, a, lo, hi);
    PlannedIsGood(v, next, level, in0, in1, a, lo, hi);
    EntriesBefore(v, level, in0, in1);
    if r in Untouched(v, level, in0, in1) {
      var g :| g in in0 + in1 && d in g.entries;
      UntouchedIsNewer(v, level, in0, in1, a, lo, hi, g, d, r);
    }
  }

  lemma UntouchedIsNewer(v: Levels, level: nat, in0: seq<File>, in1: seq<File>, a: nat, lo: IKey, hi: IKey,
                         g: File, d: Entry, r: Entry)
    requires WellFormed(v) && level + 1 < |v| && Planned(v, level, in0, in1, a, lo, hi)
    requires InputsOf(v, level, in0, in1) && NothingOlderStays(v[level], in0)
    requires NextLevelClosed(v, level, in1) && BaseLevel(v, level, d.key.user)
    requires g in in0 + in1 && d in g.entries
    requires r in Untouched(v, level, in0, in1) && r.key.user == d.key.user
    ensures Less(r.key, d.key)
  {
    hide Less, Planned, NextLevelClosed, Disjoint, LevelZeroOk, BaseLevel;
    var l, f := UntouchedWhere(v, level, in0, in1, r);
    NotBelow(v, level, l, f, r);
    if l == level + 1 {
      NextLevelHoldsNoOlder(v, level, in0, in1, a, lo, hi, g, d, f, r);
    } else {
      assert g in in0 || g in in1;
      assert g in in1 || l < level ==> Above(v, l, f, if g in in1 then level + 1 else level, g);
      assert Newer(f, g);
    }
  }

  lemma NotBelow(v: Levels, level: nat, l: nat, f: File, r: Entry)
    requires BaseLevel(v, level, r.key.user) && l < |v| && f in v[l] && FileOk(f) && r in f.entries
    ensures l <= level + 1
  {
    FileCovers(f, r);
  }

  /** An unpicked output-level file that shares the marker's user key comes before it. */
  lemma NextLevelHoldsNoOlder(v: Levels, level: nat, in0: seq<File>, in1: seq<File>, a: nat, lo: IKey, hi: IKey,
                              g: File, d: Entry, f: File, r: Entry)
    requires WellFormed(v) && level + 1 < |v| && Planned(v, level, in0, in1, a, lo, hi)
    requires InputsOf(v, level, in0, in1) && NextLevelClosed(v, level, in1)
    requires g in in0 + in1 && d in g.entries
    requires f in v[level + 1] && f !in in1 && r in f.entries && r.key.user == d.key.user
    ensures Less(r.key, d.key)
  {
    OverlappingHolds(v[level + 1], At(lo.user), At(hi.user), f);
    FileCovers(f, r);
    if g in in1 {
      NextLevelNeighbour(v[level + 1], in1, lo, hi, g, d, f, r);
    } else {
      assert g in in0 && FileOk(g);
      FileCovers(g, d);
    }
  }

  /** Two files of the sorted output level, one picked and one not, sharing a user key. */
  lemma NextLevelNeighbour(fs: seq<File>, in1: seq<File>, lo: IKey, hi: IKey, g: File, d: Entry, f: File, r: Entry)
    requires AllOk(fs) && Disjoint(fs) && in1 == Overlapping(fs, At(lo.user), At(hi.user)) && NoBoundaryLeft(fs, in1)
    requires g in in1 && d in g.entries && f in fs && f !in in1 && r in f.entries && r.key.user == d.key.user
    ensures Less(r.key, d.key)
  {
    var k :| IsLargest(in1, k) && forall h :: h in fs ==> !Boundary(h, k);
    var h :| h in in1 && h.largest == k;
    OverlappingHolds(fs, At(lo.user), At(hi.user), f);
    OverlappingHolds(fs, At(lo.user), At(hi.user), g);
    OverlappingHolds(fs, At(lo.user), At(hi.user), h);
    FileCovers(f, r);
    FileCovers(g, d);
    DisjointIsApart(fs, f, g);
    DisjointIsApart(fs, f, h);
    assert !Boundary(f, k);
  }

  // ---- Moving a file down ----

  lemma MoveIsGood(v: Levels, next: nat, level: nat, f: File)
    requires WellFormed(v) && NumbersOk(v, next) && level + 1 < |v|
    requires exists a, lo, hi :: Planned(v, level, [f], [], a, lo, hi)
    ensures GoodInstall(v, level, [f], [], [f])
  {
    hide Planned, Layered, LevelZeroOk, NothingOlderStays, LeavesGap;
    var a: nat, lo, hi :| Planned(v, level, [f], [], a, lo, hi);
    PlannedIsGood(v, next, level, [f], [], a, lo, hi);
    assert f in [f];
    assert [f] + [] == [f];
  }

  lemma MoveNumbers(v: Levels, next: nat, level: nat, f: File, v': Levels)
    requires NumbersOk(v, next) && InputsOf(v, level, [f], []) && Installed(v, level, [f], [], [f], v')
    ensures NumbersOk(v', next)
  {
    assert f in [f];
    forall l, g | 0 <= l < |v'| && g in v'[l]
      ensures (g in v[l] && !(l == level && g == f)) || (l == level + 1 && g == f)
    {
      InstalledMembers(v, next, level, [f], [], [f], v', l, g);
    }
    forall l, m, g, h | ShareNumber(v', l, g, m, h)
      ensures l == m && g == h
    {
      assert g in v[l] && h in v[m] ==> ShareNumber(v, l, g, m, h);
      assert g == f && h in v[m] ==> ShareNumber(v, level, f, m, h);
      assert h == f && g in v[l] ==> ShareNumber(v, l, g, level, f);
    }
  }

  lemma MoveKeepsInv(db: Db, level: nat, f: File, db': Db)
    requires Inv(db) && MoveStep(db, level, f, db')
    ensures Inv(db') && AllEntries(db') == AllEntries(db)
  {
    hide Planned, WellFormed, AllOrdered, NumbersOk, MemoryOk, CountersOk, Installed, VersionEntries;
    hide NothingOlderStays, LeavesGap, FromInputs, Disjoint;
    MoveIsGood(db.levels, db.nextFile, level, f);
    MoveNumbers(db.levels, db.nextFile, level, f, db'.levels);
    InstallKeepsInv(db, level, [f], [], [f], db');
    MoveKeepsEntries(db.levels, db.nextFile, level, f, db'.levels);
  }

  lemma MoveKeepsEntries(v: Levels, next: nat, level: nat, f: File, v': Levels)
    requires NumbersOk(v, next) && InputsOf(v, level, [f], []) && Installed(v, level, [f], [], [f], v')
    ensures VersionEntries(v') == VersionEntries(v)
  {
    EntriesBefore(v, level, [f], []);
    EntriesAfter(v, next, level, [f], [], [f], v');
    assert [f] + [] == [f];
  }

  // ---- Whole runs ----

  lemma FreezeKeepsInv(db: Db, db': Db)
    requires Inv(db) && Next(db, Freeze, db')
    ensures Inv(db') && AllEntries(db') == AllEntries(db)
  {
  }

  lemma StepKeepsInv(db: Db, step: Step, db': Db)
    requires Inv(db) && Next(db, step, db')
    ensures Inv(db')
  {
    match step {
      case Write(ops) => WriteKeepsInv(db, ops, db');
      case Freeze => FreezeKeepsInv(db, db');
      case Flush(level, size) => FlushKeepsInv(db, level, size, db');
      case Compact(level, in0, in1, input, snap, outs) => CompactKeepsInv(db, level, in0, in1, input, snap, outs, db');
      case Move(level, f) => MoveKeepsInv(db, level, f, db');
      case TakeSnapshot => SnapshotsKeepInv(db, step, db');
      case ReleaseSnapshot(_) => SnapshotsKeepInv(db, step, db');
    }
  }

  /** No compaction leaves a boundary file behind on its output level. */
  ghost predicate ClosedStep(db: Db, step: Step) {
    step.Compact? && step.level + 1 < |db.levels| ==> NextLevelClosed(db.levels, step.level, step.in1)
  }

  /** A compaction drops no marker above something a read would then report. */
  ghost predicate SafeStep(db: Db, step: Step) {
    step.Compact? ==>
      NothingExposed(step.input, Rest(db, step.level, step.in0, step.in1), step.snap, db.levels, step.level)
  }

  lemma ClosedIsSafe(db: Db, step: Step, db': Db)
    requires Inv(db) && Next(db, step, db') && ClosedStep(db, step)
    ensures SafeStep(db, step)
  {
    hide NothingExposed, Inv;
    match step {
      case Compact(level, in0, in1, input, snap, outs) => ClosedExposesNothing(db, level, in0, in1, input, snap);
      case _ =>
    }
  }

  /** One step and one sequence number that is still readable. */
  lemma StepKeepsReads(db: Db, step: Step, db': Db, u: int, s: nat)
    requires Inv(db) && Next(db, step, db') && SafeStep(db, step)
    requires SmallestSnapshot(db) <= s <= db.lastSeq
    ensures Lookup(AllEntries(db'), u, s) == Lookup(AllEntries(db), u, s)
  {
    hide Inv, AllEntries, Lookup, NothingExposed, WriteStep, FlushStep, MoveStep;
    match step {
      case Write(ops) => WriteKeepsInv(db, ops, db');
      case Freeze => FreezeKeepsInv(db, db');
      case Flush(level, size) => FlushKeepsInv(db, level, size, db');
      case Compact(level, in0, in1, input, snap, outs) => CompactReadsIff(db, level, in0, in1, input, snap, outs, db');
      case Move(level, f) => MoveKeepsInv(db, level, f, db');
      case TakeSnapshot => SnapshotsKeepInv(db, step, db');
      case ReleaseSnapshot(_) => SnapshotsKeepInv(db, step, db');
    }
  }

  ghost predicate Execution(dbs: seq<Db>, steps: seq<Step>) {
    && |dbs| == |steps| + 1 && Inv(dbs[0])
    && forall i :: 0 <= i < |steps| ==> Next(dbs[i], steps[i], dbs[i + 1])
  }

  function EmptyDb(): Db {
    Db([], NoFrozen, seq(NUM_LEVELS, _ => []), 0, 2, [])
  }

  lemma EmptyIsOk()
    ensures Inv(EmptyDb())
  {
  }

  lemma {:induction false} RunKeepsInv(dbs: seq<Db>, steps: seq<Step>, n: nat)
    requires Execution(dbs, steps) && n < |dbs|
    ensures Inv(dbs[n])
  {
    if n > 0 {
      RunKeepsInv(dbs, steps, n - 1);
      StepKeepsInv(dbs[n - 1], steps[n - 1], dbs[n]);
    }
  }

  lemma HeldIsReadable(db: Db, s: nat)
    requires Inv(db) && s in db.snapshots
    ensures SmallestSnapshot(db) <= s <= db.lastSeq
  {
    SmallestIsLeast(db);
  }

  /** A snapshot held throughout a run whose compactions expose nothing reads the same at its end as at its start. */
  lemma {:induction false} HeldSnapshotIsStable(dbs: seq<Db>, steps: seq<Step>, n: nat, u: int, s: nat)
    requires Execution(dbs, steps) && n < |dbs|
    requires forall i :: 0 <= i < |steps| ==> SafeStep(dbs[i], steps[i])
    requires forall i :: 0 <= i < |dbs| ==> s in dbs[i].snapshots
    ensures Lookup(AllEntries(dbs[n]), u, s) == Lookup(AllEntries(dbs[0]), u, s)
  {
    hide Next, SafeStep, Inv, Lookup, AllEntries;
    if n > 0 {
      HeldSnapshotIsStable(dbs, steps, n - 1, u, s);
      RunKeepsInv(dbs, steps, n - 1);
      HeldIsReadable(dbs[n - 1], s);
      StepKeepsReads(dbs[n - 1], steps[n - 1], dbs[n], u, s);
    }
  }

  /** So it does where no compaction leaves a boundary file behind. */
  lemma ClosedRunIsStable(dbs: seq<Db>, steps: seq<Step>, n: nat, u: int, s: nat)
    requires Execution(dbs, steps) && n < |dbs|
    requires forall i :: 0 <= i < |steps| ==> ClosedStep(dbs[i], steps[i])
    requires forall i :: 0 <= i < |dbs| ==> s in dbs[i].snapshots
    ensures Lookup(AllEntries(dbs[n]), u, s) == Lookup(AllEntries(dbs[0]), u, s)
  {
    hide Next, SafeStep, ClosedStep, Inv, Lookup, AllEntries;
    forall i | 0 <= i < |steps|
      ensures SafeStep(dbs[i], steps[i])
    {
      RunKeepsInv(dbs, steps, i);
      ClosedIsSafe(dbs[i], steps[i], dbs[i + 1]);
    }
    HeldSnapshotIsStable(dbs, steps, n, u, s);
  }
}
