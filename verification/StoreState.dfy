/**
 The whole store as one value, the invariant its operations keep, and what replacing
 files does to it (db/db_impl.cc, db/version_set.cc, db/snapshot.h).
 */
module StoreState {
  import opened Entries
  import opened Versions
  import opened CompactionInputs
  import opened CompactionSetup
  import opened CompactionPass
  import opened VersionBuilder

  datatype Frozen = NoFrozen | Frozen(run: seq<Entry>)

  /** Live memtable, memtable being flushed, current version, and the counters. */
  datatype Db = Db(mem: seq<Entry>, imm: Frozen, levels: Levels, lastSeq: nat, nextFile: nat, snapshots: seq<nat>)

  ghost function ImmEntries(db: Db): set<Entry> {
    if db.imm.Frozen? then SetOf(db.imm.run) else {}
  }

  ghost function AllEntries(db: Db): set<Entry> {
    SetOf(db.mem) + ImmEntries(db) + VersionEntries(db.levels)
  }

  ghost predicate RunNewer(run: seq<Entry>, es: set<Entry>) {
    forall e, d :: e in run && d in es && e.key.user == d.key.user ==> Less(e.key, d.key)
  }

  ghost predicate ShareNumber(v: Levels, l: int, f: File, m: int, g: File) {
    0 <= l < |v| && 0 <= m < |v| && f in v[l] && g in v[m] && f.number == g.number
  }

  /** File numbers name files, and all were handed out before `next`. */
  ghost predicate NumbersOk(v: Levels, next: nat) {
    && (forall l, f :: 0 <= l < |v| && f in v[l] ==> f.number < next)
    && (forall l, m, f, g :: ShareNumber(v, l, f, m, g) ==> l == m && f == g)
  }

  ghost predicate AllOrdered(v: Levels) {
    forall l :: 0 <= l < |v| ==> Ordered(v[l])
  }

  ghost predicate Nondecreasing(ss: seq<nat>) {
    forall i, j :: 0 <= i < j < |ss| ==> ss[i] <= ss[j]
  }

  ghost predicate Written(es: set<Entry>, last: nat) {
    forall e :: e in es ==> Parses(e.key) && e.key.seqno <= last
  }

  ghost predicate FilesOk(v: Levels, next: nat) {
    WellFormed(v) && AllOrdered(v) && NumbersOk(v, next)
  }

  /** Memtables are sorted, and newer than what lies beneath them. */
  ghost predicate MemoryOk(mem: seq<Entry>, imm: Frozen, es: set<Entry>) {
    && Sorted(mem) && RunNewer(mem, es)
    && (imm.Frozen? ==> Sorted(imm.run) && RunNewer(imm.run, es) && RunNewer(mem, SetOf(imm.run)))
  }

  ghost predicate CountersOk(es: set<Entry>, last: nat, snapshots: seq<nat>) {
    && Written(es, last) && last < MAX_SEQUENCE
    && Nondecreasing(snapshots) && (forall s :: s in snapshots ==> s <= last)
  }

  ghost predicate Inv(db: Db) {
    && FilesOk(db.levels, db.nextFile)
    && MemoryOk(db.mem, db.imm, VersionEntries(db.levels))
    && CountersOk(AllEntries(db), db.lastSeq, db.snapshots)
  }

  /** New levels that add no entry keep the rest of the invariant. */
  lemma NewLevelsKeepInv(db: Db, db': Db)
    requires Inv(db) && FilesOk(db'.levels, db'.nextFile)
    requires db' == db.(levels := db'.levels, nextFile := db'.nextFile)
    requires VersionEntries(db'.levels) <= VersionEntries(db.levels)
    ensures Inv(db')
  {
    assert AllEntries(db') <= AllEntries(db);
  }

  /** The sequence number below which nobody reads any more. */
  function SmallestSnapshot(db: Db): nat {
    if db.snapshots == [] then db.lastSeq else db.snapshots[0]
  }

  lemma SmallestIsLeast(db: Db)
    requires Inv(db)
    ensures SmallestSnapshot(db) <= db.lastSeq
    ensures forall s :: s in db.snapshots ==> SmallestSnapshot(db) <= s
  {
    if db.snapshots != [] {
      assert db.snapshots[0] in db.snapshots;
    }
  }

  // ---- Distinct keys ----

  lemma SameLevelApart(fs: seq<File>, zero: bool, f: File, g: File, e: Entry, d: Entry)
    requires AllOk(fs) && (if zero then LevelZeroOk(fs) else Disjoint(fs))
    requires f in fs && g in fs && e in f.entries && d in g.entries && e.key == d.key
    ensures f == g
  {
    if f != g {
      if zero {
        SameNumber(fs, f, g);
      } else {
        DisjointIsApart(fs, f, g);
        FileCovers(f, e);
        FileCovers(g, d);
      }
    }
  }

  lemma FilesApart(v: Levels, l: nat, m: nat, f: File, g: File, e: Entry, d: Entry)
    requires WellFormed(v) && l < |v| && m < |v| && f in v[l] && g in v[m]
    requires e in f.entries && d in g.entries && e.key == d.key
    ensures l == m && f == g
  {
    assert l < m ==> Above(v, l, f, m, g);
    assert m < l ==> Above(v, m, g, l, f);
    SameLevelApart(v[l], l == 0, f, g, e, d);
  }

  lemma SameKeySameEntry(f: File, e: Entry, d: Entry)
    requires FileOk(f) && e in f.entries && d in f.entries && e.key == d.key
    ensures e == d
  {
  }

  lemma VersionKeysDistinct(v: Levels)
    requires WellFormed(v)
    ensures KeysDistinct(VersionEntries(v))
  {
    forall e, d | e in VersionEntries(v) && d in VersionEntries(v) && e.key == d.key
      ensures e == d
    {
      var l, f := EntryWhere(v, e);
      var m, g := EntryWhere(v, d);
      FilesApart(v, l, m, f, g, e, d);
      SameKeySameEntry(f, e, d);
    }
  }

  lemma UnionDistinct(a: set<Entry>, b: set<Entry>)
    requires KeysDistinct(a) && KeysDistinct(b)
    requires forall e, d :: e in a && d in b && e.key.user == d.key.user ==> Less(e.key, d.key)
    ensures KeysDistinct(a + b)
  {
  }

  lemma AllKeysDistinct(db: Db)
    requires Inv(db)
    ensures KeysDistinct(AllEntries(db))
  {
    VersionKeysDistinct(db.levels);
    SortedIsDistinct(db.mem);
    if db.imm.Frozen? {
      SortedIsDistinct(db.imm.run);
      UnionDistinct(SetOf(db.mem), SetOf(db.imm.run));
      UnionDistinct(SetOf(db.mem) + SetOf(db.imm.run), VersionEntries(db.levels));
    } else {
      UnionDistinct(SetOf(db.mem), VersionEntries(db.levels));
      assert SetOf(db.mem) + VersionEntries(db.levels) == AllEntries(db);
    }
  }

  // ---- Replacing files ----

  /** The levels after an edit: what was not deleted, plus what was added. */
  ghost predicate Edited(v: Levels, del: set<(nat, nat)>, add: set<(nat, File)>, v': Levels) {
    && |v'| == |v| && AllOrdered(v')
    && forall l, f :: 0 <= l < |v| ==> (f in v'[l] <==> (f in v[l] && (l, f.number) !in del) || (l, f) in add)
  }

  ghost function Deletions(level: nat, in0: seq<File>, in1: seq<File>): set<(nat, nat)> {
    (set f | f in in0 :: (level, f.number)) + (set f | f in in1 :: (level + 1, f.number))
  }

  ghost function Additions(level: nat, outs: seq<File>): set<(nat, File)> {
    set f | f in outs :: (level, f)
  }

  /** A compaction's effect on the levels. */
  ghost predicate Installed(v: Levels, level: nat, in0: seq<File>, in1: seq<File>, outs: seq<File>, v': Levels) {
    Edited(v, Deletions(level, in0, in1), Additions(level + 1, outs), v')
  }

  ghost predicate InputsOf(v: Levels, level: nat, in0: seq<File>, in1: seq<File>) {
    && level + 1 < |v|
    && (forall f :: f in in0 ==> f in v[level])
    && (forall f :: f in in1 ==> f in v[level + 1])
  }

  /** With unique numbers, deleting by number deletes exactly the inputs. */
  lemma InstalledMembers(v: Levels, next: nat, level: nat, in0: seq<File>, in1: seq<File>, outs: seq<File>, v': Levels,
                         l: nat, f: File)
    requires NumbersOk(v, next) && InputsOf(v, level, in0, in1) && Installed(v, level, in0, in1, outs, v')
    requires l < |v|
    ensures f in v'[l] <==>
              || (f in v[l] && !(l == level && f in in0) && !(l == level + 1 && f in in1))
              || (l == level + 1 && f in outs)
  {
    if f in v[l] {
      if (l, f.number) in Deletions(level, in0, in1) {
        if l == level {
          var g :| g in in0 && g.number == f.number;
          assert ShareNumber(v, l, f, level, g);
        } else {
          var g :| g in in1 && g.number == f.number;
          assert ShareNumber(v, l, f, level + 1, g);
        }
      }
    }
  }

  /** Outputs hold only entries of the inputs. */
  ghost predicate FromInputs(outs: seq<File>, in0: seq<File>, in1: seq<File>) {
    forall f, e :: f in outs && e in f.entries ==> exists g :: g in in0 + in1 && e in g.entries
  }

  /** Whatever is newer than every input is newer than the outputs. */
  lemma NewerThanOutputs(f: File, out: File, outs: seq<File>, in0: seq<File>, in1: seq<File>)
    requires FromInputs(outs, in0, in1) && out in outs
    requires forall g :: g in in0 + in1 ==> Newer(f, g)
    ensures Newer(f, out)
  {
    forall e, d | e in f.entries && d in out.entries && e.key.user == d.key.user
      ensures Less(e.key, d.key)
    {
      var g :| g in in0 + in1 && d in g.entries;
    }
  }

  lemma OutputsNewerThan(f: File, out: File, outs: seq<File>, in0: seq<File>, in1: seq<File>)
    requires FromInputs(outs, in0, in1) && out in outs
    requires forall g :: g in in0 + in1 ==> Newer(g, f)
    ensures Newer(out, f)
  {
    forall e, d | e in out.entries && d in f.entries && e.key.user == d.key.user
      ensures Less(e.key, d.key)
    {
      var g :| g in in0 + in1 && e in g.entries;
    }
  }

  ghost predicate SortedApart(f: File, g: File) {
    Less(f.largest, g.smallest) || Less(g.largest, f.smallest)
  }

  lemma ApartIsDisjoint(fs: seq<File>)
    requires AllOk(fs) && Ordered(fs)
    requires forall f, g :: f in fs && g in fs && f != g ==> SortedApart(f, g)
    ensures Disjoint(fs)
  {
    forall i, j | 0 <= i < j < |fs|
      ensures Less(fs[i].largest, fs[j].smallest)
    {
      assert FileLess(fs[i], fs[j]);
      assert fs[i] in fs && fs[j] in fs;
      FileCovers(fs[i], fs[i].entries[0]);
      FileCovers(fs[j], fs[j].entries[0]);
      assert SortedApart(fs[i], fs[j]);
    }
  }

  lemma DisjointIsApart(fs: seq<File>, f: File, g: File)
    requires Disjoint(fs) && f in fs && g in fs && f != g
    ensures SortedApart(f, g)
  {
    var i :| 0 <= i < |fs| && fs[i] == f;
    var j :| 0 <= j < |fs| && fs[j] == g;
    assert i < j || j < i;
  }

  /** An unpicked file of the output level lies clear of every output. */
  lemma UnpickedClearOfOutputs(fs: seq<File>, in0: seq<File>, in1: seq<File>, outs: seq<File>, g: File, out: File)
    requires AllOk(in0) && AllOk(in1) && AllOk(outs) && LeavesGap(fs, in0, in1) && FromInputs(outs, in0, in1)
    requires g in fs && g !in in1 && out in outs
    ensures SortedApart(g, out)
  {
    var first, last := out.entries[0], out.entries[|out.entries| - 1];
    assert first in out.entries && last in out.entries;
    var a :| a in in0 + in1 && first in a.entries;
    var b :| b in in0 + in1 && last in b.entries;
    assert a in in0 || a in in1;
    assert b in in0 || b in in1;
    FileCovers(a, first);
    FileCovers(b, last);
  }

  /** The edit of a compaction, as the store installs it. */
  ghost predicate GoodInstall(v: Levels, level: nat, in0: seq<File>, in1: seq<File>, outs: seq<File>) {
    && InputsOf(v, level, in0, in1)
    && NothingOlderStays(v[level], in0) && LeavesGap(v[level + 1], in0, in1)
    && AllOk(outs) && Disjoint(outs) && FromInputs(outs, in0, in1)
  }

  lemma InstallKeepsDisjoint(v: Levels, next: nat, level: nat, in0: seq<File>, in1: seq<File>, outs: seq<File>, v': Levels, l: nat)
    requires WellFormed(v) && NumbersOk(v, next) && GoodInstall(v, level, in0, in1, outs)
    requires Installed(v, level, in0, in1, outs, v') && l < |v|
    ensures AllOk(v'[l]) && (l > 0 ==> Disjoint(v'[l]))
  {
    forall f | f in v'[l]
      ensures FileOk(f)
      ensures (f in v[l] && (l == level + 1 ==> f !in in1)) || (l == level + 1 && f in outs)
    {
      InstalledMembers(v, next, level, in0, in1, outs, v', l, f);
    }
    if l > 0 {
      forall f, g | f in v'[l] && g in v'[l] && f != g
        ensures SortedApart(f, g)
      {
        if f in v[l] && g in v[l] {
          DisjointIsApart(v[l], f, g);
        } else if f in outs && g in outs {
          DisjointIsApart(outs, f, g);
        } else if f in outs {
          UnpickedClearOfOutputs(v[l], in0, in1, outs, g, f);
        } else {
          UnpickedClearOfOutputs(v[l], in0, in1, outs, f, g);
        }
      }
      ApartIsDisjoint(v'[l]);
    }
  }

  lemma InstallKeepsLayers(v: Levels, next: nat, level: nat, in0: seq<File>, in1: seq<File>, outs: seq<File>, v': Levels,
                           i: nat, j: nat, f: File, g: File)
    requires WellFormed(v) && NumbersOk(v, next) && GoodInstall(v, level, in0, in1, outs)
    requires Installed(v, level, in0, in1, outs, v')
    requires i < j < |v| && f in v'[i] && g in v'[j]
    ensures Newer(f, g)
  {
    InstalledMembers(v, next, level, in0, in1, outs, v', i, f);
    InstalledMembers(v, next, level, in0, in1, outs, v', j, g);
    if i == level + 1 && f in outs {
      forall h | h in in0 + in1
        ensures Newer(h, g)
      {
        assert h in in0 || h in in1;
        assert Above(v, if h in in0 then level else level + 1, h, j, g);
      }
      OutputsNewerThan(g, f, outs, in0, in1);
    } else if j == level + 1 && g in outs {
      forall h | h in in0 + in1
        ensures Newer(f, h)
      {
        assert h in in0 || h in in1;
        assert i < level ==> h in in0 ==> Above(v, i, f, level, h);
        assert h in in1 ==> Above(v, i, f, level + 1, h);
      }
      NewerThanOutputs(f, g, outs, in0, in1);
    } else {
      assert Above(v, i, f, j, g);
    }
  }

  lemma InstallKeepsZero(v: Levels, next: nat, level: nat, in0: seq<File>, in1: seq<File>, outs: seq<File>, v': Levels)
    requires WellFormed(v) && NumbersOk(v, next) && InputsOf(v, level, in0, in1)
    requires Installed(v, level, in0, in1, outs, v')
    ensures LevelZeroOk(v'[0])
  {
    forall f | f in v'[0]
      ensures f in v[0]
    {
      InstalledMembers(v, next, level, in0, in1, outs, v', 0, f);
    }
    forall i, j | 0 <= i < j < |v'[0]|
      ensures v'[0][i].number != v'[0][j].number
    {
      var f, g := v'[0][i], v'[0][j];
      assert FileLess(f, g) && f in v'[0] && g in v'[0];
      assert f.number == g.number ==> ShareNumber(v, 0, f, 0, g);
    }
  }

  /** Installing a compaction on its input version keeps every level and layer in order. */
  lemma InstallKeepsWellFormed(v: Levels, next: nat, level: nat, in0: seq<File>, in1: seq<File>, outs: seq<File>, v': Levels)
    requires WellFormed(v) && NumbersOk(v, next) && GoodInstall(v, level, in0, in1, outs)
    requires Installed(v, level, in0, in1, outs, v')
    ensures WellFormed(v')
  {
    forall l | 0 <= l < |v'|
      ensures AllOk(v'[l]) && (l > 0 ==> Disjoint(v'[l]))
    {
      InstallKeepsDisjoint(v, next, level, in0, in1, outs, v', l);
    }
    InstallKeepsZero(v, next, level, in0, in1, outs, v');
    forall i, j, f, g | Above(v', i, f, j, g)
      ensures Newer(f, g)
    {
      InstallKeepsLayers(v, next, level, in0, in1, outs, v', i, j, f, g);
    }
  }

  // ---- Entries before and after an install ----

  /** Entries of the files a compaction leaves alone. */
  ghost function Untouched(v: Levels, level: nat, in0: seq<File>, in1: seq<File>): set<Entry> {
    set l, f, e | 0 <= l < |v| && f in v[l] && !(l == level && f in in0) && !(l == level + 1 && f in in1)
                  && e in f.entries :: e
  }

  lemma UntouchedWhere(v: Levels, level: nat, in0: seq<File>, in1: seq<File>, e: Entry) returns (l: nat, f: File)
    requires e in Untouched(v, level, in0, in1)
    ensures l < |v| && f in v[l] && e in f.entries
    ensures !(l == level && f in in0) && !(l == level + 1 && f in in1)
  {
    var m, g :| 0 <= m < |v| && g in v[m] && !(m == level && g in in0) && !(m == level + 1 && g in in1) && e in g.entries;
    l, f := m, g;
  }

  lemma EntriesBefore(v: Levels, level: nat, in0: seq<File>, in1: seq<File>)
    requires InputsOf(v, level, in0, in1)
    ensures VersionEntries(v) == FileEntries(in0 + in1) + Untouched(v, level, in0, in1)
  {
    forall e | e in VersionEntries(v)
      ensures e in FileEntries(in0 + in1) + Untouched(v, level, in0, in1)
    {
      var l, f := EntryWhere(v, e);
      if (l == level && f in in0) || (l == level + 1 && f in in1) {
        assert f in in0 + in1;
      }
    }
    forall e | e in FileEntries(in0 + in1)
      ensures e in VersionEntries(v)
    {
      var f :| f in in0 + in1 && e in f.entries;
      EntryIn(v, if f in in0 then level else level + 1, f, e);
    }
    forall e | e in Untouched(v, level, in0, in1)
      ensures e in VersionEntries(v)
    {
      var l, f := UntouchedWhere(v, level, in0, in1, e);
      EntryIn(v, l, f, e);
    }
  }

  lemma EntriesAfter(v: Levels, next: nat, level: nat, in0: seq<File>, in1: seq<File>, outs: seq<File>, v': Levels)
    requires NumbersOk(v, next) && InputsOf(v, level, in0, in1) && Installed(v, level, in0, in1, outs, v')
    ensures VersionEntries(v') == FileEntries(outs) + Untouched(v, level, in0, in1)
  {
    forall e | e in VersionEntries(v')
      ensures e in FileEntries(outs) + Untouched(v, level, in0, in1)
    {
      var l, f := EntryWhere(v', e);
      InstalledMembers(v, next, level, in0, in1, outs, v', l, f);
    }
    forall e | e in FileEntries(outs)
      ensures e in VersionEntries(v')
    {
      var f :| f in outs && e in f.entries;
      InstalledMembers(v, next, level, in0, in1, outs, v', level + 1, f);
      EntryIn(v', level + 1, f, e);
    }
    forall e | e in Untouched(v, level, in0, in1)
      ensures e in VersionEntries(v')
    {
      var l, f := UntouchedWhere(v, level, in0, in1, e);
      InstalledMembers(v, next, level, in0, in1, outs, v', l, f);
      EntryIn(v', l, f, e);
    }
  }
}
