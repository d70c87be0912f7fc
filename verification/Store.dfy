/**
 What the store object is built from: draining the merged inputs of a compaction, finding the
 level a flushed table goes to, and installing an edit (db/version_set.cc).
 */
module Store {
  import opened Entries
  import opened Versions
  import opened Cursors
  import opened Merger
  import opened CompactionInputs
  import opened CompactionSetup
  import opened CompactionPass
  import opened VersionBuilder
  import opened StoreState
  import opened StoreRuns

  // ---- The merged input of a compaction ----

  function Concat(fs: seq<File>): seq<Entry> {
    if fs == [] then [] else fs[0].entries + Concat(fs[1..])
  }

  lemma {:induction false} ConcatHolds(fs: seq<File>, e: Entry)
    ensures e in Concat(fs) <==> exists f :: f in fs && e in f.entries
  {
    if fs != [] {
      ConcatHolds(fs[1..], e);
      assert fs == [fs[0]] + fs[1..];
    }
  }

  lemma {:induction false} ConcatSorted(fs: seq<File>)
    requires AllOk(fs) && Disjoint(fs)
    ensures Sorted(Concat(fs))
  {
    if fs != [] {
      assert AllOk(fs[1..]) && Disjoint(fs[1..]) && fs[0] in fs && FileOk(fs[0]);
      ConcatSorted(fs[1..]);
      hide Sorted, Less;
      forall x, y | x in fs[0].entries && y in Concat(fs[1..])
        ensures Less(x.key, y.key)
      {
        ConcatHolds(fs[1..], y);
        var g :| g in fs[1..] && y in g.entries;
        var i: nat :| 1 <= i < |fs| && fs[i] == g;
        LaterFile(fs, i, x, y);
      }
      JoinSorted(fs[0].entries, Concat(fs[1..]));
    }
  }

  lemma LaterFile(fs: seq<File>, i: nat, x: Entry, y: Entry)
    requires AllOk(fs) && Disjoint(fs) && 1 <= i < |fs| && x in fs[0].entries && y in fs[i].entries
    ensures Less(x.key, y.key)
  {
    assert fs[0] in fs && fs[i] in fs;
    FileCovers(fs[0], x);
    FileCovers(fs[i], y);
  }

  lemma JoinSorted(a: seq<Entry>, b: seq<Entry>)
    requires Sorted(a) && Sorted(b)
    requires forall x, y :: x in a && y in b ==> Less(x.key, y.key)
    ensures Sorted(a + b)
  {
  }

  /** One child per level-zero file; the files of a sorted level form one child. */
  function InputRuns(level: nat, in0: seq<File>, in1: seq<File>): seq<seq<Entry>> {
    (if level == 0 then seq(|in0|, i requires 0 <= i < |in0| => in0[i].entries) else [Concat(in0)]) + [Concat(in1)]
  }

  /** The input sets as the compaction holds them: distinct files, sorted levels in order. */
  ghost predicate InputLists(v: Levels, level: nat, in0: seq<File>, in1: seq<File>) {
    && level + 1 < |v|
    && (forall f :: f in in0 ==> f in v[level]) && (forall f :: f in in1 ==> f in v[level + 1])
    && (forall i, j :: 0 <= i < j < |in0| ==> in0[i] != in0[j])
    && (level > 0 ==> Disjoint(in0)) && Disjoint(in1)
  }

  lemma FilesShareNoKey(v: Levels, l: nat, m: nat, f: File, g: File)
    requires WellFormed(v) && l < |v| && m < |v| && f in v[l] && g in v[m] && (l != m || f != g)
    ensures Apart(f.entries, g.entries)
  {
    forall x, y | x in f.entries && y in g.entries
      ensures x.key != y.key
    {
      if x.key == y.key {
        FilesApart(v, l, m, f, g, x, y);
      }
    }
  }

  lemma ApartFromConcat(v: Levels, l: nat, m: nat, f: File, gs: seq<File>)
    requires WellFormed(v) && l < |v| && m < |v| && l != m && f in v[l] && forall g :: g in gs ==> g in v[m]
    ensures Apart(f.entries, Concat(gs))
  {
    forall x, y | x in f.entries && y in Concat(gs)
      ensures x.key != y.key
    {
      ConcatHolds(gs, y);
      var g :| g in gs && y in g.entries;
      FilesShareNoKey(v, l, m, f, g);
    }
  }

  lemma RunsMergeable(v: Levels, level: nat, in0: seq<File>, in1: seq<File>)
    requires WellFormed(v) && InputLists(v, level, in0, in1)
    ensures Mergeable(InputRuns(level, in0, in1))
  {
    hide Sorted, Less;
    var runs := InputRuns(level, in0, in1);
    assert AllOk(in0) && AllOk(in1);
    ConcatSorted(in1);
    if level == 0 {
      forall i | 0 <= i < |in0|
        ensures Sorted(runs[i]) && runs[i] == in0[i].entries && Apart(runs[i], Concat(in1))
      {
        assert in0[i] in in0;
        ApartFromConcat(v, 0, 1, in0[i], in1);
      }
      forall i, j | 0 <= i < j < |in0|
        ensures Apart(runs[i], runs[j])
      {
        assert in0[i] in in0 && in0[j] in in0;
        FilesShareNoKey(v, 0, 0, in0[i], in0[j]);
      }
    } else {
      ConcatSorted(in0);
      forall x, y | x in Concat(in0) && y in Concat(in1)
        ensures x.key != y.key
      {
        ConcatHolds(in0, x);
        var f :| f in in0 && x in f.entries;
        ApartFromConcat(v, level, level + 1, f, in1);
      }
    }
  }

  lemma RunsHold(level: nat, in0: seq<File>, in1: seq<File>, e: Entry)
    ensures (exists i :: 0 <= i < |InputRuns(level, in0, in1)| && e in InputRuns(level, in0, in1)[i])
            <==> e in FileEntries(in0 + in1)
  {
    var runs := InputRuns(level, in0, in1);
    ConcatHolds(in0, e);
    ConcatHolds(in1, e);
    if e in FileEntries(in0 + in1) {
      var f :| f in in0 + in1 && e in f.entries;
      if f in in1 {
        assert e in runs[|runs| - 1];
      } else if level == 0 {
        var i :| 0 <= i < |in0| && in0[i] == f;
        assert e in runs[i];
      } else {
        assert e in runs[0];
      }
    }
    if i :| 0 <= i < |runs| && e in runs[i] {
      if i == |runs| - 1 {
        assert e in Concat(in1);
        var f :| f in in1 && e in f.entries;
        assert f in in0 + in1;
      } else if level == 0 {
        assert in0[i] in in0 + in1;
      } else {
        var f :| f in in0 && e in f.entries;
        assert f in in0 + in1;
      }
    }
  }

  method MakeChildren(runs: seq<seq<Entry>>) returns (children: seq<RunIterator>)
    ensures |children| == |runs| && forall i :: 0 <= i < |children| ==> fresh(children[i])
    ensures forall i :: 0 <= i < |runs| ==> runs[i] == children[i].run && children[i].pos == |children[i].run|
    ensures forall i, j :: 0 <= i < j < |runs| ==> children[i] != children[j]
  {
    children := [];
    for i := 0 to |runs|
      invariant |children| == i && forall j :: 0 <= j < i ==> fresh(children[j])
      invariant forall j :: 0 <= j < i ==> runs[j] == children[j].run && children[j].pos == |children[j].run|
      invariant forall j, k :: 0 <= j < k < i ==> children[j] != children[k]
    {
      var child := new RunIterator(runs[i]);
      assert forall j :: 0 <= j < i ==> children[j] != child;
      children := children + [child];
    }
  }

  /** Read a merging iterator from its first entry to its last. */
  method Drain(runs: seq<seq<Entry>>) returns (input: seq<Entry>)
    requires Mergeable(runs)
    ensures input == MergeAll(runs)
  {
    var children := MakeChildren(runs);
    var it := new MergingIterator(children, runs);
    assert forall i :: 0 <= i < |it.children| ==> fresh(it.children[i]);
    it.SeekToFirst();
    input := ReadAll(it);
  }

  method ReadAll(it: MergingIterator) returns (input: seq<Entry>)
    requires it.Valid() && it.at == 0
    modifies it, it.children
    ensures input == it.merged
  {
    hide MergingIterator.Shape, MergingIterator.Before, MergingIterator.After;
    input := [];
    while it.IsValid()
      invariant it.Valid() && input == it.merged[..it.at]
      decreases |it.merged| - it.at
    {
      var e := it.Current();
      ghost var at := it.at;
      assert it.merged[..at + 1] == it.merged[..at] + [e];
      input := input + [e];
      it.Next();
      assert input == it.merged[..it.at];
    }
  }

  // ---- Placing a flushed memtable ----

  /** A binary search where files are disjoint, a scan where they are not. */
  method SomeFileOverlapsRange(disjoint: bool, files: seq<File>, lo: int, hi: int) returns (b: bool)
    requires AllOk(files) && (disjoint ==> Disjoint(files))
    requires forall f :: f in files ==> f.largest.seqno < MAX_SEQUENCE
    ensures b <==> exists f :: f in files && lo <= f.largest.user && f.smallest.user <= hi
  {
    if !disjoint {
      for i := 0 to |files|
        invariant forall f :: f in files[..i] ==> f.largest.user < lo || hi < f.smallest.user
      {
        assert files[..i + 1] == files[..i] + [files[i]];
        if lo > files[i].largest.user || hi < files[i].smallest.user {
        } else {
          assert files[i] in files;
          return true;
        }
      }
      assert files[..|files|] == files;
      return false;
    }
    var index := FindFile(files, IKey(lo, MAX_SEQUENCE, TYPE_VALUE));
    DisjointAscends(files);
    EarlyFiles(files, lo, index);
    if index >= |files| {
      return false;
    }
    b := !(hi < files[index].smallest.user);
    if b {
      assert files[index] in files;
    } else {
      forall f | f in files
        ensures f.largest.user < lo || hi < f.smallest.user
      {
        var i :| 0 <= i < |files| && files[i] == f;
      }
    }
  }

  /** Sequence numbers stay below the maximum, so the earliest key of `lo` bounds all of them. */
  lemma EarlyFiles(files: seq<File>, lo: int, index: nat)
    requires index <= |files|
    requires forall i :: 0 <= i < index ==> Less(files[i].largest, IKey(lo, MAX_SEQUENCE, TYPE_VALUE))
    requires forall i :: index <= i < |files| ==> AtMost(IKey(lo, MAX_SEQUENCE, TYPE_VALUE), files[i].largest)
    ensures forall i :: index <= i < |files| ==> lo <= files[i].largest.user
    requires forall f :: f in files ==> f.largest.seqno < MAX_SEQUENCE
    ensures forall i :: 0 <= i < index ==> files[i].largest.user < lo
  {
  }

  const MAX_MEM_COMPACT_LEVEL: nat := 2

  ghost predicate NoOverlapAt(v: Levels, l: nat, lo: int, hi: int)
    requires l < |v|
  {
    forall g :: g in v[l] ==> g.largest.user < lo || hi < g.smallest.user
  }

  /** The files two levels below `l` hold more than `limit` bytes in the range. */
  ghost predicate Weighty(v: Levels, l: nat, lo: int, hi: int, limit: nat) {
    l + 2 < |v| && TotalFileSize(Overlapping(v[l + 2], At(lo), At(hi))) > limit
  }

  /** The first level where going deeper meets an overlap, too many bytes beneath, or the limit. */
  ghost predicate DeepestLevel(v: Levels, lo: int, hi: int, maxOverlap: nat, level: nat) {
    && level <= MAX_MEM_COMPACT_LEVEL < |v| - 1
    && (level > 0 ==> forall l :: 0 <= l <= level ==> NoOverlapAt(v, l, lo, hi))
    && (forall l: nat :: l < level ==> !Weighty(v, l, lo, hi, maxOverlap))
    && (level < MAX_MEM_COMPACT_LEVEL ==>
          !NoOverlapAt(v, 0, lo, hi) || !NoOverlapAt(v, level + 1, lo, hi) || Weighty(v, level, lo, hi, maxOverlap))
  }

  /** Push a flushed table down while it overlaps nothing on the way and little beneath. */
  method PickLevelForMemTableOutput(v: Levels, lo: int, hi: int, maxOverlap: nat) returns (level: nat)
    requires WellFormed(v)
    requires forall l, f :: 0 <= l < |v| && f in v[l] ==> f.largest.seqno < MAX_SEQUENCE
    ensures DeepestLevel(v, lo, hi, maxOverlap, level)
  {
    level := 0;
    var hit := SomeFileOverlapsRange(false, v[0], lo, hi);
    if !hit {
      while level < MAX_MEM_COMPACT_LEVEL
        invariant level <= MAX_MEM_COMPACT_LEVEL
        invariant forall l :: 0 <= l <= level ==> NoOverlapAt(v, l, lo, hi)
        invariant forall l: nat :: l < level ==> !Weighty(v, l, lo, hi, maxOverlap)
      {
        hit := SomeFileOverlapsRange(true, v[level + 1], lo, hi);
        if hit {
          break;
        }
        var overlaps;
        ghost var l, h;
        overlaps, l, h := GetOverlappingInputs(v[level + 2], false, At(lo), At(hi));
        if TotalFileSize(overlaps) > maxOverlap {
          break;
        }
        level := level + 1;
      }
    }
  }

  // ---- Installing an edit through the builder ----

  ghost function AdditionsOf(edit: Edit): set<(nat, File)> {
    set p | p in edit.added
  }

  /** Added files carry numbers no file of their level has. */
  ghost predicate NumbersAreNew(v: Levels, edit: Edit) {
    && (forall l, f, g :: 0 <= l < |v| && f in v[l] && (l, g) in edit.added ==> f.number != g.number)
    && (forall l: nat :: l < |v| ==> OneFilePerNumber(AddedAt(edit.added, l)))
  }

  method InstallEdit(v: Levels, edit: Edit) returns (v': Levels)
    requires |v| == NUM_LEVELS && AllOrdered(v) && EditInRange(edit) && NumbersAreNew(v, edit)
    ensures Edited(v, edit.deleted, AdditionsOf(edit), v')
  {
    var builder := new Builder(v);
    builder.Apply(edit);
    forall l, f, g | 0 <= l < NUM_LEVELS && f in v[l] && g in builder.added[l]
      ensures FileLess(f, g) || FileLess(g, f)
    {
      assert g in builder.Added(l);
    }
    v' := builder.SaveTo();
    forall l: nat, f | l < NUM_LEVELS
      ensures f in v'[l] <==> (f in v[l] && (l, f.number) !in edit.deleted) || (l, f) in AdditionsOf(edit)
    {
      SavedIsEdited(v, edit, l, builder.deleted[l], builder.added[l], v'[l], f);
    }
  }

  lemma SavedIsEdited(v: Levels, edit: Edit, l: nat, deleted: set<nat>, added: seq<File>, r: seq<File>, f: File)
    requires l < |v| && NumbersAreNew(v, edit) && Saved(v[l], added, deleted, r)
    requires deleted == DeletedAt(edit, l) - Numbers(AddedAt(edit.added, l))
    requires Members(added) == AddedAt(edit.added, l)
    ensures f in r <==> (f in v[l] && (l, f.number) !in edit.deleted) || (l, f) in AdditionsOf(edit)
  {
    assert f in added <==> f in Members(added);
    assert f in AddedAt(edit.added, l) <==> (l, f) in edit.added;
    assert f.number in DeletedAt(edit, l) <==> (l, f.number) in edit.deleted;
    forall g | g in AddedAt(edit.added, l)
      ensures f in v[l] ==> f.number != g.number
    {
      assert (l, g) in edit.added;
    }
  }
}
