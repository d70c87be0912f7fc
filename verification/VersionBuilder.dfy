/**
 Applying version edits: a builder collects deletions and additions per level and merges
 them with the base version (db/version_set.cc, VersionSet::Builder).
 */
module VersionBuilder {
  import opened Entries
  import opened Versions

  datatype Edit = Edit(deleted: set<(nat, nat)>, added: seq<(nat, File)>)

  /** The order of files within a level: smallest key, ties by number. */
  predicate FileLess(f: File, g: File) {
    Less(f.smallest, g.smallest) || (f.smallest == g.smallest && f.number < g.number)
  }

  ghost predicate Ordered(fs: seq<File>) {
    forall i, j :: 0 <= i < j < |fs| ==> FileLess(fs[i], fs[j])
  }

  lemma HasHead(fs: seq<File>)
    ensures fs != [] ==> fs[0] in fs
  {
  }

  /** An ordered list is determined by its members. */
  lemma {:induction false} OrderedIsUnique(a: seq<File>, b: seq<File>)
    requires Ordered(a) && Ordered(b)
    requires forall f :: f in a <==> f in b
    ensures a == b
  {
    if a == [] {
      HasHead(b);
    } else {
      assert a[0] in a;
      assert b != [];
      assert b[0] in b;
      var i :| 0 <= i < |a| && a[i] == b[0];
      var j :| 0 <= j < |b| && b[j] == a[0];
      assert a[0] == b[0];
      forall f
        ensures f in a[1..] <==> f in b[1..]
      {
        if f in a[1..] {
          var k :| 1 <= k < |a| && a[k] == f;
          assert FileLess(a[0], f) && f in a;
          var m :| 0 <= m < |b| && b[m] == f;
        }
        if f in b[1..] {
          var k :| 1 <= k < |b| && b[k] == f;
          assert FileLess(b[0], f) && f in b;
          var m :| 0 <= m < |a| && a[m] == f;
        }
      }
      OrderedIsUnique(a[1..], b[1..]);
    }
  }

  /** Insertion into an ordered set of files; an equivalent file already there stays. */
  function InsertFile(fs: seq<File>, f: File): seq<File> {
    if fs == [] || FileLess(f, fs[0]) then [f] + fs
    else if FileLess(fs[0], f) then [fs[0]] + InsertFile(fs[1..], f)
    else fs
  }

  lemma {:induction false} InsertFileOk(fs: seq<File>, f: File)
    requires Ordered(fs) && forall g :: g in fs && g.number == f.number ==> g == f
    ensures Ordered(InsertFile(fs, f))
    ensures forall g :: g in InsertFile(fs, f) <==> g in fs || g == f
  {
    if fs == [] {
    } else if FileLess(f, fs[0]) {
      HeadIsLeast(fs);
      FirstFile(f, fs);
    } else if FileLess(fs[0], f) {
      hide FileLess, Ordered;
      HeadIsLeast(fs);
      InsertFileOk(fs[1..], f);
      FirstFile(fs[0], InsertFile(fs[1..], f));
    } else {
      assert fs[0] in fs;
    }
  }

  lemma HeadIsLeast(fs: seq<File>)
    requires Ordered(fs) && fs != []
    ensures Ordered(fs[1..]) && forall g :: g in fs <==> g == fs[0] || g in fs[1..]
    ensures forall g :: g in fs[1..] ==> FileLess(fs[0], g)
  {
    hide FileLess;
    assert fs == [fs[0]] + fs[1..];
  }

  lemma FirstFile(f: File, fs: seq<File>)
    requires Ordered(fs) && forall g :: g in fs ==> FileLess(f, g)
    ensures Ordered([f] + fs)
  {
    hide FileLess;
  }

  ghost function AddedAt(added: seq<(nat, File)>, level: nat): set<File> {
    set p | p in added && p.0 == level :: p.1
  }

  ghost function Numbers(fs: set<File>): set<nat> {
    set f | f in fs :: f.number
  }

  ghost function DeletedAt(edit: Edit, level: nat): set<nat> {
    set p | p in edit.deleted && p.0 == level :: p.1
  }

  ghost predicate EditInRange(edit: Edit) {
    && (forall p :: p in edit.deleted ==> p.0 < NUM_LEVELS)
    && (forall p :: p in edit.added ==> p.0 < NUM_LEVELS)
  }

  /** On one level, a file number names one file. */
  ghost predicate OneFilePerNumber(fs: set<File>) {
    forall f, g :: f in fs && g in fs && f.number == g.number ==> f == g
  }

  class Builder {
    const base: Levels
    var deleted: seq<set<nat>>
    var added: seq<seq<File>>

    constructor (base: Levels)
      requires |base| == NUM_LEVELS
      ensures this.base == base && Valid()
      ensures forall l :: 0 <= l < NUM_LEVELS ==> deleted[l] == {} && added[l] == []
    {
      this.base := base;
      deleted := seq(NUM_LEVELS, _ => {});
      added := seq(NUM_LEVELS, _ => []);
    }

    ghost predicate Valid()
      reads this
    {
      && |base| == NUM_LEVELS && |deleted| == NUM_LEVELS && |added| == NUM_LEVELS
      && forall l :: 0 <= l < NUM_LEVELS ==> Ordered(added[l])
    }

    ghost function Added(l: nat): set<File>
      requires Valid() && l < NUM_LEVELS
      reads this
    {
      Members(added[l])
    }

    /** Deletions first, then additions, which revive their number. */
    method Apply(edit: Edit)
      requires Valid() && EditInRange(edit)
      requires forall l :: 0 <= l < NUM_LEVELS ==> OneFilePerNumber(Added(l) + AddedAt(edit.added, l))
      modifies this
      ensures Valid()
      ensures forall l :: 0 <= l < NUM_LEVELS ==>
                deleted[l] == old(deleted[l]) + DeletedAt(edit, l) - Numbers(AddedAt(edit.added, l))
      ensures forall l :: 0 <= l < NUM_LEVELS ==> Added(l) == old(Added(l)) + AddedAt(edit.added, l)
    {
      deleted := WithDeletions(deleted, edit);
      ghost var mid, start := deleted, added;
      for i := 0 to |edit.added|
        invariant Valid() && Progress(deleted, added, mid, start, edit.added[..i])
      {
        var (l, f) := edit.added[i];
        assert edit.added[i] in edit.added;
        AddStep(deleted, added, mid, start, edit.added, i, l, f);
        deleted := deleted[l := deleted[l] - {f.number}];
        added := added[l := InsertFile(added[l], f)];
      }
      assert edit.added[..|edit.added|] == edit.added;
    }

    /** The merged level lists: what is in the base or added, and not deleted. */
    method SaveTo() returns (v: Levels)
      requires Valid()
      requires forall l :: 0 <= l < NUM_LEVELS ==> Ordered(base[l])
      requires forall l, f, g :: 0 <= l < NUM_LEVELS && f in base[l] && g in added[l]
                                 ==> FileLess(f, g) || FileLess(g, f)
      ensures |v| == NUM_LEVELS
      ensures forall l :: 0 <= l < NUM_LEVELS ==> Saved(base[l], added[l], deleted[l], v[l])
    {
      v := [];
      for level := 0 to NUM_LEVELS
        invariant |v| == level
        invariant forall l :: 0 <= l < level ==> Saved(base[l], added[l], deleted[l], v[l])
      {
        var files := MergeLevel(base[level], added[level], deleted[level]);
        v := v + [files];
      }
    }
  }

  ghost function Members(fs: seq<File>): set<File> {
    set f | f in fs
  }

  /** State after some additions, from the state with the deletions already recorded. */
  ghost predicate Progress(deleted: seq<set<nat>>, added: seq<seq<File>>,
                           mid: seq<set<nat>>, start: seq<seq<File>>, done: seq<(nat, File)>)
  {
    && |deleted| == NUM_LEVELS && |added| == NUM_LEVELS && |mid| == NUM_LEVELS && |start| == NUM_LEVELS
    && forall l :: 0 <= l < NUM_LEVELS ==>
         && deleted[l] == mid[l] - Numbers(AddedAt(done, l))
         && Members(added[l]) == Members(start[l]) + AddedAt(done, l)
  }

  lemma AddStep(deleted: seq<set<nat>>, added: seq<seq<File>>,
                mid: seq<set<nat>>, start: seq<seq<File>>, news: seq<(nat, File)>, i: nat, l: nat, f: File)
    requires i < |news| && Progress(deleted, added, mid, start, news[..i])
    requires l < NUM_LEVELS && news[i] == (l, f) && Ordered(added[l])
    requires OneFilePerNumber(Members(start[l]) + AddedAt(news, l))
    ensures Ordered(InsertFile(added[l], f))
    ensures Progress(deleted[l := deleted[l] - {f.number}], added[l := InsertFile(added[l], f)],
                     mid, start, news[..i + 1])
  {
    assert news[i] in news;
    forall g | g in added[l] && g.number == f.number
      ensures g == f
    {
      assert g in Members(added[l]);
      assert f in AddedAt(news, l) && AddedAt(news[..i], l) <= AddedAt(news, l);
    }
    InsertFileOk(added[l], f);
    StepAdded(news, i);
    hide Ordered, OneFilePerNumber, Progress, AddedAt;
    assert Members(InsertFile(added[l], f)) == Members(added[l]) + {f};
    PutStep(deleted, added, mid, start, news[..i], news[..i + 1], l, f, InsertFile(added[l], f));
  }

  lemma PutStep(deleted: seq<set<nat>>, added: seq<seq<File>>, mid: seq<set<nat>>, start: seq<seq<File>>,
                was: seq<(nat, File)>, now: seq<(nat, File)>, l: nat, f: File, fs: seq<File>)
    requires l < NUM_LEVELS && Progress(deleted, added, mid, start, was) && Members(fs) == Members(added[l]) + {f}
    requires forall k: nat :: AddedAt(now, k) == AddedAt(was, k) + if k == l then {f} else {}
    ensures Progress(deleted[l := deleted[l] - {f.number}], added[l := fs], mid, start, now)
  {
    hide AddedAt, Members;
    assert Numbers(AddedAt(now, l)) == Numbers(AddedAt(was, l)) + {f.number};
  }

  lemma StepAdded(added: seq<(nat, File)>, i: nat)
    requires i < |added|
    ensures forall l: nat :: AddedAt(added[..i + 1], l) ==
                        AddedAt(added[..i], l) + if added[i].0 == l then {added[i].1} else {}
  {
    assert added[..i + 1] == added[..i] + [added[i]];
  }

  function WithDeletions(deleted: seq<set<nat>>, edit: Edit): (r: seq<set<nat>>)
    requires |deleted| == NUM_LEVELS
    ensures |r| == NUM_LEVELS
    ensures forall l :: 0 <= l < NUM_LEVELS ==> r[l] == deleted[l] + DeletedAt(edit, l)
  {
    seq(NUM_LEVELS, l requires 0 <= l < NUM_LEVELS => deleted[l] + set p | p in edit.deleted && p.0 == l :: p.1)
  }

  /** The merge of one level. */
  ghost predicate Saved(base: seq<File>, added: seq<File>, deleted: set<nat>, r: seq<File>) {
    && Ordered(r)
    && forall f :: f in r <==> (f in base || f in added) && f.number !in deleted
  }

  ghost predicate MergedSoFar(base: seq<File>, added: seq<File>, deleted: set<nat>, bi: nat, ai: nat, r: seq<File>)
    requires bi <= |base| && ai <= |added|
  {
    && Ordered(r)
    && (forall f :: f in r <==> (f in base[..bi] || f in added[..ai]) && f.number !in deleted)
    && (forall f, j :: f in r && bi <= j < |base| ==> FileLess(f, base[j]))
    && (forall f, j :: f in r && ai <= j < |added| ==> FileLess(f, added[j]))
  }

  method MergeLevel(base: seq<File>, added: seq<File>, deleted: set<nat>) returns (r: seq<File>)
    requires Ordered(base) && Ordered(added)
    requires forall f, g :: f in base && g in added ==> FileLess(f, g) || FileLess(g, f)
    ensures Saved(base, added, deleted, r)
  {
    r := [];
    var bi := 0;
    for ai := 0 to |added|
      invariant bi <= |base| && MergedSoFar(base, added, deleted, bi, ai, r)
    {
      var g := added[ai];
      while bi < |base| && !FileLess(g, base[bi])
        invariant bi <= |base| && MergedSoFar(base, added, deleted, bi, ai, r)
      {
        TakeBase(base, added, deleted, bi, ai, r);
        if base[bi].number !in deleted {
          r := r + [base[bi]];
        }
        bi := bi + 1;
      }
      TakeAdded(base, added, deleted, bi, ai, r);
      if g.number !in deleted {
        r := r + [g];
      }
    }
    while bi < |base|
      invariant bi <= |base| && MergedSoFar(base, added, deleted, bi, |added|, r)
    {
      TakeBase(base, added, deleted, bi, |added|, r);
      if base[bi].number !in deleted {
        r := r + [base[bi]];
      }
      bi := bi + 1;
    }
    assert base[..bi] == base && added[..|added|] == added;
  }

  lemma TakeBase(base: seq<File>, added: seq<File>, deleted: set<nat>, bi: nat, ai: nat, r: seq<File>)
    requires Ordered(base) && Ordered(added) && bi < |base| && ai <= |added|
    requires forall f, g :: f in base && g in added ==> FileLess(f, g) || FileLess(g, f)
    requires MergedSoFar(base, added, deleted, bi, ai, r)
    requires ai < |added| ==> !FileLess(added[ai], base[bi])
    ensures MergedSoFar(base, added, deleted, bi + 1, ai, if base[bi].number in deleted then r else r + [base[bi]])
  {
    assert base[..bi + 1] == base[..bi] + [base[bi]];
    assert base[bi] in base;
    if ai < |added| {
      assert added[ai] in added;
      forall j | ai <= j < |added|
        ensures FileLess(base[bi], added[j])
      {
      }
    }
  }

  lemma TakeAdded(base: seq<File>, added: seq<File>, deleted: set<nat>, bi: nat, ai: nat, r: seq<File>)
    requires Ordered(base) && Ordered(added) && bi <= |base| && ai < |added|
    requires MergedSoFar(base, added, deleted, bi, ai, r)
    requires bi < |base| ==> FileLess(added[ai], base[bi])
    ensures MergedSoFar(base, added, deleted, bi, ai + 1, if added[ai].number in deleted then r else r + [added[ai]])
  {
    assert added[..ai + 1] == added[..ai] + [added[ai]];
  }
}
