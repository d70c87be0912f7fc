/**
 What an iterator opened on the store walks: the memtables and files as runs that share no key,
 whose merge is the whole content (db/db_impl.cc, db/version_set.cc).
 */
module StoreView {
  import opened Entries
  import opened Versions
  import opened Cursors
  import opened CompactionPass
  import opened StoreState
  import opened Store
  import opened DbIter

  /** A level-zero file is a run of its own; the files of a sorted level are one run. */
  function LevelRuns(v: Levels, n: nat): seq<seq<Entry>>
    requires n <= |v|
  {
    if n == 0 then []
    else if n == 1 then seq(|v[0]|, i requires 0 <= i < |v[0]| => v[0][i].entries)
    else LevelRuns(v, n - 1) + if v[n - 1] == [] then [] else [Concat(v[n - 1])]
  }

  function ImmRuns(imm: Frozen): seq<seq<Entry>> {
    if imm.Frozen? then [imm.run] else []
  }

  /** The children of the internal iterator, newest first. */
  function Layers(db: Db): seq<seq<Entry>> {
    [db.mem] + (ImmRuns(db.imm) + LevelRuns(db.levels, |db.levels|))
  }

  ghost predicate Among(runs: seq<seq<Entry>>, e: Entry) {
    exists i :: 0 <= i < |runs| && e in runs[i]
  }

  lemma AmongJoined(a: seq<seq<Entry>>, b: seq<seq<Entry>>, e: Entry)
    ensures Among(a + b, e) <==> Among(a, e) || Among(b, e)
  {
    if i :| 0 <= i < |a| && e in a[i] {
      assert (a + b)[i] == a[i];
    }
    if i :| 0 <= i < |b| && e in b[i] {
      assert (a + b)[|a| + i] == b[i];
    }
  }

  /** Two families of runs that share no key are one family. */
  lemma JoinedMergeable(a: seq<seq<Entry>>, b: seq<seq<Entry>>)
    requires Mergeable(a) && Mergeable(b)
    requires forall x: Entry, y: Entry :: Among(a, x) && Among(b, y) ==> x.key != y.key
    ensures Mergeable(a + b)
  {
    var runs: seq<seq<Entry>> := a + b;
    forall i, j | 0 <= i < j < |runs|
      ensures Apart(runs[i], runs[j])
    {
      if j < |a| {
        assert Apart(a[i], a[j]);
      } else if i >= |a| {
        assert Apart(b[i - |a|], b[j - |a|]);
      } else {
        forall x: Entry, y: Entry | x in runs[i] && y in runs[j]
          ensures x.key != y.key
        {
          assert x in a[i] && y in b[j - |a|];
          assert Among(a, x) && Among(b, y);
        }
      }
    }
  }

  lemma OneRun(r: seq<Entry>)
    requires Sorted(r)
    ensures Mergeable([r]) && forall e :: Among([r], e) <==> e in r
  {
    assert [r][0] == r;
  }

  lemma EmptyRun()
    ensures Concat([]) == []
  {
  }

  // ---- The files ----

  ghost predicate InLevels(v: Levels, n: nat, e: Entry) {
    exists l, f :: 0 <= l < n && l < |v| && f in v[l] && e in f.entries
  }

  lemma ZeroRuns(v: Levels)
    requires WellFormed(v)
    ensures Mergeable(LevelRuns(v, 1))
    ensures forall e :: Among(LevelRuns(v, 1), e) <==> InLevels(v, 1, e)
  {
    var runs := LevelRuns(v, 1);
    forall i | 0 <= i < |runs|
      ensures Sorted(runs[i])
    {
      assert v[0][i] in v[0];
    }
    forall i, j | 0 <= i < j < |runs|
      ensures Apart(runs[i], runs[j])
    {
      assert v[0][i] in v[0] && v[0][j] in v[0];
      FilesShareNoKey(v, 0, 0, v[0][i], v[0][j]);
    }
    forall e | InLevels(v, 1, e)
      ensures Among(runs, e)
    {
      var f :| f in v[0] && e in f.entries;
      var i :| 0 <= i < |v[0]| && v[0][i] == f;
      assert runs[i] == f.entries;
    }
    forall e | Among(runs, e)
      ensures InLevels(v, 1, e)
    {
      var i :| 0 <= i < |runs| && e in runs[i];
      assert v[0][i] in v[0];
    }
  }

  lemma {:induction false} LevelRunsOk(v: Levels, n: nat)
    requires WellFormed(v) && 1 <= n <= |v|
    ensures Mergeable(LevelRuns(v, n))
    ensures forall e :: Among(LevelRuns(v, n), e) <==> InLevels(v, n, e)
  {
    hide Mergeable, Among, WellFormed, InLevels, Concat, Sorted;
    if n == 1 {
      ZeroRuns(v);
    } else {
      LevelRunsOk(v, n - 1);
      LevelIsRun(v, n - 1);
      var before, run := LevelRuns(v, n - 1), Concat(v[n - 1]);
      if v[n - 1] == [] {
        assert LevelRuns(v, n) == before + [];
        assert before + [] == before;
        EmptyRun();
      } else {
        assert LevelRuns(v, n) == before + [run];
        OneRun(run);
        JoinedMergeable(before, [run]);
        forall e
          ensures Among(before + [run], e) <==> InLevels(v, n, e)
        {
          AmongJoined(before, [run], e);
        }
      }
    }
  }

  /** A level's run shares no key with the levels above, and adds its entries to theirs. */
  lemma LevelIsRun(v: Levels, n: nat)
    requires WellFormed(v) && 1 <= n < |v|
    ensures forall x: Entry, y: Entry :: InLevels(v, n, x) && y in Concat(v[n]) ==> x.key != y.key
    ensures forall e :: InLevels(v, n + 1, e) <==> InLevels(v, n, e) || e in Concat(v[n])
    ensures Sorted(Concat(v[n]))
  {
    ConcatSorted(v[n]);
    forall x, y | InLevels(v, n, x) && y in Concat(v[n])
      ensures x.key != y.key
    {
      var l: nat, f :| l < n && f in v[l] && x in f.entries;
      ApartFromConcat(v, l, n, f, v[n]);
    }
    forall e
      ensures InLevels(v, n + 1, e) <==> InLevels(v, n, e) || e in Concat(v[n])
    {
      ConcatHolds(v[n], e);
    }
  }

  lemma LevelsAre(v: Levels)
    requires WellFormed(v)
    ensures Mergeable(LevelRuns(v, |v|))
    ensures forall e :: Among(LevelRuns(v, |v|), e) <==> e in VersionEntries(v)
  {
    LevelRunsOk(v, |v|);
    forall e
      ensures InLevels(v, |v|, e) <==> e in VersionEntries(v)
    {
      if InLevels(v, |v|, e) {
        var l: nat, f :| l < |v| && f in v[l] && e in f.entries;
        EntryIn(v, l, f, e);
      }
      if e in VersionEntries(v) {
        var l, f := EntryWhere(v, e);
      }
    }
  }

  // ---- The whole store ----

  lemma BeneathIs(db: Db)
    requires Inv(db)
    ensures
      var runs := ImmRuns(db.imm) + LevelRuns(db.levels, |db.levels|);
      Mergeable(runs) && forall e :: Among(runs, e) <==> e in ImmEntries(db) + VersionEntries(db.levels)
  {
    hide Mergeable, Among;
    var files := LevelRuns(db.levels, |db.levels|);
    LevelsAre(db.levels);
    if db.imm.Frozen? {
      OneRun(db.imm.run);
      JoinedMergeable([db.imm.run], files);
      forall e
        ensures Among([db.imm.run] + files, e) <==> e in ImmEntries(db) + VersionEntries(db.levels)
      {
        AmongJoined([db.imm.run], files, e);
      }
    } else {
      assert [] + files == files;
    }
  }

  /** The layers share no key, and together they are the store. */
  lemma LayersAre(db: Db)
    requires Inv(db)
    ensures Mergeable(Layers(db))
    ensures forall e :: Among(Layers(db), e) <==> e in AllEntries(db)
  {
    hide Mergeable, Among;
    var beneath := ImmRuns(db.imm) + LevelRuns(db.levels, |db.levels|);
    BeneathIs(db);
    OneRun(db.mem);
    JoinedMergeable([db.mem], beneath);
    forall e
      ensures Among(Layers(db), e) <==> e in AllEntries(db)
    {
      AmongJoined([db.mem], beneath, e);
    }
  }

  /** The merge of the layers lists the content of the store in key order. */
  lemma MergeIsStore(db: Db)
    requires Inv(db)
    ensures Mergeable(Layers(db)) && Sorted(MergeAll(Layers(db)))
    ensures SetOf(MergeAll(Layers(db))) == AllEntries(db) && AllParse(MergeAll(Layers(db)))
  {
    hide Mergeable, Sorted, Layers, MergeAll, FilesOk, MemoryOk, AllEntries;
    LayersAre(db);
    MergeAllOk(Layers(db));
    var m := MergeAll(Layers(db));
    forall e
      ensures e in m <==> e in AllEntries(db)
    {
      assert Among(Layers(db), e) <==> e in AllEntries(db);
    }
    assert forall e :: e in SetOf(m) <==> e in m;
    assert SetOf(m) == AllEntries(db);
  }

  /** An iterator over the store as of `s` shows, in key order, exactly what point reads as of `s` find. */
  lemma StoreViewIsLookup(db: Db, s: nat, u: int, value: seq<int>)
    requires Inv(db)
    ensures (u, value) in View(MergeAll(Layers(db)), s) <==> Lookup(AllEntries(db), u, s) == Found(value)
    ensures forall j, k :: 0 <= j < k < |View(MergeAll(Layers(db)), s)| ==>
              View(MergeAll(Layers(db)), s)[j].0 < View(MergeAll(Layers(db)), s)[k].0
  {
    MergeIsStore(db);
    ViewIsLookup(MergeAll(Layers(db)), s, u, value);
    ViewAscends(MergeAll(Layers(db)), s);
  }
}
