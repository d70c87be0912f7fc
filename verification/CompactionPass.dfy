/**
 The compaction loop: merge the inputs in key order, drop what no present or future
 snapshot can see, and cut the survivors into tables (db/db_impl.cc, db/version_set.cc).
 */
module CompactionPass {
  import opened Entries
  import opened Versions
  import opened CompactionCuts

  /** No table deeper than the output level may hold the user key. */
  ghost predicate BaseLevel(v: Levels, level: nat, u: int) {
    forall l, f :: level + 2 <= l < |v| && f in v[l] ==> !(f.smallest.user <= u <= f.largest.user)
  }

  class Compaction {
    const level: nat
    const version: Levels
    const grandparents: seq<File>
    const maxOutputSize: nat
    const maxOverlap: nat
    const levelPtrs: array<nat>
    var grandparentIndex: nat
    var seenKey: bool
    var overlappedBytes: nat

    constructor (level: nat, version: Levels, grandparents: seq<File>, maxOutputSize: nat, maxOverlap: nat)
      requires WellFormed(version)
      ensures Valid() && fresh(levelPtrs) && this.level == level && this.version == version
      ensures this.grandparents == grandparents && this.maxOutputSize == maxOutputSize && this.maxOverlap == maxOverlap
      ensures Unused()
    {
      this.level, this.version, this.grandparents := level, version, grandparents;
      this.maxOutputSize, this.maxOverlap := maxOutputSize, maxOverlap;
      levelPtrs := new nat[NUM_LEVELS](_ => 0);
      grandparentIndex, seenKey, overlappedBytes := 0, false, 0;
    }

    ghost predicate Valid()
      reads this, levelPtrs
    {
      && WellFormed(version)
      && levelPtrs.Length == NUM_LEVELS
      && (forall l :: 0 <= l < NUM_LEVELS ==> levelPtrs[l] <= |version[l]|)
      && grandparentIndex <= |grandparents|
    }

    /** Nothing has been asked of it. */
    ghost predicate Unused()
      requires Valid()
      reads this, levelPtrs
    {
      && grandparentIndex == 0 && !seenKey && overlappedBytes == 0
      && forall u :: Behind(u)
    }

    /** Its place among the grandparents is that of the scan before entry `i`. */
    ghost predicate At(limits: Limits, input: seq<Entry>, i: nat)
      reads this
    {
      Tracked(limits, input, i, grandparentIndex, seenKey, overlappedBytes)
    }

    /** Every file a level pointer has passed ends before `u`. */
    ghost predicate Behind(u: int)
      requires Valid()
      reads this, levelPtrs
    {
      forall l, i :: 0 <= l < NUM_LEVELS && 0 <= i < levelPtrs[l] ==> version[l][i].largest.user < u
    }

    /** Exact for user keys asked in nondecreasing order, though each file is passed once. */
    method IsBaseLevelForKey(u: int) returns (b: bool)
      requires Valid() && Behind(u)
      modifies levelPtrs
      ensures Valid() && Behind(u)
      ensures b <==> BaseLevel(version, level, u)
    {
      var lvl := level + 2;
      while lvl < NUM_LEVELS
        invariant Valid() && Behind(u)
        invariant forall l, f :: level + 2 <= l < lvl && l < NUM_LEVELS && f in version[l] ==> !(f.smallest.user <= u <= f.largest.user)
      {
        var files := version[lvl];
        while levelPtrs[lvl] < |files|
          invariant Valid() && Behind(u)
          decreases |files| - levelPtrs[lvl]
        {
          var f := files[levelPtrs[lvl]];
          if u <= f.largest.user {
            if u >= f.smallest.user {
              assert f in version[lvl];
              return false;
            }
            break;
          }
          levelPtrs[lvl] := levelPtrs[lvl] + 1;
        }
        PassedOrAhead(files, levelPtrs[lvl], u);
        lvl := lvl + 1;
      }
      b := true;
    }

    /** The grandparent files now passed that were not before. */
    twostate function NewlyPassed(): (r: seq<File>)
      reads this
    {
      if old(grandparentIndex) <= grandparentIndex <= |grandparents|
      then grandparents[old(grandparentIndex)..grandparentIndex] else []
    }

    /**
     Where to cut the output so that it overlaps few grandparent bytes: the files that end before
     the key are passed, and those passed since the first key of the output are counted.
     */
    method ShouldStopBefore(k: IKey) returns (stop: bool)
      requires Valid()
      modifies this
      ensures Valid() && unchanged(levelPtrs) && seenKey && old(grandparentIndex) <= grandparentIndex
      ensures forall u :: old(Behind(u)) ==> Behind(u)
      ensures forall f :: f in NewlyPassed() ==> Less(f.largest, k)
      ensures grandparentIndex < |grandparents| ==> !Less(grandparents[grandparentIndex].largest, k)
      ensures
        var bytes := old(overlappedBytes) + if old(seenKey) then TotalFileSize(NewlyPassed()) else 0;
        stop == (bytes > maxOverlap) && overlappedBytes == if stop then 0 else bytes
    {
      hide Less, WellFormed, TotalFileSize;
      assert NewlyPassed() == [];
      NoBytes();
      while grandparentIndex < |grandparents| && Less(grandparents[grandparentIndex].largest, k)
        invariant Valid() && old(grandparentIndex) <= grandparentIndex && seenKey == old(seenKey)
        invariant forall f :: f in NewlyPassed() ==> Less(f.largest, k)
        invariant overlappedBytes == old(overlappedBytes) + if seenKey then TotalFileSize(NewlyPassed()) else 0
      {
        ghost var passed := NewlyPassed();
        if seenKey {
          overlappedBytes := overlappedBytes + grandparents[grandparentIndex].size;
        }
        SizeAppend(passed, grandparents[grandparentIndex]);
        grandparentIndex := grandparentIndex + 1;
        assert NewlyPassed() == passed + [grandparents[grandparentIndex - 1]];
      }
      seenKey := true;
      if overlappedBytes > maxOverlap {
        overlappedBytes := 0;
        return true;
      }
      return false;
    }
  }

  lemma NoBytes()
    ensures TotalFileSize([]) == 0
  {
  }

  lemma PassedOrAhead(files: seq<File>, p: nat, u: int)
    requires AllOk(files) && Disjoint(files) && p <= |files|
    requires forall i :: 0 <= i < p ==> files[i].largest.user < u
    requires p < |files| ==> u < files[p].smallest.user
    ensures forall f :: f in files ==> !(f.smallest.user <= u <= f.largest.user)
  {
    forall f | f in files
      ensures !(f.smallest.user <= u <= f.largest.user)
    {
      var i :| 0 <= i < |files| && files[i] == f;
      if i > p {
        assert files[p] in files;
        FileCovers(files[p], files[p].entries[0]);
        assert Less(files[p].largest, files[i].smallest);
      }
    }
  }

  // ---- What the loop drops, stated per position ----

  /** An older entry of the same user key that every snapshot from `snap` on has superseded. */
  ghost predicate Hidden(es: seq<Entry>, snap: nat, i: nat)
    requires i < |es|
  {
    && i > 0
    && Parses(es[i].key) && Parses(es[i - 1].key)
    && es[i - 1].key.user == es[i].key.user
    && es[i - 1].key.seqno <= snap
  }

  /** A deletion marker with nothing left below it to hide. */
  ghost predicate ObsoleteMarker(es: seq<Entry>, snap: nat, v: Levels, level: nat, i: nat)
    requires i < |es|
  {
    && es[i].key.kind == TYPE_DELETION
    && es[i].key.seqno <= snap
    && !Hidden(es, snap, i)
    && BaseLevel(v, level, es[i].key.user)
  }

  ghost predicate Dropped(es: seq<Entry>, snap: nat, v: Levels, level: nat, i: nat)
    requires i < |es|
  {
    Hidden(es, snap, i) || ObsoleteMarker(es, snap, v, level, i)
  }

  /** The survivors among the first `n` entries, in order. */
  ghost function Kept(es: seq<Entry>, snap: nat, v: Levels, level: nat, n: nat): seq<Entry>
    requires n <= |es|
  {
    if n == 0 then []
    else Kept(es, snap, v, level, n - 1) + if Dropped(es, snap, v, level, n - 1) then [] else [es[n - 1]]
  }

  lemma {:induction false} KeptHolds(es: seq<Entry>, snap: nat, v: Levels, level: nat, n: nat, e: Entry)
    requires n <= |es|
    ensures e in Kept(es, snap, v, level, n) <==>
              exists i :: 0 <= i < n && es[i] == e && !Dropped(es, snap, v, level, i)
  {
    if n > 0 {
      KeptHolds(es, snap, v, level, n - 1, e);
    }
  }

  /** Survivors stay in strictly ascending key order. */
  lemma {:induction false} KeptSorted(es: seq<Entry>, snap: nat, v: Levels, level: nat, n: nat)
    requires n <= |es| && Sorted(es)
    ensures Sorted(Kept(es, snap, v, level, n))
    ensures n < |es| ==> forall e :: e in Kept(es, snap, v, level, n) ==> Less(e.key, es[n].key)
  {
    hide Less, Dropped;
    if n > 0 {
      KeptSorted(es, snap, v, level, n - 1);
      OneMore(Kept(es, snap, v, level, n - 1), es, n - 1);
    }
  }

  lemma OneMore(front: seq<Entry>, es: seq<Entry>, i: nat)
    requires Sorted(front) && Sorted(es) && i < |es| && forall e :: e in front ==> Less(e.key, es[i].key)
    ensures Sorted(front + [es[i]])
    ensures i + 1 < |es| ==> forall e :: e in front + [es[i]] ==> Less(e.key, es[i + 1].key)
  {
  }

  /** Some entry from `j` up to `i` has this user key and a type byte that says nothing. */
  ghost predicate UnparsedWithin(es: seq<Entry>, u: int, j: nat, i: nat)
    requires i <= |es|
  {
    exists k :: j <= k < i && es[k].key.user == u && !Parses(es[k].key)
  }

  /**
   The loop keeps nothing needless: of the entries of a user key that the oldest snapshot can see
   only the newest, as far as they parse, and no deletion marker there with nothing below it.
   */
  lemma NothingNeedless(es: seq<Entry>, snap: nat, v: Levels, level: nat, i: nat)
    requires Sorted(es) && i < |es| && es[i] in Kept(es, snap, v, level, |es|) && es[i].key.seqno <= snap
    ensures es[i].key.kind == TYPE_DELETION ==> !BaseLevel(v, level, es[i].key.user)
    ensures forall j :: 0 <= j < i && es[j].key.user == es[i].key.user && es[j].key.seqno <= snap && Parses(es[i].key) ==>
                          UnparsedWithin(es, es[i].key.user, j, i)
  {
    KeptHolds(es, snap, v, level, |es|, es[i]);
    var k: nat :| k < |es| && es[k] == es[i] && !Dropped(es, snap, v, level, k);
    SamePlace(es, i, k);
    hide BaseLevel;
    forall j | 0 <= j < i && es[j].key.user == es[i].key.user && es[j].key.seqno <= snap && Parses(es[i].key)
      ensures UnparsedWithin(es, es[i].key.user, j, i)
    {
      assert j < i - 1 ==> Less(es[j].key, es[i - 1].key);
      assert Less(es[i - 1].key, es[i].key);
    }
  }

  lemma SamePlace(es: seq<Entry>, i: nat, k: nat)
    requires Sorted(es) && i < |es| && k < |es| && es[i] == es[k]
    ensures i == k
  {
    InOrder(es, i, k);
    InOrder(es, k, i);
  }

  ghost function Contents(fs: seq<File>): seq<Entry> {
    if fs == [] then [] else Contents(fs[..|fs| - 1]) + fs[|fs| - 1].entries
  }

  ghost predicate NumberedFrom(fs: seq<File>, first: nat) {
    forall i :: 0 <= i < |fs| ==> fs[i].number == first + i
  }

  /** The contents of each table. */
  ghost function Runs(fs: seq<File>): (r: seq<seq<Entry>>)
    ensures |r| == |fs| && forall i :: 0 <= i < |fs| ==> r[i] == fs[i].entries
  {
    seq(|fs|, i requires 0 <= i < |fs| => fs[i].entries)
  }

  function LimitsOf(c: Compaction, tableBytes: seq<Entry> -> nat): Limits {
    Limits(c.grandparents, c.maxOverlap, c.maxOutputSize, tableBytes)
  }

  /** Each table has the size of its contents. */
  ghost predicate Measured(fs: seq<File>, tableBytes: seq<Entry> -> nat) {
    forall f :: f in fs ==> f.size == tableBytes(f.entries)
  }

  /** The tables written so far, numbered in turn and rightly cut, beside the one in progress. */
  ghost predicate Writing(limits: Limits, input: seq<Entry>, firstNumber: nat, i: nat, done: nat, outputs: seq<File>,
                          builder: seq<Entry>)
  {
    && AllNonEmpty(outputs) && NumberedFrom(outputs, firstNumber) && Measured(outputs, limits.tableBytes)
    && Cutting(limits, input, i, done, Runs(outputs), builder)
  }

  lemma NothingWritten(limits: Limits, input: seq<Entry>, firstNumber: nat)
    ensures Writing(limits, input, firstNumber, 0, 0, [], [])
  {
    CutStart(limits, input);
    assert Runs([]) == [];
  }

  /** FinishCompactionOutputFile: record the table's bounds beside its contents. */
  function Finish(entries: seq<Entry>, number: nat, size: nat): File
    requires |entries| > 0
  {
    File(number, size, entries[0].key, entries[|entries| - 1].key, entries)
  }

  /** What the loop remembers of the entry before: its user key and sequence, if it parsed. */
  datatype LastKey = LastKey(has: bool, user: int, last: nat)

  ghost predicate Remembers(st: LastKey, es: seq<Entry>, i: nat)
    requires i <= |es|
  {
    if i > 0 && Parses(es[i - 1].key)
    then st.has && st.user == es[i - 1].key.user && st.last == es[i - 1].key.seqno
    else !st.has
  }

  /** One entry's fate. */
  method Decide(c: Compaction, ghost es: seq<Entry>, ghost i: nat, key: IKey, snap: nat, st: LastKey)
    returns (drop: bool, st': LastKey)
    requires c.Valid() && c.Behind(key.user)
    requires i < |es| && es[i].key == key && Remembers(st, es, i) && snap < MAX_SEQUENCE
    modifies c.levelPtrs
    ensures c.Valid() && c.Behind(key.user)
    ensures drop <==> Dropped(es, snap, c.version, c.level, i)
    ensures Remembers(st', es, i + 1)
  {
    drop := false;
    if !Parses(key) {
      return false, LastKey(false, 0, MAX_SEQUENCE);
    }
    var last := if !st.has || key.user != st.user then MAX_SEQUENCE else st.last;
    if last <= snap {
      drop := true;
    } else if key.kind == TYPE_DELETION && key.seqno <= snap {
      drop := c.IsBaseLevelForKey(key.user);
    }
    st' := LastKey(true, key.user, key.seqno);
  }

  /**
   The keep/drop loop.  `tableBytes` stands for the size of a table in progress, and
   `firstNumber` for the file numbers handed out to this compaction.
   */
  method DoCompactionWork(c: Compaction, input: seq<Entry>, snap: nat, firstNumber: nat,
                          tableBytes: seq<Entry> -> nat)
    returns (outputs: seq<File>)
    requires c.Valid() && c.Unused()
    requires Sorted(input) && snap < MAX_SEQUENCE
    modifies c, c.levelPtrs
    ensures Contents(outputs) == Kept(input, snap, c.version, c.level, |input|)
    ensures AllOk(outputs) && Disjoint(outputs) && NumberedFrom(outputs, firstNumber)
    ensures Measured(outputs, tableBytes) && WellCut(LimitsOf(c, tableBytes), input, Runs(outputs))
  {
    outputs := [];
    var builder: seq<Entry> := [];
    var st := LastKey(false, 0, MAX_SEQUENCE);
    ghost var limits := LimitsOf(c, tableBytes);
    assert Remembers(st, input, 0) && c.At(limits, input, 0);
    hide Writing, WellCut, Measured, Remembers, Dropped, AllOk, Disjoint, Kept, Contents, AllNonEmpty, NumberedFrom;
    hide Less, Sorted, LimitsOf, Runs, Compaction.Valid, Compaction.Behind, Compaction.At;
    NothingYet(input, snap, c.version, c.level);
    NothingWritten(limits, input, firstNumber);
    for i := 0 to |input|
      invariant c.Valid() && c.At(limits, input, i)
      invariant i < |input| ==> c.Behind(input[i].key.user)
      invariant Remembers(st, input, i)
      invariant Contents(outputs) + builder == Kept(input, snap, c.version, c.level, i)
      invariant Writing(limits, input, firstNumber, i, i, outputs, builder)
    {
      outputs, builder, st := OneEntry(c, input, i, snap, st, outputs, builder, firstNumber, tableBytes);
    }
    outputs := CloseLast(limits, input, snap, c.version, c.level, outputs, builder, firstNumber, tableBytes);
  }

  /** One pass through the loop. */
  method OneEntry(c: Compaction, input: seq<Entry>, i: nat, snap: nat, st: LastKey, outputs: seq<File>,
                  builder: seq<Entry>, firstNumber: nat, tableBytes: seq<Entry> -> nat)
    returns (outputs': seq<File>, builder': seq<Entry>, st': LastKey)
    requires Sorted(input) && i < |input| && snap < MAX_SEQUENCE
    requires c.Valid() && c.At(LimitsOf(c, tableBytes), input, i) && c.Behind(input[i].key.user)
    requires Remembers(st, input, i) && Writing(LimitsOf(c, tableBytes), input, firstNumber, i, i, outputs, builder)
    requires Contents(outputs) + builder == Kept(input, snap, c.version, c.level, i)
    modifies c, c.levelPtrs
    ensures c.Valid() && c.At(LimitsOf(c, tableBytes), input, i + 1)
    ensures i + 1 < |input| ==> c.Behind(input[i + 1].key.user)
    ensures Remembers(st', input, i + 1)
    ensures Writing(LimitsOf(c, tableBytes), input, firstNumber, i + 1, i + 1, outputs', builder')
    ensures Contents(outputs') + builder' == Kept(input, snap, c.version, c.level, i + 1)
  {
    hide Writing, Remembers, Dropped, Kept, Contents, Less, Sorted, Compaction.Valid, Compaction.Behind, Compaction.At;
    var key := input[i].key;
    outputs', builder' := CutBefore(c, input, i, key, outputs, builder, firstNumber, tableBytes);
    var drop;
    drop, st' := Decide(c, input, i, key, snap, st);
    KeptStep(input, snap, c.version, c.level, i);
    BehindMore(c, input, i);
    if !drop {
      outputs', builder' := Keep(c, input, i, input[i], outputs', builder', firstNumber, tableBytes);
    } else {
      NotWritten(LimitsOf(c, tableBytes), input, firstNumber, i, outputs', builder');
    }
  }

  lemma NotWritten(limits: Limits, input: seq<Entry>, firstNumber: nat, i: nat, outputs: seq<File>, builder: seq<Entry>)
    requires Writing(limits, input, firstNumber, i, i + 1, outputs, builder)
    ensures Writing(limits, input, firstNumber, i + 1, i + 1, outputs, builder)
  {
    DropEntry(limits, input, i, Runs(outputs), builder);
  }


  /** The table in progress at the end becomes the last one. */
  method CloseLast(ghost limits: Limits, ghost input: seq<Entry>, ghost snap: nat, ghost v: Levels, ghost level: nat,
                   outputs: seq<File>, builder: seq<Entry>, firstNumber: nat, tableBytes: seq<Entry> -> nat)
    returns (outputs': seq<File>)
    requires limits.tableBytes == tableBytes && Sorted(input)
    requires Writing(limits, input, firstNumber, |input|, |input|, outputs, builder)
    requires Contents(outputs) + builder == Kept(input, snap, v, level, |input|)
    ensures Contents(outputs') == Kept(input, snap, v, level, |input|)
    ensures AllOk(outputs') && Disjoint(outputs') && NumberedFrom(outputs', firstNumber)
    ensures Measured(outputs', limits.tableBytes) && WellCut(limits, input, Runs(outputs'))
  {
    CutEnd(limits, input, Runs(outputs), builder);
    hide AllNonEmpty, Measured, NumberedFrom, Cutting, WellCut, Contents, Kept, Runs, Sorted, AllOk, Disjoint;
    outputs' := outputs;
    if builder != [] {
      var none;
      outputs', none := Close(outputs, builder, firstNumber, tableBytes);
    }
    assert Contents(outputs) + [] == Contents(outputs);
    KeptSorted(input, snap, v, level, |input|);
    RunsAreDisjoint(outputs');
  }

  lemma BehindMore(c: Compaction, es: seq<Entry>, i: nat)
    requires c.Valid() && Sorted(es) && i < |es| && c.Behind(es[i].key.user)
    ensures i + 1 < |es| ==> c.Behind(es[i + 1].key.user)
  {
    assert i + 1 < |es| ==> Less(es[i].key, es[i + 1].key);
  }

  lemma NothingYet(es: seq<Entry>, snap: nat, v: Levels, level: nat)
    ensures Contents([]) + [] == Kept(es, snap, v, level, 0)
  {
  }

  lemma KeptStep(es: seq<Entry>, snap: nat, v: Levels, level: nat, i: nat)
    requires i < |es|
    ensures Dropped(es, snap, v, level, i) ==> Kept(es, snap, v, level, i + 1) == Kept(es, snap, v, level, i)
    ensures !Dropped(es, snap, v, level, i) ==> Kept(es, snap, v, level, i + 1) == Kept(es, snap, v, level, i) + [es[i]]
  {
  }

  ghost predicate AllNonEmpty(fs: seq<File>) {
    forall f :: f in fs ==> |f.entries| > 0 && f == Finish(f.entries, f.number, f.size)
  }

  /** Close the table in progress where it overlaps enough grandparents. */
  method CutBefore(c: Compaction, ghost input: seq<Entry>, ghost i: nat, key: IKey, outputs: seq<File>,
                   builder: seq<Entry>, firstNumber: nat, tableBytes: seq<Entry> -> nat)
    returns (outputs': seq<File>, builder': seq<Entry>)
    requires c.Valid() && c.At(LimitsOf(c, tableBytes), input, i)
    requires Sorted(input) && i < |input| && key == input[i].key
    requires Writing(LimitsOf(c, tableBytes), input, firstNumber, i, i, outputs, builder)
    modifies c
    ensures c.Valid() && unchanged(c.levelPtrs) && forall u :: old(c.Behind(u)) ==> c.Behind(u)
    ensures c.At(LimitsOf(c, tableBytes), input, i + 1)
    ensures Contents(outputs') + builder' == Contents(outputs) + builder
    ensures Writing(LimitsOf(c, tableBytes), input, firstNumber, i, i + 1, outputs', builder')
  {
    hide AllNonEmpty, Measured, NumberedFrom, Contents, TotalFileSize, Less, WellFormed, Tracked, Cutting, Stop, Runs;
    ghost var limits := LimitsOf(c, tableBytes);
    ghost var index, seen, bytes := c.grandparentIndex, c.seenKey, c.overlappedBytes;
    outputs', builder' := outputs, builder;
    var stop := c.ShouldStopBefore(key);
    TrackStep(limits, input, i, index, seen, bytes, c.grandparentIndex);
    if stop && builder != [] {
      CutAtStop(limits, input, i, Runs(outputs), builder);
      outputs', builder' := Close(outputs, builder, firstNumber, tableBytes);
    } else {
      NoCut(limits, input, i, Runs(outputs), builder);
    }
  }

  /** Add an entry to the table in progress, and close it once it is large. */
  method Keep(c: Compaction, ghost input: seq<Entry>, ghost i: nat, e: Entry, outputs: seq<File>, builder: seq<Entry>,
              firstNumber: nat, tableBytes: seq<Entry> -> nat)
    returns (outputs': seq<File>, builder': seq<Entry>)
    requires Sorted(input) && i < |input| && e == input[i]
    requires Writing(LimitsOf(c, tableBytes), input, firstNumber, i, i + 1, outputs, builder)
    ensures Contents(outputs') + builder' == Contents(outputs) + builder + [e]
    ensures Writing(LimitsOf(c, tableBytes), input, firstNumber, i + 1, i + 1, outputs', builder')
  {
    hide AllNonEmpty, Measured, NumberedFrom, Contents, Cutting, Runs;
    AddEntry(LimitsOf(c, tableBytes), input, i, Runs(outputs), builder);
    outputs', builder' := outputs, builder + [e];
    if tableBytes(builder') >= c.maxOutputSize {
      outputs', builder' := Close(outputs, builder', firstNumber, tableBytes);
    }
  }

  method Close(outputs: seq<File>, builder: seq<Entry>, firstNumber: nat, tableBytes: seq<Entry> -> nat)
    returns (outputs': seq<File>, builder': seq<Entry>)
    requires builder != [] && AllNonEmpty(outputs) && NumberedFrom(outputs, firstNumber) && Measured(outputs, tableBytes)
    ensures AllNonEmpty(outputs') && NumberedFrom(outputs', firstNumber)
    ensures Contents(outputs') == Contents(outputs) + builder && builder' == []
    ensures Runs(outputs') == Runs(outputs) + [builder] && Measured(outputs', tableBytes)
  {
    var f := Finish(builder, firstNumber + |outputs|, tableBytes(builder));
    outputs', builder' := outputs + [f], [];
    assert outputs'[..|outputs'| - 1] == outputs;
  }

  /** Consecutive runs of one sorted sequence make disjoint tables. */
  lemma {:induction false} RunsAreDisjoint(fs: seq<File>)
    requires AllNonEmpty(fs) && Sorted(Contents(fs))
    ensures AllOk(fs) && Disjoint(fs)
    ensures forall f, e :: f in fs && e in f.entries ==> e in Contents(fs)
  {
    if fs != [] {
      var front, f := fs[..|fs| - 1], fs[|fs| - 1];
      assert fs == front + [f];
      var c := Contents(front);
      SortedParts(c, f.entries);
      assert f in fs;
      assert forall g :: g in front ==> g in fs;
      RunsAreDisjoint(front);
      forall i | 0 <= i < |front|
        ensures Less(fs[i].largest, f.smallest)
      {
        assert front[i] in front;
        var e := front[i].entries[|front[i].entries| - 1];
        assert e in c;
      }
    }
  }

  lemma SortedParts(a: seq<Entry>, b: seq<Entry>)
    requires Sorted(a + b)
    ensures Sorted(a) && Sorted(b)
    ensures forall x, y :: x in a && y in b ==> Less(x.key, y.key)
  {
    forall i, j | 0 <= i < j < |a|
      ensures Less(a[i].key, a[j].key)
    {
      assert (a + b)[i] == a[i] && (a + b)[j] == a[j];
    }
    forall i, j | 0 <= i < j < |b|
      ensures Less(b[i].key, b[j].key)
    {
      assert (a + b)[|a| + i] == b[i] && (a + b)[|a| + j] == b[j];
    }
    forall x, y | x in a && y in b
      ensures Less(x.key, y.key)
    {
      var i :| 0 <= i < |a| && a[i] == x;
      var j :| 0 <= j < |b| && b[j] == y;
      assert (a + b)[i] == x && (a + b)[|a| + j] == y;
    }
  }

  // ---- Reads before and after ----

  ghost predicate AllParse(es: seq<Entry>) {
    forall e :: e in es ==> Parses(e.key)
  }

  /** The entries whose type byte says nothing. The loop keeps them and forgets what came before. */
  ghost function Unparsed(es: seq<Entry>): set<Entry> {
    set e | e in es && !Parses(e.key)
  }

  /** Every read at `snap` or later reports the same. */
  ghost predicate SameReads(a: set<Entry>, b: set<Entry>, snap: nat) {
    forall u, s: nat :: s >= snap ==> Lookup(a, u, s) == Lookup(b, u, s)
  }

  /**
   No deletion marker is dropped while the newest older entry of its user key, among `rest`,
   is one a read would report.
   */
  ghost predicate NothingExposed(es: seq<Entry>, rest: set<Entry>, snap: nat, v: Levels, level: nat) {
    forall i, r :: 0 <= i < |es| && ObsoleteMarker(es, snap, v, level, i)
                   && IsNewest(rest, es[i].key.user, snap, r) && Less(es[i].key, r.key)
                   ==> OutcomeOf(r) == Missing
  }

  /** A parsed entry the loop keeps below an obsolete marker has an unparsed one between them. */
  lemma UnparsedBetween(es: seq<Entry>, snap: nat, v: Levels, level: nat, i: nat, j: nat)
    requires Sorted(es) && i < j < |es| && es[i].key.user == es[j].key.user
    requires ObsoleteMarker(es, snap, v, level, i)
    requires Parses(es[j].key) && !Hidden(es, snap, j)
    ensures es[j - 1] in Unparsed(es) && Less(es[i].key, es[j - 1].key) && Less(es[j - 1].key, es[j].key)
    ensures Visible(es[j - 1].key, es[j].key.user, snap)
  {
    assert i < j - 1 ==> Less(es[i].key, es[j - 1].key);
    assert es[j - 1] in es;
  }

  /** An input entry above an obsolete marker that a read at `snap` sees: the marker has an unparsed one right above it. */
  lemma UnparsedAbove(es: seq<Entry>, snap: nat, v: Levels, level: nat, i: nat, j: nat)
    requires Sorted(es) && j < i < |es| && es[i].key.user == es[j].key.user
    requires ObsoleteMarker(es, snap, v, level, i) && Visible(es[j].key, es[i].key.user, snap)
    ensures es[i - 1] in Unparsed(es) && Less(es[i - 1].key, es[i].key)
    ensures Visible(es[i - 1].key, es[i].key.user, snap)
  {
    assert j < i - 1 ==> Less(es[j].key, es[i - 1].key);
    assert es[i - 1] in es;
  }

  /** Then the newest unparsed entry, whatever else is counted with them, sorts before the marker. */
  lemma ShownAbove(es: seq<Entry>, snap: nat, v: Levels, level: nat, i: nat, j: nat, bad: set<Entry>, r: Entry)
    requires Sorted(es) && j < i < |es| && es[i].key.user == es[j].key.user
    requires ObsoleteMarker(es, snap, v, level, i) && Visible(es[j].key, es[i].key.user, snap)
    requires Unparsed(es) <= bad && IsNewest(bad, es[i].key.user, snap, r)
    ensures Less(r.key, es[i].key)
  {
    UnparsedAbove(es, snap, v, level, i, j);
    assert es[i - 1] in bad;
  }

  lemma InOrder(es: seq<Entry>, i: nat, j: nat)
    requires Sorted(es) && i < |es| && j < |es|
    ensures Less(es[i].key, es[j].key) <==> i < j
  {
  }

  lemma SurvivorIn(es: seq<Entry>, snap: nat, v: Levels, level: nat, i: nat)
    requires i < |es| && !Dropped(es, snap, v, level, i)
    ensures es[i] in Kept(es, snap, v, level, |es|)
  {
    KeptHolds(es, snap, v, level, |es|, es[i]);
  }

  lemma KeptSubset(es: seq<Entry>, snap: nat, v: Levels, level: nat)
    ensures SetOf(Kept(es, snap, v, level, |es|)) <= SetOf(es)
  {
    forall e | e in Kept(es, snap, v, level, |es|)
      ensures e in es
    {
      KeptHolds(es, snap, v, level, |es|, e);
    }
  }

  /** A newest visible entry is never hidden, so only the marker rule can drop it. */
  lemma NewestDroppedIsMarker(es: seq<Entry>, rest: set<Entry>, snap: nat, v: Levels, level: nat, u: int, s: nat, i: nat)
    requires Sorted(es) && i < |es| && s >= snap
    requires IsNewest(SetOf(es) + rest, u, s, es[i]) && Dropped(es, snap, v, level, i)
    ensures ObsoleteMarker(es, snap, v, level, i)
  {
    assert i > 0 ==> es[i - 1] in SetOf(es) + rest && Less(es[i - 1].key, es[i].key);
  }

  /** Unparsed entries are never dropped. */
  lemma UnparsedSurvive(es: seq<Entry>, snap: nat, v: Levels, level: nat, e: Entry)
    requires e in Unparsed(es)
    ensures e in Kept(es, snap, v, level, |es|)
  {
    var i :| 0 <= i < |es| && es[i] == e;
    SurvivorIn(es, snap, v, level, i);
  }

  /**
   Whatever is newest after the marker went is outside the inputs or unparsed, and the newest
   of those at `snap`.
   */
  lemma NextIsOutside(es: seq<Entry>, rest: set<Entry>, after: set<Entry>, snap: nat, v: Levels, level: nat,
                      u: int, s: nat, i: nat, r: Entry)
    requires Sorted(es) && i < |es| && s >= snap
    requires ObsoleteMarker(es, snap, v, level, i) && es[i].key.user == u
    requires after == SetOf(Kept(es, snap, v, level, |es|)) + rest
    requires IsNewest(after, u, s, r) && Less(es[i].key, r.key)
    ensures IsNewest(rest + Unparsed(es), u, snap, r)
  {
    assert Visible(r.key, u, snap);
    forall f | f in rest + Unparsed(es)
      ensures f in after
    {
      if f in Unparsed(es) {
        UnparsedSurvive(es, snap, v, level, f);
      }
    }
    if r !in rest + Unparsed(es) {
      KeptHolds(es, snap, v, level, |es|, r);
      var j :| 0 <= j < |es| && es[j] == r && !Dropped(es, snap, v, level, j);
      InOrder(es, i, j);
      assert r in es;
      UnparsedBetween(es, snap, v, level, i, j);
      assert es[j - 1] in after && Visible(es[j - 1].key, u, s);
    }
    forall f | f in rest + Unparsed(es) && Visible(f.key, u, snap)
      ensures f == r || Less(r.key, f.key)
    {
      assert f in after && Visible(f.key, u, s);
    }
  }

  /** The newest visible entry was dropped: it is a marker, and what remains reads as missing. */
  lemma DroppedNewest(es: seq<Entry>, rest: set<Entry>, snap: nat, v: Levels, level: nat, u: int, s: nat, i: nat)
    requires Sorted(es) && i < |es|
    requires NothingExposed(es, rest + Unparsed(es), snap, v, level) && s >= snap
    requires IsNewest(SetOf(es) + rest, u, s, es[i]) && Dropped(es, snap, v, level, i)
    requires KeysDistinct(SetOf(Kept(es, snap, v, level, |es|)) + rest)
    ensures OutcomeOf(es[i]) == Missing
    ensures Lookup(SetOf(Kept(es, snap, v, level, |es|)) + rest, u, s) == Missing
  {
    NewestDroppedIsMarker(es, rest, snap, v, level, u, s, i);
    var after := SetOf(Kept(es, snap, v, level, |es|)) + rest;
    if y :| y in after && Visible(y.key, u, s) {
      var r := NewestExists(after, u, s, y);
      LookupIs(after, u, s, r);
      assert r in SetOf(es) + rest by { KeptSubset(es, snap, v, level); }
      if r != es[i] {
        NextIsOutside(es, rest, after, snap, v, level, u, s, i, r);
      }
    } else {
      LookupMissing(after, u, s);
    }
  }

  lemma ReadUnchanged(es: seq<Entry>, rest: set<Entry>, snap: nat, v: Levels, level: nat, u: int, s: nat)
    requires Sorted(es) && KeysDistinct(SetOf(es) + rest)
    requires NothingExposed(es, rest + Unparsed(es), snap, v, level) && s >= snap
    ensures Lookup(SetOf(es) + rest, u, s) == Lookup(SetOf(Kept(es, snap, v, level, |es|)) + rest, u, s)
  {
    var before, after := SetOf(es) + rest, SetOf(Kept(es, snap, v, level, |es|)) + rest;
    KeptSubset(es, snap, v, level);
    if x :| x in before && Visible(x.key, u, s) {
      var e := NewestExists(before, u, s, x);
      LookupIs(before, u, s, e);
      if e in after {
        LookupIs(after, u, s, e);
      } else {
        var i :| 0 <= i < |es| && es[i] == e;
        if !Dropped(es, snap, v, level, i) { SurvivorIn(es, snap, v, level, i); }
        DroppedNewest(es, rest, snap, v, level, u, s, i);
      }
    } else {
      LookupMissing(before, u, s);
      LookupMissing(after, u, s);
    }
  }

  /** The marker is the newest entry of its key at `snap` when one it hides is the newest outside and unparsed. */
  lemma MarkerIsNewest(es: seq<Entry>, rest: set<Entry>, snap: nat, v: Levels, level: nat, i: nat, r: Entry)
    requires Sorted(es) && i < |es| && ObsoleteMarker(es, snap, v, level, i)
    requires IsNewest(rest + Unparsed(es), es[i].key.user, snap, r) && Less(es[i].key, r.key)
    ensures IsNewest(SetOf(es) + rest, es[i].key.user, snap, es[i])
  {
    var u := es[i].key.user;
    assert es[i] in es;
    forall f | f in SetOf(es) + rest && Visible(f.key, u, snap)
      ensures f == es[i] || Less(es[i].key, f.key)
    {
      if f in rest {
        assert f in rest + Unparsed(es);
      } else {
        var j :| 0 <= j < |es| && es[j] == f;
        if j < i {
          ShownAbove(es, snap, v, level, i, j, rest + Unparsed(es), r);
        }
      }
    }
  }

  /** With the marker gone, the entry it hid is the newest. */
  lemma HiddenIsNewest(es: seq<Entry>, rest: set<Entry>, snap: nat, v: Levels, level: nat, i: nat, r: Entry)
    requires Sorted(es) && i < |es| && ObsoleteMarker(es, snap, v, level, i)
    requires IsNewest(rest + Unparsed(es), es[i].key.user, snap, r) && Less(es[i].key, r.key)
    ensures IsNewest(SetOf(Kept(es, snap, v, level, |es|)) + rest, es[i].key.user, snap, r)
  {
    var u, kept := es[i].key.user, Kept(es, snap, v, level, |es|);
    if r in Unparsed(es) {
      UnparsedSurvive(es, snap, v, level, r);
    }
    MarkerIsNewest(es, rest, snap, v, level, i, r);
    forall f | f in SetOf(kept) + rest && Visible(f.key, u, snap)
      ensures f == r || Less(r.key, f.key)
    {
      if f !in rest + Unparsed(es) {
        KeptHolds(es, snap, v, level, |es|, f);
        var j :| 0 <= j < |es| && es[j] == f && !Dropped(es, snap, v, level, j);
        assert f in SetOf(es) + rest && f in es;
        InOrder(es, i, j);
        UnparsedBetween(es, snap, v, level, i, j);
        assert es[j - 1] in rest + Unparsed(es);
      }
    }
  }

  /**
   Compaction preserves every read at the oldest live snapshot and later exactly when no
   dropped deletion marker still had a reportable entry beneath it, be it outside the inputs
   or an input whose type byte does not parse.
   */
  lemma ReadsPreservedIff(es: seq<Entry>, rest: set<Entry>, snap: nat, v: Levels, level: nat)
    requires Sorted(es) && KeysDistinct(SetOf(es) + rest)
    ensures SameReads(SetOf(es) + rest, SetOf(Kept(es, snap, v, level, |es|)) + rest, snap)
            <==> NothingExposed(es, rest + Unparsed(es), snap, v, level)
  {
    var before, after := SetOf(es) + rest, SetOf(Kept(es, snap, v, level, |es|)) + rest;
    if NothingExposed(es, rest + Unparsed(es), snap, v, level) {
      forall u, s: nat | s >= snap
        ensures Lookup(before, u, s) == Lookup(after, u, s)
      {
        ReadUnchanged(es, rest, snap, v, level, u, s);
      }
    } else {
      var i: nat, r :| i < |es| && ObsoleteMarker(es, snap, v, level, i)
                  && IsNewest(rest + Unparsed(es), es[i].key.user, snap, r) && Less(es[i].key, r.key)
                  && OutcomeOf(r) != Missing;
      MarkerIsNewest(es, rest, snap, v, level, i, r);
      HiddenIsNewest(es, rest, snap, v, level, i, r);
      LookupIs(before, es[i].key.user, snap, es[i]);
      LookupIs(after, es[i].key.user, snap, r);
    }
  }
}
