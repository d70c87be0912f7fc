/**
 The two input sets of a compaction from `level` to `level + 1`, and what picking them
 this way guarantees about the files left behind (db/version_set.cc).
 */
module CompactionSetup {
  import opened Entries
  import opened Versions
  import opened CompactionInputs

  ghost predicate IsSmallest(fs: seq<File>, k: IKey) {
    && (exists f :: f in fs && f.smallest == k)
    && (forall f :: f in fs ==> AtMost(k, f.smallest))
  }

  method GetRange(fs: seq<File>) returns (smallest: IKey, largest: IKey)
    requires fs != []
    ensures IsSmallest(fs, smallest) && IsLargest(fs, largest)
  {
    smallest := fs[0].smallest;
    for i := 1 to |fs|
      invariant IsSmallest(fs[..i], smallest)
    {
      assert fs[..i + 1] == fs[..i] + [fs[i]];
      if Less(fs[i].smallest, smallest) {
        smallest := fs[i].smallest;
      }
    }
    assert fs[..|fs|] == fs;
    largest := FindLargestKey(fs);
  }

  /** A legal starting pick: a run of a sorted level, or an overlap-closed part of level zero. */
  ghost predicate Chosen(v: Levels, level: nat, picked: seq<File>, a: nat)
    requires level < |v|
  {
    && picked != []
    && (level > 0 ==> IsRun(v[level], a, picked))
    && (level == 0 ==> exists lo, hi :: Closed(v[0], lo, hi) && picked == Overlapping(v[0], lo, hi))
  }

  /** No file of the level starts inside the last user key picked. */
  ghost predicate NoBoundaryLeft(fs: seq<File>, picked: seq<File>) {
    exists k :: IsLargest(picked, k) && forall f :: f in fs ==> !Boundary(f, k)
  }

  lemma ChosenFromLevel(v: Levels, level: nat, picked: seq<File>, a: nat)
    requires level < |v| && Chosen(v, level, picked, a)
    ensures forall f :: f in picked ==> f in v[level]
  {
    if level == 0 {
      var lo, hi :| Closed(v[0], lo, hi) && picked == Overlapping(v[0], lo, hi);
      forall f | f in picked
        ensures f in v[0]
      {
        OverlappingHolds(v[0], lo, hi, f);
      }
    }
  }

  /** On level zero an overlap-closed pick has no boundary files to add. */
  lemma ClosedHasNoBoundary(v: Levels, picked: seq<File>, f: File, k: IKey)
    requires |v| > 0 && AllOk(v[0]) && Chosen(v, 0, picked, 0)
    requires f in v[0] && IsLargest(picked, k)
    ensures !Boundary(f, k)
  {
    var lo, hi :| Closed(v[0], lo, hi) && picked == Overlapping(v[0], lo, hi);
    var h :| h in picked && h.largest == k;
    OverlappingHolds(v[0], lo, hi, h);
    OverlappingHolds(v[0], lo, hi, f);
    FileCovers(f, f.entries[0]);
    FileCovers(h, h.entries[0]);
  }

  method WithBoundary(v: Levels, level: nat, picked: seq<File>, ghost a: nat) returns (r: seq<File>)
    requires WellFormed(v) && level < |v| && Chosen(v, level, picked, a)
    ensures picked <= r && Chosen(v, level, r, a) && NoBoundaryLeft(v[level], r) && AddedInTurn(v[level], picked, r)
  {
    ChosenFromLevel(v, level, picked, a);
    r := AddBoundaryInputs(v[level], picked, a);
    if level == 0 {
      assert Chosen(v, 0, picked, 0);
      forall f, k | f in v[0] && IsLargest(picked, k)
        ensures !Boundary(f, k)
      {
        ClosedHasNoBoundary(v, picked, f, k);
      }
    }
  }

  /** What the two sets are tied to: the picked files' user-key range selects all of level + 1. */
  ghost predicate Planned(v: Levels, level: nat, in0: seq<File>, in1: seq<File>, a: nat, lo: IKey, hi: IKey)
    requires level + 1 < |v|
  {
    && Chosen(v, level, in0, a) && NoBoundaryLeft(v[level], in0)
    && IsSmallest(in0, lo) && IsLargest(in0, hi)
    && in1 == Overlapping(v[level + 1], At(lo.user), At(hi.user))
  }

  /** The two input sets belong together. */
  ghost predicate PlannedInputs(v: Levels, level: nat, in0: seq<File>, in1: seq<File>)
    requires level + 1 < |v|
  {
    exists a, lo, hi :: Planned(v, level, in0, in1, a, lo, hi)
  }

  /** Files inside a range overlap it. */
  lemma CoveredOverlaps(fs: seq<File>, lo: IKey, hi: IKey, f: File)
    requires AllOk(fs) && f in fs && AtMost(lo, f.smallest) && AtMost(f.largest, hi)
    ensures Overlaps(f, At(lo.user), At(hi.user))
  {
    FileCovers(f, f.entries[0]);
  }

  lemma OverlapsMore(f: File, lo: Bound, hi: Bound, lo2: Bound, hi2: Bound)
    requires Overlaps(f, lo, hi) && Within(lo, hi, lo2, hi2)
    ensures Overlaps(f, lo2, hi2)
  {
  }

  /** Every file of the level over a range; on level zero with all they overlap through others. */
  ghost predicate Reached(v: Levels, level: nat, lo: IKey, hi: IKey, r: seq<File>)
    requires level < |v|
  {
    if level == 0 then OverlapClosure(v[0], At(lo.user), At(hi.user), r)
    else r == Overlapping(v[level], At(lo.user), At(hi.user))
  }

  /** The level set over the whole range of both sets, with its boundary files. */
  ghost predicate Expanded(v: Levels, level: nat, base: seq<File>, in1: seq<File>, r: seq<File>)
    requires level < |v|
  {
    exists lo, hi, x ::
      && IsSmallest(base + in1, lo) && IsLargest(base + in1, hi) && Reached(v, level, lo, hi, x)
      && AddedInTurn(v[level], x, r) && NoBoundaryLeft(v[level], r)
  }

  /** The set's range selects as many files of the next level. */
  ghost predicate SelectsAsMany(v: Levels, level: nat, r: seq<File>, in1: seq<File>)
    requires level + 1 < |v|
  {
    exists lo, hi :: IsSmallest(r, lo) && IsLargest(r, hi) && |Overlapping(v[level + 1], At(lo.user), At(hi.user))| == |in1|
  }

  lemma SelectsOne(v: Levels, level: nat, r: seq<File>, in1: seq<File>, lo: IKey, hi: IKey)
    requires level + 1 < |v| && IsSmallest(r, lo) && IsLargest(r, hi)
    ensures SelectsAsMany(v, level, r, in1) <==> |Overlapping(v[level + 1], At(lo.user), At(hi.user))| == |in1|
  {
    hide Overlapping;
    if SelectsAsMany(v, level, r, in1) {
      var lo2, hi2 :| IsSmallest(r, lo2) && IsLargest(r, hi2) && |Overlapping(v[level + 1], At(lo2.user), At(hi2.user))| == |in1|;
      SameEnds(r, lo, hi, lo2, hi2);
    }
  }

  lemma SameEnds(r: seq<File>, lo: IKey, hi: IKey, lo2: IKey, hi2: IKey)
    requires IsSmallest(r, lo) && IsLargest(r, hi) && IsSmallest(r, lo2) && IsLargest(r, hi2)
    ensures lo == lo2 && hi == hi2
  {
  }

  /** The expansion pays: more files, not too many bytes, and the same selection on the next level. */
  ghost predicate Pays(v: Levels, level: nat, base: seq<File>, in1: seq<File>, wide: seq<File>, limit: nat)
    requires level + 1 < |v|
  {
    && in1 != [] && |wide| > |base| && TotalFileSize(in1) + TotalFileSize(wide) < limit
    && SelectsAsMany(v, level, wide, in1)
  }

  /** Select every file of the level over a range that already holds a legal pick. */
  method Expand(v: Levels, level: nat, in0: seq<File>, lo: IKey, hi: IKey, ghost a: nat)
    returns (r: seq<File>, ghost a': nat)
    requires WellFormed(v) && level < |v| && Chosen(v, level, in0, a)
    requires forall f :: f in in0 ==> AtMost(lo, f.smallest) && AtMost(f.largest, hi)
    ensures Chosen(v, level, r, a') && Reached(v, level, lo, hi, r)
    ensures forall f :: f in in0 ==> f in r
  {
    hide Overlapping, Overlaps, Closed, Less, Layered, LevelZeroOk;
    ChosenFromLevel(v, level, in0, a);
    ghost var l, h;
    r, l, h := GetOverlappingInputs(v[level], level == 0, At(lo.user), At(hi.user));
    forall f | f in in0
      ensures f in r
    {
      CoveredOverlaps(v[level], lo, hi, f);
      OverlapsMore(f, At(lo.user), At(hi.user), l, h);
      OverlappingHolds(v[level], l, h, f);
    }
    assert in0[0] in r;
    a' := 0;
    if level > 0 {
      DisjointAscends(v[level]);
      ghost var x, y := OverlapIsRun(v[level], l, h);
      a' := x;
    }
  }

  /** The level + 1 files a settled level set drags in. */
  method SelectNext(v: Levels, level: nat, in0: seq<File>, ghost a: nat)
    returns (in1: seq<File>, smallest: IKey, largest: IKey)
    requires WellFormed(v) && level + 1 < NUM_LEVELS
    requires Chosen(v, level, in0, a) && NoBoundaryLeft(v[level], in0)
    ensures Planned(v, level, in0, in1, a, smallest, largest)
  {
    smallest, largest := GetRange(in0);
    ghost var l, h;
    in1, l, h := GetOverlappingInputs(v[level + 1], false, At(smallest.user), At(largest.user));
  }

  /** Equal size of a superset forces equality. */
  lemma SameSelection(v: Levels, level: nat, base: seq<File>, in1: seq<File>, a: nat, lo: IKey, hi: IKey,
                      in0: seq<File>, in1': seq<File>, a': nat, lo': IKey, hi': IKey)
    requires level + 1 < |v|
    requires Planned(v, level, base, in1, a, lo, hi) && Planned(v, level, in0, in1', a', lo', hi')
    requires forall f :: f in base ==> f in in0
    ensures |in1| == |in1'| ==> in1 == in1'
  {
    RangeGrows(base, in0, lo, hi, lo', hi');
    WiderPicksMore(v[level + 1], At(lo.user), At(hi.user), At(lo'.user), At(hi'.user));
  }

  method ExpandAndSettle(v: Levels, level: nat, base: seq<File>, in1: seq<File>, ghost a: nat)
    returns (r: seq<File>, ghost a': nat)
    requires WellFormed(v) && level < |v| && Chosen(v, level, base, a)
    ensures Chosen(v, level, r, a') && NoBoundaryLeft(v[level], r) && Expanded(v, level, base, in1, r)
    ensures forall f :: f in base ==> f in r
  {
    hide Reached, AddedInTurn, Chosen, NoBoundaryLeft;
    NotNone(v, level, base, a);
    var allStart, allLimit := GetRange(base + in1);
    r, a' := Expand(v, level, base, allStart, allLimit, a);
    ghost var x := r;
    r := WithBoundary(v, level, r, a');
    assert Reached(v, level, allStart, allLimit, x);
  }

  lemma NotNone(v: Levels, level: nat, picked: seq<File>, a: nat)
    requires level < |v| && Chosen(v, level, picked, a)
    ensures picked != []
  {
  }

  /**
   Grow the level set to everything inside the whole range, when that stays small and finds
   equally many level + 1 files.
   */
  method TryGrow(v: Levels, level: nat, base: seq<File>, in1: seq<File>, lo: IKey, hi: IKey, expandLimit: nat, ghost a: nat)
    returns (in0: seq<File>, in1': seq<File>, ghost a': nat, ghost lo': IKey, ghost hi': IKey, ghost wide: seq<File>)
    requires WellFormed(v) && level + 1 < NUM_LEVELS && Planned(v, level, base, in1, a, lo, hi) && in1 != []
    ensures Planned(v, level, in0, in1', a', lo', hi') && |in1'| == |in1|
    ensures forall f :: f in base ==> f in in0
    ensures Expanded(v, level, base, in1, wide)
    ensures in0 == if Pays(v, level, base, in1, wide, expandLimit) then wide else base
  {
    hide Expanded, SelectsAsMany, Chosen, NoBoundaryLeft, TotalFileSize, Overlapping;
    in0, in1', a', lo', hi' := base, in1, a, lo, hi;
    var expanded0;
    ghost var x;
    expanded0, x := ExpandAndSettle(v, level, base, in1, a);
    wide := expanded0;
    if |expanded0| > |base| && TotalFileSize(in1) + TotalFileSize(expanded0) < expandLimit {
      var expanded1, newStart, newLimit := SelectNext(v, level, expanded0, x);
      SelectsOne(v, level, expanded0, in1, newStart, newLimit);
      if |expanded1| == |in1| {
        in0, in1', a', lo', hi' := expanded0, expanded1, x, newStart, newLimit;
      }
    }
  }

  /**
   The input sets of a compaction.  Whether or not the level set grew, `in1` is also what
   the ungrown pick `base` selects on level + 1.
   */
  method SetupOtherInputs(v: Levels, level: nat, picked: seq<File>, expandLimit: nat, ghost a: nat)
    returns (in0: seq<File>, in1: seq<File>, ghost a': nat, ghost lo: IKey, ghost hi: IKey,
             ghost base: seq<File>, ghost baseLo: IKey, ghost baseHi: IKey, ghost wide: seq<File>)
    requires WellFormed(v) && level + 1 < NUM_LEVELS && Chosen(v, level, picked, a)
    ensures Planned(v, level, in0, in1, a', lo, hi)
    ensures picked <= base && Planned(v, level, base, in1, a, baseLo, baseHi)
    ensures forall f :: f in base ==> f in in0
    ensures PlannedInputs(v, level, in0, in1) && forall f :: f in picked ==> f in in0
    ensures AddedInTurn(v[level], picked, base)
    ensures in1 != [] ==> Expanded(v, level, base, in1, wide)
    ensures in0 == if Pays(v, level, base, in1, wide, expandLimit) then wide else base
  {
    hide Expanded, SelectsAsMany, Chosen, NoBoundaryLeft, TotalFileSize, Overlapping, AddedInTurn;
    var smallest, largest;
    in0 := WithBoundary(v, level, picked, a);
    in1, smallest, largest := SelectNext(v, level, in0, a);
    a', lo, hi, base, baseLo, baseHi, wide := a, smallest, largest, in0, smallest, largest, in0;
    if in1 != [] {
      ghost var in1Base := in1;
      in0, in1, a', lo, hi, wide := TryGrow(v, level, in0, in1, smallest, largest, expandLimit, a);
      SameSelection(v, level, base, in1Base, a, baseLo, baseHi, in0, in1, a', lo, hi);
    }
  }

  lemma RangeGrows(small: seq<File>, big: seq<File>, lo: IKey, hi: IKey, lo': IKey, hi': IKey)
    requires forall f :: f in small ==> f in big
    requires IsSmallest(small, lo) && IsLargest(small, hi) && IsSmallest(big, lo') && IsLargest(big, hi')
    ensures lo'.user <= lo.user && hi.user <= hi'.user
  {
  }

  // ---- Where picks come from ----

  datatype MaybeKey = NoKey | Key(key: IKey)

  predicate PastPointer(f: File, pointer: MaybeKey) {
    pointer.NoKey? || Less(pointer.key, f.largest)
  }

  /** File `i` is the first one past the pointer, or the first of all when none is. */
  ghost predicate NextInTurn(fs: seq<File>, pointer: MaybeKey, i: nat)
    requires i < |fs|
  {
    if PastPointer(fs[i], pointer) then forall j :: 0 <= j < i ==> !PastPointer(fs[j], pointer)
    else i == 0 && forall j :: 0 <= j < |fs| ==> !PastPointer(fs[j], pointer)
  }

  /** Above level zero the file alone, on level zero everything it overlaps directly or through others. */
  ghost predicate PickedFor(v: Levels, level: nat, i: nat, picked: seq<File>)
    requires level < |v| && i < |v[level]|
  {
    var f := v[level][i];
    if level > 0 then picked == [f] else OverlapClosure(v[0], At(f.smallest.user), At(f.largest.user), picked)
  }

  lemma RangeOfOne(f: File, smallest: IKey, largest: IKey)
    requires IsSmallest([f], smallest) && IsLargest([f], largest)
    ensures smallest == f.smallest && largest == f.largest
    ensures AtMost(smallest, f.smallest) && AtMost(f.largest, largest)
  {
  }

  /** A size-triggered pick: the first file past the compaction pointer, or wrap around. */
  method PickCompaction(v: Levels, level: nat, pointer: MaybeKey) returns (picked: seq<File>, ghost a: nat)
    requires WellFormed(v) && level + 1 < NUM_LEVELS && v[level] != []
    ensures Chosen(v, level, picked, a)
    ensures exists i: nat :: i < |v[level]| && NextInTurn(v[level], pointer, i) && PickedFor(v, level, i, picked)
  {
    hide Overlapping, Overlaps, Closed, PastPointer, IsSmallest, IsLargest, Less, Layered, LevelZeroOk, Disjoint, FileOk;
    var i: nat := 0;
    while i < |v[level]| && !PastPointer(v[level][i], pointer)
      invariant i <= |v[level]|
      invariant forall j :: 0 <= j < i ==> !PastPointer(v[level][j], pointer)
    {
      i := i + 1;
    }
    if i == |v[level]| {
      i := 0;
    }
    assert NextInTurn(v[level], pointer, i);
    var f := v[level][i];
    picked, a := [f], i;
    assert v[level][i..i + 1] == [f];
    if level == 0 {
      var smallest, largest := GetRange(picked);
      RangeOfOne(f, smallest, largest);
      ghost var lo, hi;
      picked, lo, hi := GetOverlappingInputs(v[0], true, At(smallest.user), At(largest.user));
      CoveredOverlaps(v[0], smallest, largest, f);
      OverlapsMore(f, At(smallest.user), At(largest.user), lo, hi);
      OverlappingHolds(v[0], lo, hi, f);
    }
  }

  /** A manual compaction: everything overlapping the range, cut short above level zero. */
  method CompactRange(v: Levels, level: nat, begin: Bound, end: Bound, limit: nat)
    returns (picked: seq<File>, ghost a: nat)
    requires WellFormed(v) && level + 1 < NUM_LEVELS
    ensures picked != [] ==> Chosen(v, level, picked, a)
    ensures level == 0 ==> OverlapClosure(v[0], begin, end, picked)
    ensures level > 0 ==> CutAt(Overlapping(v[level], begin, end), picked, limit)
  {
    ghost var lo, hi;
    picked, lo, hi := GetOverlappingInputs(v[level], level == 0, begin, end);
    a := 0;
    if level > 0 {
      DisjointAscends(v[level]);
      ghost var b;
      a, b := OverlapIsRun(v[level], lo, hi);
      picked := CutShort(v[level], picked, limit, a);
    }
  }

  /** `r` is the shortest prefix of `all` that reaches the limit, or all of it when none does. */
  ghost predicate CutAt(all: seq<File>, r: seq<File>, limit: nat) {
    && r <= all
    && (all != [] ==> r != [])
    && (r != all ==> TotalFileSize(r) >= limit)
    && (forall n: nat :: 0 < n < |r| ==> TotalFileSize(r[..n]) < limit)
  }

  /** Keep the shortest prefix that reaches the size limit. */
  method CutShort(fs: seq<File>, picked: seq<File>, limit: nat, ghost a: nat) returns (r: seq<File>)
    requires IsRun(fs, a, picked)
    ensures IsRun(fs, a, r) && CutAt(picked, r, limit)
  {
    var total := 0;
    for i := 0 to |picked|
      invariant total == TotalFileSize(picked[..i])
      invariant forall n: nat :: 0 < n <= i ==> TotalFileSize(picked[..n]) < limit
    {
      SizeAppend(picked[..i], picked[i]);
      assert picked[..i + 1] == picked[..i] + [picked[i]];
      total := total + picked[i].size;
      if total >= limit {
        RunPrefix(fs, a, picked, i + 1);
        r := picked[..i + 1];
        forall n: nat | 0 < n < |r|
          ensures TotalFileSize(r[..n]) < limit
        {
          assert r[..n] == picked[..n];
        }
        return;
      }
    }
    r := picked;
  }

  lemma RunPrefix(fs: seq<File>, a: nat, picked: seq<File>, n: nat)
    requires IsRun(fs, a, picked) && n <= |picked|
    ensures IsRun(fs, a, picked[..n])
  {
    forall j | 0 <= j < n
      ensures picked[j] == fs[a + j]
    {
      assert fs[a..a + |picked|][j] == fs[a + j];
    }
    assert picked[..n] == fs[a..a + n];
  }

  // ---- What the plan guarantees ----

  /** Whatever stays behind on the level is newer than what moves, key by key. */
  ghost predicate NothingOlderStays(fs: seq<File>, in0: seq<File>) {
    forall f, g :: f in in0 && g in fs && g !in in0 ==> Newer(g, f)
  }

  /** Each unpicked file lies wholly before or wholly after everything picked. */
  ghost predicate LeavesGap(fs: seq<File>, in0: seq<File>, in1: seq<File>) {
    forall g :: g in fs && g !in in1 ==>
                  (forall f :: f in in0 + in1 ==> Less(g.largest, f.smallest))
                  || (forall f :: f in in0 + in1 ==> Less(f.largest, g.smallest))
  }

  lemma OlderMovesFirst(v: Levels, level: nat, in0: seq<File>, a: nat)
    requires WellFormed(v) && level < NUM_LEVELS
    requires Chosen(v, level, in0, a) && NoBoundaryLeft(v[level], in0)
    ensures NothingOlderStays(v[level], in0)
  {
    forall f, g | f in in0 && g in v[level] && g !in in0
      ensures Newer(g, f)
    {
      if level == 0 {
        ZeroShareNothing(v, in0, f, g);
      } else {
        RunNeighbour(v[level], in0, a, f, g);
      }
    }
  }

  lemma ZeroShareNothing(v: Levels, in0: seq<File>, f: File, g: File)
    requires WellFormed(v) && Chosen(v, 0, in0, 0)
    requires f in in0 && g in v[0] && g !in in0
    ensures Newer(g, f)
  {
    var lo, hi :| Closed(v[0], lo, hi) && in0 == Overlapping(v[0], lo, hi);
    OverlappingHolds(v[0], lo, hi, f);
    OverlappingHolds(v[0], lo, hi, g);
    forall e, d | e in g.entries && d in f.entries
      ensures e.key.user != d.key.user
    {
      FileCovers(g, e);
      FileCovers(f, d);
    }
  }

  lemma RunMembers(fs: seq<File>, a: nat, picked: seq<File>)
    requires IsRun(fs, a, picked)
    ensures forall j :: a <= j < a + |picked| ==> fs[j] in picked
  {
    forall j | a <= j < a + |picked|
      ensures fs[j] in picked
    {
      assert picked[j - a] == fs[j];
    }
  }

  lemma RunNeighbour(fs: seq<File>, in0: seq<File>, a: nat, f: File, g: File)
    requires AllOk(fs) && Disjoint(fs) && IsRun(fs, a, in0) && NoBoundaryLeft(fs, in0)
    requires f in in0 && g in fs && g !in in0
    ensures Newer(g, f)
  {
    var b := a + |in0|;
    var k :| IsLargest(in0, k) && forall h :: h in fs ==> !Boundary(h, k);
    RunLargest(fs, a, in0, k);
    LargestAscending(fs);
    var x :| 0 <= x < |in0| && in0[x] == f;
    assert fs[a + x] == f;
    var j :| 0 <= j < |fs| && fs[j] == g;
    RunMembers(fs, a, in0);
    assert j < a || b <= j;
    assert j < a ==> Less(g.largest, f.smallest);
    assert b <= j ==> Less(fs[b - 1].largest, g.smallest) && AtMost(f.largest, k);
    forall e, d | e in g.entries && d in f.entries && e.key.user == d.key.user
      ensures Less(e.key, d.key)
    {
      FileCovers(g, e);
      FileCovers(f, d);
    }
  }

  lemma UnpickedLieApart(v: Levels, level: nat, in0: seq<File>, in1: seq<File>, a: nat, lo: IKey, hi: IKey)
    requires WellFormed(v) && level + 1 < NUM_LEVELS && Planned(v, level, in0, in1, a, lo, hi)
    ensures LeavesGap(v[level + 1], in0, in1)
  {
    hide Less, Layered, LevelZeroOk, Chosen, NoBoundaryLeft, Overlapping;
    var fs := v[level + 1];
    forall g, f | g in fs && g !in in1 && f in in0 + in1
      ensures BeforeRange(g, At(lo.user)) ==> Less(g.largest, f.smallest)
      ensures AfterRange(g, At(hi.user)) ==> Less(f.largest, g.smallest)
    {
      OverlappingHolds(fs, At(lo.user), At(hi.user), f);
      OverlappingHolds(fs, At(lo.user), At(hi.user), g);
      if f in in1 {
        BesideRange(fs, At(lo.user), At(hi.user), f, g);
      } else {
        OutsideOrder(lo, hi, f, g);
      }
    }
    forall g | g in fs && g !in in1
      ensures BeforeRange(g, At(lo.user)) || AfterRange(g, At(hi.user))
    {
      OverlappingHolds(fs, At(lo.user), At(hi.user), g);
    }
  }

  /** Of two files of a sorted level, the one outside a range lies on its own side of the one inside. */
  lemma BesideRange(fs: seq<File>, lo: Bound, hi: Bound, f: File, g: File)
    requires AllOk(fs) && Disjoint(fs) && f in fs && g in fs && Overlaps(f, lo, hi)
    ensures BeforeRange(g, lo) ==> Less(g.largest, f.smallest)
    ensures AfterRange(g, hi) ==> Less(f.largest, g.smallest)
  {
    FileCovers(g, g.entries[0]);
    FileCovers(f, f.entries[0]);
    var i :| 0 <= i < |fs| && fs[i] == f;
    var j :| 0 <= j < |fs| && fs[j] == g;
    assert i < j ==> Less(fs[i].largest, fs[j].smallest);
    assert j < i ==> Less(fs[j].largest, fs[i].smallest);
  }

  lemma OutsideOrder(lo: IKey, hi: IKey, f: File, g: File)
    requires AtMost(lo, f.smallest) && AtMost(f.largest, hi)
    ensures BeforeRange(g, At(lo.user)) ==> Less(g.largest, f.smallest)
    ensures AfterRange(g, At(hi.user)) ==> Less(f.largest, g.smallest)
  {
  }
}
