/**
 Choosing what a compaction reads: the overlap search with its level-zero widening, the
 boundary files, and the two input sets (db/version_set.cc).
 */
module CompactionInputs {
  import opened Entries
  import opened Versions

  /** A user-key bound that may be absent. */
  datatype Bound = Open | At(user: int)

  predicate BeforeRange(f: File, lo: Bound) {
    lo.At? && f.largest.user < lo.user
  }

  predicate AfterRange(f: File, hi: Bound) {
    hi.At? && f.smallest.user > hi.user
  }

  predicate Overlaps(f: File, lo: Bound, hi: Bound) {
    !BeforeRange(f, lo) && !AfterRange(f, hi)
  }

  ghost function Overlapping(fs: seq<File>, lo: Bound, hi: Bound): seq<File> {
    if fs == [] then []
    else
      var front, f := fs[..|fs| - 1], fs[|fs| - 1];
      Overlapping(front, lo, hi) + if Overlaps(f, lo, hi) then [f] else []
  }

  lemma {:induction false} OverlappingHolds(fs: seq<File>, lo: Bound, hi: Bound, f: File)
    ensures f in Overlapping(fs, lo, hi) <==> f in fs && Overlaps(f, lo, hi)
  {
    if fs != [] {
      assert fs == fs[..|fs| - 1] + [fs[|fs| - 1]];
      OverlappingHolds(fs[..|fs| - 1], lo, hi, f);
    }
  }

  /** A wider range picks a supersequence; picking equally many means picking the same files. */
  lemma {:induction false} WiderPicksMore(fs: seq<File>, lo: Bound, hi: Bound, lo': Bound, hi': Bound)
    requires forall f :: f in fs && Overlaps(f, lo, hi) ==> Overlaps(f, lo', hi')
    ensures |Overlapping(fs, lo, hi)| <= |Overlapping(fs, lo', hi')|
    ensures |Overlapping(fs, lo, hi)| == |Overlapping(fs, lo', hi')| ==>
              Overlapping(fs, lo, hi) == Overlapping(fs, lo', hi')
  {
    if fs != [] {
      assert fs[|fs| - 1] in fs;
      WiderPicksMore(fs[..|fs| - 1], lo, hi, lo', hi');
    }
  }

  /** `lo2..hi2` reaches at least as far as `lo..hi` on both sides. */
  predicate Within(lo: Bound, hi: Bound, lo2: Bound, hi2: Bound) {
    && (if lo.Open? then lo2.Open? else lo2.Open? || lo2.user <= lo.user)
    && (if hi.Open? then hi2.Open? else hi2.Open? || hi.user <= hi2.user)
  }

  /** Every file that overlaps the range lies inside it. */
  ghost predicate Closed(fs: seq<File>, lo: Bound, hi: Bound) {
    forall f :: f in fs && Overlaps(f, lo, hi) ==>
                  (lo.At? ==> lo.user <= f.smallest.user) && (hi.At? ==> f.largest.user <= hi.user)
  }

  /** The least range that holds `lo..hi` and is closed under overlap. */
  ghost predicate LeastClosed(fs: seq<File>, lo: Bound, hi: Bound, lo': Bound, hi': Bound) {
    && Within(lo, hi, lo', hi')
    && Closed(fs, lo', hi')
    && (forall l, h :: Within(lo, hi, l, h) && Closed(fs, l, h) ==> Within(lo', hi', l, h))
  }

  /** The files of the least closed range around `lo..hi`. */
  ghost predicate OverlapClosure(fs: seq<File>, lo: Bound, hi: Bound, picked: seq<File>) {
    exists l, h :: LeastClosed(fs, lo, hi, l, h) && picked == Overlapping(fs, l, h)
  }

  ghost function Outside(fs: seq<File>, lo: Bound, hi: Bound): (set<int>, set<int>) {
    (set i | 0 <= i < |fs| && lo.At? && fs[i].smallest.user < lo.user,
     set i | 0 <= i < |fs| && hi.At? && fs[i].largest.user > hi.user)
  }

  /**
   All files of a level that overlap a range.  On level zero a file that sticks out of the
   range widens it and restarts the search.
   */
  method GetOverlappingInputs(files: seq<File>, levelZero: bool, begin: Bound, end: Bound)
    returns (inputs: seq<File>, ghost lo: Bound, ghost hi: Bound)
    ensures if levelZero then OverlapClosure(files, begin, end, inputs) else inputs == Overlapping(files, begin, end)
    ensures inputs == Overlapping(files, lo, hi)
    ensures !levelZero ==> lo == begin && hi == end
    ensures levelZero ==> LeastClosed(files, begin, end, lo, hi)
  {
    hide Overlapping, Closed, Outside;
    var userBegin, userEnd := begin, end;
    inputs := [];
    var i: nat := 0;
    SearchStart(files, levelZero, begin, end);
    while i < |files|
      invariant Searched(files, levelZero, begin, end, i, inputs, userBegin, userEnd)
      decreases Outside(files, userBegin, userEnd).0, Outside(files, userBegin, userEnd).1, |files| - i
    {
      hide Searched;
      var f := files[i];
      if BeforeRange(f, userBegin) || AfterRange(f, userEnd) {
        SearchOn(files, levelZero, begin, end, i, inputs, userBegin, userEnd);
        i := i + 1;
      } else if levelZero && userBegin.At? && f.smallest.user < userBegin.user {
        WidenLow(files, begin, end, i, inputs, userBegin, userEnd);
        userBegin, inputs, i := At(f.smallest.user), [], 0;
      } else if levelZero && userEnd.At? && f.largest.user > userEnd.user {
        WidenHigh(files, begin, end, i, inputs, userBegin, userEnd);
        userEnd, inputs, i := At(f.largest.user), [], 0;
      } else {
        SearchOn(files, levelZero, begin, end, i, inputs, userBegin, userEnd);
        inputs, i := inputs + [f], i + 1;
      }
    }
    assert files[..i] == files;
    lo, hi := userBegin, userEnd;
  }

  /** The first `i` files are searched with the range reached, which is no wider than it must be. */
  ghost predicate Searched(fs: seq<File>, levelZero: bool, begin: Bound, end: Bound, i: nat, inputs: seq<File>,
                           lo: Bound, hi: Bound)
  {
    && i <= |fs| && inputs == Overlapping(fs[..i], lo, hi) && Within(begin, end, lo, hi)
    && (forall l, h :: Within(begin, end, l, h) && Closed(fs, l, h) ==> Within(lo, hi, l, h))
    && (if levelZero then Closed(fs[..i], lo, hi) else lo == begin && hi == end)
  }

  lemma SearchStart(fs: seq<File>, levelZero: bool, begin: Bound, end: Bound)
    ensures Searched(fs, levelZero, begin, end, 0, [], begin, end)
  {
  }

  lemma SearchOn(fs: seq<File>, levelZero: bool, begin: Bound, end: Bound, i: nat, inputs: seq<File>, lo: Bound, hi: Bound)
    requires i < |fs| && Searched(fs, levelZero, begin, end, i, inputs, lo, hi)
    requires levelZero && Overlaps(fs[i], lo, hi) ==>
               (lo.At? ==> lo.user <= fs[i].smallest.user) && (hi.At? ==> fs[i].largest.user <= hi.user)
    ensures Searched(fs, levelZero, begin, end, i + 1, if Overlaps(fs[i], lo, hi) then inputs + [fs[i]] else inputs, lo, hi)
  {
    hide Within;
    assert fs[..i + 1] == fs[..i] + [fs[i]] && fs[..i + 1][..|fs[..i + 1]| - 1] == fs[..i];
  }

  /** A file that sticks out below moves the lower end; fewer files stick out then. */
  lemma WidenLow(fs: seq<File>, begin: Bound, end: Bound, i: nat, inputs: seq<File>, lo: Bound, hi: Bound)
    requires i < |fs| && Searched(fs, true, begin, end, i, inputs, lo, hi)
    requires Overlaps(fs[i], lo, hi) && lo.At? && fs[i].smallest.user < lo.user
    ensures
      var lo' := At(fs[i].smallest.user);
      && Searched(fs, true, begin, end, 0, [], lo', hi)
      && Outside(fs, lo', hi).0 < Outside(fs, lo, hi).0 && Outside(fs, lo', hi).1 == Outside(fs, lo, hi).1
  {
    var lo' := At(fs[i].smallest.user);
    assert i in Outside(fs, lo, hi).0 && i !in Outside(fs, lo', hi).0;
    ClosedHolds(fs, begin, end, lo, hi, fs[i]);
  }

  lemma WidenHigh(fs: seq<File>, begin: Bound, end: Bound, i: nat, inputs: seq<File>, lo: Bound, hi: Bound)
    requires i < |fs| && Searched(fs, true, begin, end, i, inputs, lo, hi)
    requires Overlaps(fs[i], lo, hi) && hi.At? && fs[i].largest.user > hi.user
    ensures
      var hi' := At(fs[i].largest.user);
      && Searched(fs, true, begin, end, 0, [], lo, hi')
      && Outside(fs, lo, hi').0 == Outside(fs, lo, hi).0 && Outside(fs, lo, hi').1 < Outside(fs, lo, hi).1
  {
    var hi' := At(fs[i].largest.user);
    assert i in Outside(fs, lo, hi).1 && i !in Outside(fs, lo, hi').1;
    ClosedHolds(fs, begin, end, lo, hi, fs[i]);
  }

  /** A file that overlaps the range reached lies inside every closed range around the one asked for. */
  lemma ClosedHolds(fs: seq<File>, begin: Bound, end: Bound, lo: Bound, hi: Bound, f: File)
    requires f in fs && Overlaps(f, lo, hi)
    requires forall l, h :: Within(begin, end, l, h) && Closed(fs, l, h) ==> Within(lo, hi, l, h)
    ensures forall l, h :: Within(begin, end, l, h) && Closed(fs, l, h) ==>
              Within(lo, hi, l, h) && (l.At? ==> l.user <= f.smallest.user) && (h.At? ==> f.largest.user <= h.user)
  {
    forall l, h | Within(begin, end, l, h) && Closed(fs, l, h)
      ensures Overlaps(f, l, h)
    {
      assert Within(lo, hi, l, h);
    }
  }

  /** User-key ranges ascend along the list; neighbours may share one user key. */
  ghost predicate Ascending(fs: seq<File>) {
    && (forall i :: 0 <= i < |fs| ==> fs[i].smallest.user <= fs[i].largest.user)
    && (forall i, j :: 0 <= i < j < |fs| ==> fs[i].largest.user <= fs[j].smallest.user)
  }

  lemma DisjointAscends(fs: seq<File>)
    requires AllOk(fs) && Disjoint(fs)
    ensures Ascending(fs)
  {
    forall i | 0 <= i < |fs|
      ensures fs[i].smallest.user <= fs[i].largest.user
    {
      assert fs[i] in fs;
      FileCovers(fs[i], fs[i].entries[0]);
    }
  }

  lemma RunEnds(fs: seq<File>, lo: Bound, hi: Bound, b: nat, n: nat)
    requires Ascending(fs) && 0 < b <= n < |fs| && Overlaps(fs[b - 1], lo, hi)
    requires b < n ==> AfterRange(fs[b], hi)
    ensures Overlaps(fs[n], lo, hi) ==> b == n
    ensures b == n && !Overlaps(fs[n], lo, hi) ==> AfterRange(fs[n], hi)
  {
  }

  ghost predicate RunSoFar(fs: seq<File>, lo: Bound, hi: Bound, n: nat, a: nat, b: nat)
    requires n <= |fs|
  {
    && a <= b <= n && Overlapping(fs[..n], lo, hi) == fs[a..b]
    && (a < b ==> Overlaps(fs[b - 1], lo, hi) && (b < n ==> AfterRange(fs[b], hi)))
    && (a == b ==> b == n)
  }

  lemma RunGrows(fs: seq<File>, lo: Bound, hi: Bound, n: nat, a: nat, b: nat) returns (a': nat, b': nat)
    requires Ascending(fs) && n < |fs| && RunSoFar(fs, lo, hi, n, a, b)
    ensures RunSoFar(fs, lo, hi, n + 1, a', b')
  {
    hide Overlaps, BeforeRange, AfterRange, Ascending;
    OverlapStep(fs, lo, hi, n);
    if a < b {
      RunEnds(fs, lo, hi, b, n);
    }
    if Overlaps(fs[n], lo, hi) {
      assert fs[a..n + 1] == fs[a..n] + [fs[n]];
      a', b' := a, n + 1;
    } else if a == b {
      a', b' := n + 1, n + 1;
    } else {
      a', b' := a, b;
    }
  }

  /** On such a list the overlapping files form one consecutive run. */
  lemma OverlapIsRun(fs: seq<File>, lo: Bound, hi: Bound) returns (a: nat, b: nat)
    requires Ascending(fs)
    ensures a <= b <= |fs| && Overlapping(fs, lo, hi) == fs[a..b]
    ensures a < b < |fs| ==> AfterRange(fs[b], hi)
  {
    a, b := 0, 0;
    for n := 0 to |fs|
      invariant RunSoFar(fs, lo, hi, n, a, b)
    {
      a, b := RunGrows(fs, lo, hi, n, a, b);
    }
    assert fs[..|fs|] == fs;
  }

  lemma OverlapStep(fs: seq<File>, lo: Bound, hi: Bound, n: nat)
    requires n < |fs|
    ensures Overlapping(fs[..n + 1], lo, hi) ==
            Overlapping(fs[..n], lo, hi) + if Overlaps(fs[n], lo, hi) then [fs[n]] else []
  {
    assert fs[..n + 1][..n] == fs[..n];
  }

  // ---- Boundary files ----

  ghost predicate IsLargest(fs: seq<File>, k: IKey) {
    && (exists f :: f in fs && f.largest == k)
    && (forall f :: f in fs ==> AtMost(f.largest, k))
  }

  method FindLargestKey(fs: seq<File>) returns (k: IKey)
    requires fs != []
    ensures IsLargest(fs, k)
  {
    k := fs[0].largest;
    for i := 1 to |fs|
      invariant IsLargest(fs[..i], k)
    {
      assert fs[..i + 1] == fs[..i] + [fs[i]];
      if Less(k, fs[i].largest) {
        k := fs[i].largest;
      }
    }
    assert fs[..|fs|] == fs;
  }

  /** A file that starts after `k` with the same user key. */
  predicate Boundary(f: File, k: IKey) {
    Less(k, f.smallest) && f.smallest.user == k.user
  }

  datatype MaybeFile = NoFile | Some(file: File)

  method FindSmallestBoundaryFile(fs: seq<File>, k: IKey) returns (r: MaybeFile)
    ensures r.NoFile? ==> forall f :: f in fs ==> !Boundary(f, k)
    ensures r.Some? ==> r.file in fs && Boundary(r.file, k)
    ensures r.Some? ==> forall f :: f in fs && Boundary(f, k) ==> AtMost(r.file.smallest, f.smallest)
  {
    r := NoFile;
    for i := 0 to |fs|
      invariant r.NoFile? ==> forall f :: f in fs[..i] ==> !Boundary(f, k)
      invariant r.Some? ==> r.file in fs[..i] && Boundary(r.file, k)
      invariant r.Some? ==> forall f :: f in fs[..i] && Boundary(f, k) ==> AtMost(r.file.smallest, f.smallest)
    {
      assert fs[..i + 1] == fs[..i] + [fs[i]];
      if Boundary(fs[i], k) {
        if r.NoFile? || Less(fs[i].smallest, r.file.smallest) {
          r := Some(fs[i]);
        }
      }
    }
    assert fs[..|fs|] == fs;
  }

  ghost function StartingAfter(fs: seq<File>, k: IKey): set<int> {
    set i | 0 <= i < |fs| && Less(k, fs[i].smallest)
  }

  /** A consecutive run of a level's files, as picked by a compaction above level zero. */
  ghost predicate IsRun(fs: seq<File>, a: nat, picked: seq<File>) {
    a + |picked| <= |fs| && picked == fs[a..a + |picked|]
  }

  /** The file starts with the last user key picked, after everything picked, and no other such file starts earlier. */
  ghost predicate LeastBoundary(fs: seq<File>, picked: seq<File>, f: File) {
    exists k :: IsLargest(picked, k) && Boundary(f, k) && forall g :: g in fs && Boundary(g, k) ==> AtMost(f.smallest, g.smallest)
  }

  /** What `r` has beyond `picked` is the least boundary file of all before it, one after the other. */
  ghost predicate AddedInTurn(fs: seq<File>, picked: seq<File>, r: seq<File>) {
    picked <= r && forall i :: |picked| <= i < |r| ==> LeastBoundary(fs, r[..i], r[i])
  }

  lemma NoneAdded(fs: seq<File>, picked: seq<File>)
    ensures AddedInTurn(fs, picked, picked)
  {
  }

  lemma AddOne(fs: seq<File>, picked: seq<File>, r: seq<File>, f: File)
    requires AddedInTurn(fs, picked, r) && LeastBoundary(fs, r, f)
    ensures AddedInTurn(fs, picked, r + [f])
  {
    hide LeastBoundary;
    var r' := r + [f];
    forall i | |picked| <= i < |r'|
      ensures LeastBoundary(fs, r'[..i], r'[i])
    {
      assert r'[..i] == r[..i];
      assert r[..|r|] == r;
    }
  }

  /** Add boundary files until none is left: afterwards no file starts inside the last user key. */
  method AddBoundaryInputs(levelFiles: seq<File>, picked: seq<File>, ghost a: nat) returns (r: seq<File>)
    requires AllOk(levelFiles) && forall f :: f in picked ==> f in levelFiles
    ensures picked <= r && forall f :: f in r ==> f in levelFiles
    ensures picked != [] ==>
              exists k :: IsLargest(r, k) && forall f :: f in levelFiles ==> !Boundary(f, k)
    ensures (forall f, k :: f in levelFiles && IsLargest(picked, k) ==> !Boundary(f, k)) ==> r == picked
    ensures Disjoint(levelFiles) && IsRun(levelFiles, a, picked) ==> IsRun(levelFiles, a, r)
    ensures AddedInTurn(levelFiles, picked, r)
  {
    hide AddedInTurn;
    NoneAdded(levelFiles, picked);
    r := picked;
    if picked == [] {
      return;
    }
    ghost var settled := forall f, k :: f in levelFiles && IsLargest(picked, k) ==> !Boundary(f, k);
    ghost var run := Disjoint(levelFiles) && IsRun(levelFiles, a, picked);
    var k := FindLargestKey(picked);
    var searching := true;
    while searching
      invariant picked <= r && (forall f :: f in r ==> f in levelFiles) && IsLargest(r, k)
      invariant searching || forall f :: f in levelFiles ==> !Boundary(f, k)
      invariant settled ==> r == picked
      invariant run ==> IsRun(levelFiles, a, r)
      invariant AddedInTurn(levelFiles, picked, r)
      decreases searching, StartingAfter(levelFiles, k)
    {
      var found := FindSmallestBoundaryFile(levelFiles, k);
      if found.Some? {
        if run {
          NextIsBoundary(levelFiles, a, r, k, found.file);
        }
        BoundaryExtends(levelFiles, r, k, found.file);
        AddOne(levelFiles, picked, r, found.file);
        r, k := r + [found.file], found.file.largest;
      } else {
        searching := false;
      }
    }
  }

  /** Adding a boundary file moves the largest key up past it. */
  lemma BoundaryExtends(fs: seq<File>, r: seq<File>, k: IKey, f: File)
    requires AllOk(fs) && f in fs && IsLargest(r, k) && Boundary(f, k)
    ensures IsLargest(r + [f], f.largest)
    ensures StartingAfter(fs, f.largest) < StartingAfter(fs, k)
  {
    FileCovers(f, f.entries[0]);
    assert f in r + [f];
    var i :| 0 <= i < |fs| && fs[i] == f;
    assert i in StartingAfter(fs, k) && i !in StartingAfter(fs, f.largest);
  }

  /** On a disjoint level the smallest boundary file is the one right after the run. */
  lemma NextIsBoundary(fs: seq<File>, a: nat, r: seq<File>, k: IKey, f: File)
    requires AllOk(fs) && Disjoint(fs) && IsRun(fs, a, r) && r != [] && IsLargest(r, k)
    requires f in fs && Boundary(f, k)
    requires forall g :: g in fs && Boundary(g, k) ==> AtMost(f.smallest, g.smallest)
    ensures IsRun(fs, a, r + [f])
  {
    var b := a + |r|;
    hide Less, Boundary, AllOk, Disjoint, IsLargest;
    RunLargest(fs, a, r, k);
    var i: nat :| i < |fs| && fs[i] == f;
    FirstAfter(fs, b, i, k);
    assert fs[a..b + 1] == fs[a..b] + [fs[b]];
  }

  /** Among the files starting after `k` with its user key, the least is right after the run. */
  lemma FirstAfter(fs: seq<File>, b: nat, i: nat, k: IKey)
    requires AllOk(fs) && Disjoint(fs) && 0 < b <= |fs| && fs[b - 1].largest == k && i < |fs|
    requires Boundary(fs[i], k)
    requires forall g :: g in fs && Boundary(g, k) ==> AtMost(fs[i].smallest, g.smallest)
    ensures i == b
  {
    LargestAscending(fs);
    assert fs[i] in fs;
    FileCovers(fs[i], fs[i].entries[0]);
    assert i >= b;
    assert fs[b] in fs;
    FileCovers(fs[b], fs[b].entries[0]);
    assert Less(fs[b - 1].largest, fs[b].smallest);
  }

  lemma RunLargest(fs: seq<File>, a: nat, r: seq<File>, k: IKey)
    requires AllOk(fs) && Disjoint(fs) && IsRun(fs, a, r) && r != [] && IsLargest(r, k)
    ensures k == fs[a + |r| - 1].largest
  {
    LargestAscending(fs);
    var h :| h in r && h.largest == k;
    var x :| 0 <= x < |r| && r[x] == h;
    assert r[x] == fs[a + x] && r[|r| - 1] == fs[a + |r| - 1];
  }
}
