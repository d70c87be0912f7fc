/**
 A version: the table files of each level, and the point lookup that searches them
 newest data first and stops at the first hit (db/version_set.cc).
 */
module Versions {
  import opened Entries

  const NUM_LEVELS: nat := 7

  /** File metadata together with the table's contents. */
  datatype File = File(number: nat, size: nat, smallest: IKey, largest: IKey, entries: seq<Entry>)

  type Levels = seq<seq<File>>

  /** The recorded bounds are the first and last key of a non-empty sorted table. */
  ghost predicate FileOk(f: File) {
    && |f.entries| > 0
    && Sorted(f.entries)
    && f.smallest == f.entries[0].key
    && f.largest == f.entries[|f.entries| - 1].key
  }

  ghost predicate AllOk(fs: seq<File>) {
    forall f :: f in fs ==> FileOk(f)
  }

  function TotalFileSize(fs: seq<File>): nat {
    if fs == [] then 0 else fs[0].size + TotalFileSize(fs[1..])
  }

  lemma {:induction false} SizeAppend(fs: seq<File>, f: File)
    ensures TotalFileSize(fs + [f]) == TotalFileSize(fs) + f.size
  {
    if fs != [] {
      assert (fs + [f])[1..] == fs[1..] + [f];
      SizeAppend(fs[1..], f);
    } else {
      assert fs + [f] == [f];
    }
  }

  /** Levels above zero: files in key order, no two overlapping. */
  ghost predicate Disjoint(fs: seq<File>) {
    forall i, j :: 0 <= i < j < |fs| ==> Less(fs[i].largest, fs[j].smallest)
  }

  /** Every entry of `f` is newer than every entry of `g` for the same user key. */
  ghost predicate Newer(f: File, g: File) {
    forall e, d :: e in f.entries && d in g.entries && e.key.user == d.key.user ==> Less(e.key, d.key)
  }

  /** Level-zero files may overlap; a larger file number means newer data. */
  ghost predicate LevelZeroOk(fs: seq<File>) {
    && (forall i, j :: 0 <= i < j < |fs| ==> fs[i].number != fs[j].number)
    && (forall f, g :: f in fs && g in fs && f.number > g.number ==> Newer(f, g))
  }

  ghost predicate Above(v: Levels, i: int, f: File, j: int, g: File) {
    0 <= i < j < |v| && f in v[i] && g in v[j]
  }

  /** Shallower levels hold newer data. */
  ghost predicate Layered(v: Levels) {
    forall i, j, f, g :: Above(v, i, f, j, g) ==> Newer(f, g)
  }

  ghost predicate WellFormed(v: Levels) {
    && |v| == NUM_LEVELS
    && (forall l :: 0 <= l < |v| ==> AllOk(v[l]))
    && (forall l :: 1 <= l < |v| ==> Disjoint(v[l]))
    && LevelZeroOk(v[0])
    && Layered(v)
  }

  ghost function FileEntries(fs: seq<File>): set<Entry> {
    set f, e | f in fs && e in f.entries :: e
  }

  ghost function VersionEntries(v: Levels): set<Entry> {
    set fs, f, e | fs in v && f in fs && e in f.entries :: e
  }

  lemma EntryIn(v: Levels, l: nat, f: File, e: Entry)
    requires l < |v| && f in v[l] && e in f.entries
    ensures e in VersionEntries(v)
  {
    assert v[l] in v;
  }

  lemma EntryWhere(v: Levels, e: Entry) returns (l: nat, f: File)
    requires e in VersionEntries(v)
    ensures l < |v| && f in v[l] && e in f.entries
  {
    var fs, g :| fs in v && g in fs && e in g.entries;
    var m :| 0 <= m < |v| && v[m] == fs;
    l, f := m, g;
  }

  lemma {:induction false} FileCovers(f: File, e: Entry)
    requires FileOk(f) && e in f.entries
    ensures AtMost(f.smallest, e.key) && AtMost(e.key, f.largest)
  {
    var i :| 0 <= i < |f.entries| && f.entries[i] == e;
  }

  /** Binary search for the first file whose largest key is at or after `k`. */
  method FindFile(files: seq<File>, k: IKey) returns (right: nat)
    requires AllOk(files) && Disjoint(files)
    ensures right <= |files|
    ensures forall i :: 0 <= i < right ==> Less(files[i].largest, k)
    ensures forall i :: right <= i < |files| ==> AtMost(k, files[i].largest)
  {
    var left := 0;
    right := |files|;
    while left < right
      invariant left <= right <= |files|
      invariant forall i :: 0 <= i < left ==> Less(files[i].largest, k)
      invariant forall i :: right <= i < |files| ==> AtMost(k, files[i].largest)
    {
      var mid := (left + right) / 2;
      LargestAscending(files);
      if Less(files[mid].largest, k) {
        left := mid + 1;
      } else {
        right := mid;
      }
    }
  }

  lemma LargestAscending(files: seq<File>)
    requires AllOk(files) && Disjoint(files)
    ensures forall i, j :: 0 <= i < j < |files| ==> Less(files[i].largest, files[j].largest)
  {
    forall i, j | 0 <= i < j < |files|
      ensures Less(files[i].largest, files[j].largest)
    {
      assert files[j] in files;
      FileCovers(files[j], files[j].entries[0]);
    }
  }

  /** What one table reports: the first entry at or after the lookup key, if it is for `u`. */
  function TableGet(f: File, u: int, s: nat): (r: Probe)
  {
    var p := SeekPos(f.entries, Target(u, s));
    if p < |f.entries| && f.entries[p].key.user == u then Hit(OutcomeOf(f.entries[p])) else NoHit
  }

  /** The saver state: either the table decided the read or the search goes on. */
  datatype Probe = NoHit | Hit(outcome: Outcome)

  ghost predicate NoneVisible(f: File, u: int, s: nat) {
    forall e :: e in f.entries ==> !Visible(e.key, u, s)
  }

  lemma TableGetMeaning(f: File, u: int, s: nat)
    requires FileOk(f)
    ensures TableGet(f, u, s).NoHit? ==> NoneVisible(f, u, s)
    ensures TableGet(f, u, s).Hit? ==>
              exists e :: IsNewest(SetOf(f.entries), u, s, e) && OutcomeOf(e) == TableGet(f, u, s).outcome
  {
    var p := SeekPos(f.entries, Target(u, s));
    if p < |f.entries| && f.entries[p].key.user == u {
      var e := f.entries[p];
      forall d | d in SetOf(f.entries) && Visible(d.key, u, s)
        ensures d == e || Less(e.key, d.key)
      {
        var i :| 0 <= i < |f.entries| && f.entries[i] == d;
      }
      assert IsNewest(SetOf(f.entries), u, s, e);
    } else {
      forall d | d in f.entries
        ensures !Visible(d.key, u, s)
      {
        var i :| 0 <= i < |f.entries| && f.entries[i] == d;
        if i > p {
          assert Less(f.entries[p].key, d.key);
        }
      }
    }
  }

  /** A hit decides the read once every other file is older or has nothing visible. */
  lemma HitDecides(v: Levels, f: File, u: int, s: nat)
    requires FileOk(f) && TableGet(f, u, s).Hit?
    requires exists fs :: fs in v && f in fs
    requires forall fs, g :: fs in v && g in fs ==> g == f || NoneVisible(g, u, s) || Newer(f, g)
    ensures Lookup(VersionEntries(v), u, s) == TableGet(f, u, s).outcome
  {
    TableGetMeaning(f, u, s);
    var e :| IsNewest(SetOf(f.entries), u, s, e) && OutcomeOf(e) == TableGet(f, u, s).outcome;
    assert IsNewest(VersionEntries(v), u, s, e);
    LookupIs(VersionEntries(v), u, s, e);
  }

  function InsertNewestFirst(f: File, fs: seq<File>): seq<File> {
    if fs == [] || f.number > fs[0].number then [f] + fs else [fs[0]] + InsertNewestFirst(f, fs[1..])
  }

  ghost predicate NewestFirst(fs: seq<File>) {
    forall i, j :: 0 <= i < j < |fs| ==> fs[i].number >= fs[j].number
  }

  lemma {:induction false} InsertNewestFirstOk(f: File, fs: seq<File>)
    requires NewestFirst(fs)
    ensures NewestFirst(InsertNewestFirst(f, fs))
    ensures forall g :: g in InsertNewestFirst(f, fs) <==> g == f || g in fs
  {
    if fs == [] || f.number > fs[0].number {
    } else {
      InsertNewestFirstOk(f, fs[1..]);
      var r := InsertNewestFirst(f, fs[1..]);
      assert fs == [fs[0]] + fs[1..];
      forall g | g in r
        ensures fs[0].number >= g.number
      {
      }
    }
  }

  /** Level zero: the files whose user-key range holds `u`, newest first. */
  method LevelZeroCandidates(fs: seq<File>, u: int) returns (tmp: seq<File>)
    ensures NewestFirst(tmp)
    ensures forall f :: f in tmp <==> f in fs && f.smallest.user <= u <= f.largest.user
  {
    tmp := [];
    for i := 0 to |fs|
      invariant NewestFirst(tmp)
      invariant forall f :: f in tmp <==> f in fs[..i] && f.smallest.user <= u <= f.largest.user
    {
      if fs[i].smallest.user <= u && u <= fs[i].largest.user {
        InsertNewestFirstOk(fs[i], tmp);
        tmp := InsertNewestFirst(fs[i], tmp);
      }
      assert fs[..i + 1] == fs[..i] + [fs[i]];
    }
  }

  /** Levels above zero: at most one file can decide the read. */
  method LevelCandidate(fs: seq<File>, u: int, s: nat) returns (files: seq<File>)
    requires AllOk(fs) && Disjoint(fs)
    ensures |files| <= 1
    ensures forall f :: f in files ==> f in fs
    ensures forall f :: f in fs && f !in files ==>
                          NoneVisible(f, u, s) || (files != [] && TableGet(files[0], u, s).Hit? && Newer(files[0], f))
  {
    var index := FindFile(fs, Target(u, s));
    if index >= |fs| {
      files := [];
    } else if u < fs[index].smallest.user {
      files := [];
    } else {
      files := [fs[index]];
    }
    forall f | f in fs && f !in files
      ensures NoneVisible(f, u, s) || (files != [] && TableGet(files[0], u, s).Hit? && Newer(files[0], f))
    {
      var i :| 0 <= i < |fs| && fs[i] == f;
      SkippedFile(fs, u, s, index, i);
    }
  }

  /** Files before `index` end too early; files after it matter only when `index` already hits. */
  lemma SkippedFile(fs: seq<File>, u: int, s: nat, index: nat, i: nat)
    requires AllOk(fs) && Disjoint(fs)
    requires index <= |fs| && i < |fs|
    requires forall j :: 0 <= j < index ==> Less(fs[j].largest, Target(u, s))
    requires forall j :: index <= j < |fs| ==> AtMost(Target(u, s), fs[j].largest)
    requires i == index ==> u < fs[index].smallest.user
    ensures i <= index || u < fs[index].smallest.user ==> NoneVisible(fs[i], u, s)
    ensures i > index && u >= fs[index].smallest.user ==>
              NoneVisible(fs[i], u, s) || (TableGet(fs[index], u, s).Hit? && Newer(fs[index], fs[i]))
  {
    assert fs[i] in fs;
    forall e | e in fs[i].entries
      ensures AtMost(fs[i].smallest, e.key) && AtMost(e.key, fs[i].largest)
    {
      FileCovers(fs[i], e);
    }
    if i > index {
      assert Less(fs[index].largest, fs[i].smallest);
      assert fs[index] in fs;
      FileCovers(fs[index], fs[index].entries[0]);
      if u >= fs[index].smallest.user && fs[index].largest.user == u {
        var f := fs[index];
        assert f in fs;
        var p := SeekPos(f.entries, Target(u, s));
        assert p < |f.entries|;
        FileCovers(f, f.entries[p]);
        forall e, d | e in f.entries && d in fs[i].entries
          ensures Less(e.key, d.key)
        {
          FileCovers(f, e);
        }
      }
    }
  }

  /** The point lookup: search newest data first, stop at the first table that decides. */
  method Get(v: Levels, u: int, s: nat) returns (r: Outcome)
    requires WellFormed(v)
    ensures r == Lookup(VersionEntries(v), u, s)
  {
    hide NoneVisible, Newer, FileOk, Layered, LevelZeroOk, TableGet, Disjoint;
    for level := 0 to |v|
      invariant forall l, f :: 0 <= l < level && f in v[l] ==> NoneVisible(f, u, s)
    {
      var files: seq<File>;
      if level == 0 {
        files := LevelZeroCandidates(v[0], u);
        forall f | f in v[0] && f !in files
          ensures NoneVisible(f, u, s)
        {
          OutsideRange(f, u, s);
        }
      } else {
        files := LevelCandidate(v[level], u, s);
      }
      for i := 0 to |files|
        invariant forall j :: 0 <= j < i ==> NoneVisible(files[j], u, s) && TableGet(files[j], u, s).NoHit?
      {
        var got := TableGet(files[i], u, s);
        TableGetMeaning(files[i], u, s);
        if got.Hit? {
          HitInLevel(v, level, files, i, u, s);
          return got.outcome;
        }
      }
      forall f | f in v[level]
        ensures NoneVisible(f, u, s)
      {
        if f in files {
          var j :| 0 <= j < |files| && files[j] == f;
        }
      }
    }
    NoLevelHasIt(v, u, s);
    return Missing;
  }

  lemma OutsideRange(f: File, u: int, s: nat)
    requires FileOk(f) && !(f.smallest.user <= u <= f.largest.user)
    ensures NoneVisible(f, u, s)
  {
    forall e | e in f.entries
      ensures !Visible(e.key, u, s)
    {
      FileCovers(f, e);
    }
  }

  lemma NoLevelHasIt(v: Levels, u: int, s: nat)
    requires forall l, f :: 0 <= l < |v| && f in v[l] ==> NoneVisible(f, u, s)
    ensures Lookup(VersionEntries(v), u, s) == Missing
  {
    forall e | e in VersionEntries(v)
      ensures !Visible(e.key, u, s)
    {
      var fs, f :| fs in v && f in fs && e in f.entries;
      var l :| 0 <= l < |v| && v[l] == fs;
      assert NoneVisible(f, u, s);
    }
    LookupMissing(VersionEntries(v), u, s);
  }

  lemma HitInLevel(v: Levels, level: nat, files: seq<File>, i: nat, u: int, s: nat)
    requires WellFormed(v) && level < |v| && i < |files|
    requires forall l, f :: 0 <= l < level && f in v[l] ==> NoneVisible(f, u, s)
    requires forall f :: f in files ==> f in v[level]
    requires forall j :: 0 <= j < i ==> NoneVisible(files[j], u, s)
    requires if level == 0 then NewestFirst(files) else |files| <= 1
    requires forall f :: f in v[level] && f !in files ==> NoneVisible(f, u, s) || Newer(files[i], f)
    requires TableGet(files[i], u, s).Hit?
    ensures Lookup(VersionEntries(v), u, s) == TableGet(files[i], u, s).outcome
  {
    var f := files[i];
    assert v[level] in v && f in v[level];
    forall fs, g | fs in v && g in fs
      ensures g == f || NoneVisible(g, u, s) || Newer(f, g)
    {
      var l :| 0 <= l < |v| && v[l] == fs;
      assert l > level ==> Above(v, level, f, l, g);
      if l == level && g in files {
        var j :| 0 <= j < |files| && files[j] == g;
        if j > i && g != f {
          SameNumber(v[0], f, g);
        }
      }
    }
    HitDecides(v, f, u, s);
  }

  lemma SameNumber(fs: seq<File>, f: File, g: File)
    requires LevelZeroOk(fs) && f in fs && g in fs && f != g
    ensures f.number != g.number
  {
    var i :| 0 <= i < |fs| && fs[i] == f;
    var j :| 0 <= j < |fs| && fs[j] == g;
    assert i < j || j < i;
  }
}
