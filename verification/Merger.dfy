/**
 The merging iterator: many sorted children shown as one sorted run, movable in both
 directions, with the children repositioned whenever the direction changes
 (table/merger.cc).
 */
module Merger {
  import opened Entries
  import opened Cursors
  import opened Positions

  /** `m` is the sorted merge of the runs, which share no key. */
  ghost predicate IsMerge(runs: seq<seq<Entry>>, m: seq<Entry>) {
    && Mergeable(runs) && Sorted(m)
    && (forall i, e :: 0 <= i < |runs| && e in runs[i] ==> e in m)
    && (forall e :: e in m ==> exists i :: 0 <= i < |runs| && e in runs[i])
  }

  /** `p` cuts `run` where `c` cuts `merged`. */
  ghost predicate Cut(run: seq<Entry>, merged: seq<Entry>, c: nat, p: nat)
    requires c <= |merged|
  {
    && p <= |run|
    && (forall j :: 0 <= j < p ==> c > 0 && AtMost(run[j].key, merged[c - 1].key))
    && (forall j :: p <= j < |run| ==> c < |merged| && AtMost(merged[c].key, run[j].key))
  }

  /** The first entry after `k` in a run. */
  function PastKey(run: seq<Entry>, k: IKey): nat {
    var p := SeekPos(run, k);
    if p < |run| && run[p].key == k then p + 1 else p
  }

  method SeekPast(child: RunIterator, k: IKey)
    modifies child
    ensures child.pos == PastKey(child.run, k)
  {
    child.Seek(k);
    if child.IsValid() && child.run[child.pos].key == k {
      child.Next();
    }
  }

  /** The last entry before `k` in a run; the end of the run when there is none. */
  function BeforeKey(run: seq<Entry>, k: IKey): nat {
    PrevPos(|run|, SeekPos(run, k))
  }

  method SeekBefore(child: RunIterator, k: IKey)
    modifies child
    ensures child.pos == BeforeKey(child.run, k)
  {
    child.Seek(k);
    if child.IsValid() {
      child.Prev();
    } else {
      child.SeekToLast();
    }
  }

  class MergingIterator {
    const children: seq<RunIterator>
    var current: int
    var forward: bool

    ghost const runs: seq<seq<Entry>>
    ghost const merged: seq<Entry>

    ghost predicate Shape() {
      && |runs| == |children|
      && (forall i :: 0 <= i < |children| ==> runs[i] == children[i].run)
      && (forall i, j :: 0 <= i < j < |children| ==> children[i] != children[j])
      && IsMerge(runs, merged)
    }

    /** All children sit at cut `c`, each on the first entry after it. */
    ghost predicate After(c: nat)
      requires c <= |merged|
      reads children
    {
      forall i :: 0 <= i < |children| ==> Cut(children[i].run, merged, c, children[i].pos)
    }

    /** All children sit at cut `c`, each on the last entry before it. */
    ghost predicate Before(c: nat)
      requires c <= |merged|
      reads children
    {
      forall i :: 0 <= i < |children| ==> BeforeAt(children[i].run, merged, c, children[i].pos)
    }

    /**
     Moving forward, every other child is just after the current key; in reverse, every
     other child is just before it.
     */
    ghost predicate At(c: nat)
      requires c <= |merged|
      reads this, children
    {
      && (if c == |merged| then current == -1
          else 0 <= current < |children|
               && children[current].pos < |children[current].run|
               && children[current].run[children[current].pos] == merged[c])
      && (if forward then After(c) else Before(if c == |merged| then 0 else c + 1))
    }

    ghost var at: nat

    ghost predicate Valid()
      reads this, children
    {
      Shape() && at <= |merged| && At(at)
    }

    ghost function Positions(): (r: seq<nat>)
      reads children
      ensures |r| == |children|
      ensures forall i :: 0 <= i < |children| ==> r[i] == children[i].pos
    {
      seq(|children|, i requires 0 <= i < |children| reads children => children[i].pos)
    }

    /** `children` must be distinct iterators over sorted runs that share no key. */
    constructor (children: seq<RunIterator>, ghost runs: seq<seq<Entry>>)
      requires |runs| == |children| && forall i :: 0 <= i < |children| ==> runs[i] == children[i].run
      requires forall i, j :: 0 <= i < j < |children| ==> children[i] != children[j]
      requires Mergeable(runs)
      requires forall i :: 0 <= i < |children| ==> children[i].pos == |children[i].run|
      ensures this.children == children && this.runs == runs && merged == MergeAll(runs)
      ensures Valid() && at == |merged|
    {
      MergeAllOk(runs);
      this.children, this.runs, this.merged := children, runs, MergeAll(runs);
      current, forward, at := -1, true, |MergeAll(runs)|;
      new;
      forall i | 0 <= i < |children|
        ensures Cut(children[i].run, merged, |merged|, children[i].pos)
      {
        CutAtEnds(children[i].run, merged);
      }
    }

    /** Which entry the iterator shows. */
    method Current() returns (e: Entry)
      requires Valid() && at < |merged|
      ensures e == merged[at]
    {
      e := children[current].run[children[current].pos];
    }

    predicate IsValid()
      reads this
    {
      current != -1
    }

    method SeekToFirst()
      requires Valid()
      modifies this, children
      ensures Valid() && at == 0
    {
      for i := 0 to |children|
        invariant forall j :: 0 <= j < i ==> children[j].pos == 0
      {
        children[i].SeekToFirst();
      }
      at, forward := 0, true;
      forall i | 0 <= i < |children|
        ensures Cut(children[i].run, merged, 0, 0)
      {
        CutAtEnds(children[i].run, merged);
      }
      FindSmallest();
    }

    method SeekToLast()
      requires Valid()
      modifies this, children
      ensures Valid() && at == LastPos(|merged|)
    {
      for i := 0 to |children|
        invariant forall j :: 0 <= j < i ==> children[j].pos == LastPos(|children[j].run|)
      {
        children[i].SeekToLast();
      }
      ghost var n := |merged|;
      forall i | 0 <= i < |children|
        ensures BeforeAt(children[i].run, merged, n, children[i].pos)
      {
        CutAtEnds(children[i].run, merged);
        assert Cut(children[i].run, merged, n, |children[i].run|);
      }
      FindLargest(n);
    }

    method Seek(k: IKey)
      requires Valid()
      modifies this, children
      ensures Valid() && at == SeekPos(merged, k)
    {
      for i := 0 to |children|
        invariant forall j :: 0 <= j < i ==> children[j].pos == SeekPos(children[j].run, k)
      {
        children[i].Seek(k);
      }
      at, forward := SeekPos(merged, k), true;
      forall i | 0 <= i < |children|
        ensures Cut(children[i].run, merged, at, children[i].pos)
      {
        SeekCuts(runs[i], merged, k);
      }
      FindSmallest();
    }

    /** Switching to forward: put every other child at its first entry past the current key. */
    method FaceForward()
      requires Valid() && IsValid()
      modifies children
      ensures After(at)
      ensures children[current].pos == old(children[current].pos)
    {
      hide Less, Cut, IsMerge, PastKey, SeekPos;
      ghost var p := children[current].pos;
      var key := children[current].run[children[current].pos].key;
      for i := 0 to |children|
        invariant forall j :: 0 <= j < i && j != current ==> children[j].pos == PastKey(children[j].run, key)
        invariant children[current].pos == p
      {
        if i != current {
          SeekPast(children[i], key);
        }
      }
      forall i | 0 <= i < |children|
        ensures Cut(children[i].run, merged, at, children[i].pos)
      {
        PastIsCut(runs, merged, at, current, p, i, children[i].pos);
      }
    }

    /** Switching to reverse: put every other child at its last entry before the current key. */
    method FaceBackward()
      requires Valid() && IsValid()
      modifies children
      ensures forall i :: 0 <= i < |children| && i != current ==>
                BeforeAt(children[i].run, merged, at, children[i].pos)
      ensures children[current].pos == old(children[current].pos)
    {
      hide Less, Cut, IsMerge, BeforeAt, SeekPos;
      ghost var p := children[current].pos;
      var key := children[current].run[children[current].pos].key;
      for i := 0 to |children|
        invariant forall j :: 0 <= j < i && j != current ==> children[j].pos == BeforeKey(children[j].run, key)
        invariant children[current].pos == p
      {
        if i != current {
          SeekBefore(children[i], key);
        }
      }
      forall i | 0 <= i < |children| && i != current
        ensures BeforeAt(children[i].run, merged, at, children[i].pos)
      {
        BeforeIsCut(runs, merged, at, i);
      }
    }

    method Next()
      requires Valid() && IsValid()
      modifies this, children
      ensures Valid() && at == old(at) + 1
    {
      hide Less, Cut, IsMerge, BeforeAt;
      if !forward {
        FaceForward();
        forward := true;
      }
      StepCurrent();
      FindSmallest();
    }

    /** Move the current child past its entry: every child then stands right for the next cut. */
    method StepCurrent()
      requires Valid() && IsValid() && forward
      modifies this`at, children
      ensures at == old(at) + 1 <= |merged| && After(at)
    {
      hide Less, Cut, IsMerge;
      forall i | 0 <= i < |children|
        ensures Cut(children[i].run, merged, at + 1, if i == current then children[i].pos + 1 else children[i].pos)
      {
        StepOver(runs, merged, at, current, children[current].pos, i, children[i].pos);
      }
      children[current].Next();
      at := at + 1;
    }

    method Prev()
      requires Valid() && IsValid()
      modifies this, children
      ensures Valid() && at == PrevPos(|merged|, old(at))
    {
      hide Less, Cut, BeforeAt, SeekPos;
      if forward {
        FaceBackward();
      } else {
        forall i | 0 <= i < |children| && i != current
          ensures BeforeAt(children[i].run, merged, at, children[i].pos)
        {
          StepBack(runs, merged, i, at, current, children[current].pos, children[i].pos);
        }
      }
      BeforeIsCut(runs, merged, at, current);
      SortedAt(runs[current], children[current].pos);
      children[current].Prev();
      FindLargest(at);
    }

    /** The valid child with the least key, the first such child on ties. */
    method ScanSmallest() returns (best: int)
      ensures best == -1 ==> forall j :: 0 <= j < |children| ==> !children[j].IsValid()
      ensures best != -1 ==> 0 <= best < |children| && children[best].IsValid()
      ensures best != -1 ==> forall j :: 0 <= j < |children| && children[j].IsValid() ==>
                AtMost(children[best].run[children[best].pos].key, children[j].run[children[j].pos].key)
    {
      best := -1;
      for i := 0 to |children|
        invariant -1 <= best < i
        invariant best == -1 ==> forall j :: 0 <= j < i ==> !children[j].IsValid()
        invariant best >= 0 ==> children[best].IsValid()
        invariant best >= 0 ==> forall j :: 0 <= j < i && children[j].IsValid() ==>
                    AtMost(children[best].run[children[best].pos].key, children[j].run[children[j].pos].key)
      {
        if children[i].IsValid() {
          if best == -1 || Less(children[i].run[children[i].pos].key, children[best].run[children[best].pos].key) {
            best := i;
          }
        }
      }
    }

    method FindSmallest()
      requires Shape() && at <= |merged| && After(at) && forward
      modifies this
      ensures Valid() && at == old(at)
    {
      ghost var h := HeadAt(runs, merged, Positions(), at);
      var best := ScanSmallest();
      assert at < |merged| ==> children[h].IsValid() && best == h;
      current := best;
    }

    /** The valid child with the greatest key, scanning from the last child down. */
    method ScanLargest() returns (best: int)
      ensures best == -1 ==> forall j :: 0 <= j < |children| ==> !children[j].IsValid()
      ensures best != -1 ==> 0 <= best < |children| && children[best].IsValid()
      ensures best != -1 ==> forall j :: 0 <= j < |children| && children[j].IsValid() ==>
                AtMost(children[j].run[children[j].pos].key, children[best].run[children[best].pos].key)
    {
      best := -1;
      for i := |children| downto 0
        invariant best == -1 || i <= best < |children|
        invariant best == -1 ==> forall j :: i <= j < |children| ==> !children[j].IsValid()
        invariant best >= 0 ==> children[best].IsValid()
        invariant best >= 0 ==> forall j :: i <= j < |children| && children[j].IsValid() ==>
                    AtMost(children[j].run[children[j].pos].key, children[best].run[children[best].pos].key)
      {
        if children[i].IsValid() {
          if best == -1 || Less(children[best].run[children[best].pos].key, children[i].run[children[i].pos].key) {
            best := i;
          }
        }
      }
    }

    /** The children sit just before cut `c`; the new position is the entry before it. */
    method FindLargest(ghost c: nat)
      requires Shape() && c <= |merged| && Before(c)
      modifies this
      ensures Valid() && at == PrevPos(|merged|, c)
    {
      hide Less, Cut, IsMerge, BeforeAt;
      var best := PickLargest(c);
      current, forward, at := best, false, PrevPos(|merged|, c);
    }

    method PickLargest(ghost c: nat) returns (best: int)
      requires Shape() && c <= |merged| && Before(c)
      ensures c == 0 ==> best == -1
      ensures c > 0 ==> 0 <= best < |children| && children[best].pos < |children[best].run|
                        && children[best].run[children[best].pos] == merged[c - 1]
    {
      ghost var h := TailAt(runs, merged, Positions(), c);
      best := ScanLargest();
      assert c > 0 ==> children[h].IsValid() && best == h;
    }
  }

  ghost predicate BeforeAt(run: seq<Entry>, merged: seq<Entry>, c: nat, q: nat)
    requires c <= |merged|
  {
    exists p :: Cut(run, merged, c, p) && q == PrevPos(|run|, p)
  }

  lemma CutAtEnds(run: seq<Entry>, m: seq<Entry>)
    requires Sorted(m) && forall e :: e in run ==> e in m
    ensures Cut(run, m, 0, 0) && Cut(run, m, |m|, |run|)
  {
    assert run != [] ==> run[0] in m;
    forall j | 0 <= j < |run|
      ensures AtMost(m[0].key, run[j].key) && AtMost(run[j].key, m[|m| - 1].key)
    {
      assert run[j] in m;
      Ends(m, run[j]);
    }
  }

  lemma Ends(m: seq<Entry>, e: Entry)
    requires Sorted(m) && e in m
    ensures AtMost(m[0].key, e.key) && AtMost(e.key, m[|m| - 1].key)
  {
    var x: nat :| x < |m| && m[x] == e;
    assert x > 0 ==> Less(m[0].key, m[x].key);
    assert x < |m| - 1 ==> Less(m[x].key, m[|m| - 1].key);
  }

  /** Once every other child was sought past the current key, all stand at its cut. */
  lemma PastIsCut(runs: seq<seq<Entry>>, m: seq<Entry>, c: nat, h: nat, ph: nat, i: nat, p: nat)
    requires IsMerge(runs, m) && c < |m| && h < |runs| && i < |runs|
    requires ph < |runs[h]| && runs[h][ph] == m[c]
    requires p == if i == h then ph else PastKey(runs[i], m[c].key)
    ensures Cut(runs[i], m, c, p)
  {
    hide Less, Cut;
    SortedAt(m, c);
    SortedAt(runs[h], ph);
    SeekCuts(runs[i], m, m[c].key);
    if i != h {
      NoTwin(runs, h, i, ph);
    }
  }

  lemma BeforeIsCut(runs: seq<seq<Entry>>, m: seq<Entry>, c: nat, i: nat)
    requires IsMerge(runs, m) && c < |m| && i < |runs|
    ensures BeforeAt(runs[i], m, c, BeforeKey(runs[i], m[c].key))
  {
    hide Less, Cut;
    SortedAt(m, c);
    SeekCuts(runs[i], m, m[c].key);
  }

  lemma SortedAt(m: seq<Entry>, c: nat)
    requires Sorted(m) && c < |m|
    ensures SeekPos(m, m[c].key) == c
  {
    SeekPosIs(m, m[c].key, c);
  }

  /** No other run holds the same key. */
  lemma NoTwin(runs: seq<seq<Entry>>, a: nat, b: nat, p: nat)
    requires Mergeable(runs) && a < |runs| && b < |runs| && a != b && p < |runs[a]|
    ensures forall e :: e in runs[b] ==> e.key != runs[a][p].key
  {
    if a < b {
      assert Apart(runs[a], runs[b]);
    } else {
      assert Apart(runs[b], runs[a]);
    }
  }

  lemma FoundIn(m: seq<Entry>, e: Entry, k: IKey)
    requires Sorted(m) && e in m
    ensures Less(e.key, k) ==> SeekPos(m, k) > 0 && AtMost(e.key, m[SeekPos(m, k) - 1].key)
    ensures AtMost(k, e.key) ==> SeekPos(m, k) < |m| && AtMost(m[SeekPos(m, k)].key, e.key)
  {
    var x :| 0 <= x < |m| && m[x] == e;
  }

  /** The same seek cuts every run and the merge alike. */
  lemma SeekCuts(run: seq<Entry>, m: seq<Entry>, k: IKey)
    requires Sorted(run) && Sorted(m) && forall e :: e in run ==> e in m
    ensures Cut(run, m, SeekPos(m, k), SeekPos(run, k))
  {
    var p := SeekPos(run, k);
    forall j | 0 <= j < |run|
      ensures j < p ==> Less(run[j].key, k)
      ensures j >= p ==> AtMost(k, run[j].key)
    {
      assert j > p ==> Less(run[p].key, run[j].key);
    }
    forall j | 0 <= j < |run| {
      FoundIn(m, run[j], k);
    }
  }

  /** Neither cut is empty-handed on a side where the run still has entries. */
  lemma SidesMatch(run: seq<Entry>, m: seq<Entry>, c: nat, p: nat)
    requires c <= |m| && Cut(run, m, c, p)
    ensures p < |run| ==> c < |m|
    ensures p > 0 ==> c > 0
  {
    if p < |run| {
      assert AtMost(run[p].key, run[p].key);
    }
    if p > 0 {
      assert AtMost(run[0].key, run[0].key);
    }
  }

  /** Where a member of the merge lies relative to entry `c`. */
  lemma Beside(m: seq<Entry>, c: nat, e: Entry)
    requires Sorted(m) && c < |m| && e in m && e != m[c]
    ensures AtMost(m[c].key, e.key) ==> c + 1 < |m| && AtMost(m[c + 1].key, e.key)
    ensures AtMost(e.key, m[c].key) ==> c > 0 && AtMost(e.key, m[c - 1].key)
  {
    var x :| 0 <= x < |m| && m[x] == e;
    assert x < c ==> Less(m[x].key, m[c].key);
    assert x > c ==> Less(m[c].key, m[x].key);
  }

  /** Past the current entry: its child steps, the others already stand right. */
  lemma StepOver(runs: seq<seq<Entry>>, m: seq<Entry>, c: nat, h: nat, ph: nat, i: nat, p: nat)
    requires IsMerge(runs, m) && c < |m| && h < |runs| && i < |runs|
    requires ph < |runs[h]| && runs[h][ph] == m[c]
    requires Cut(runs[i], m, c, p) && (i == h ==> p == ph)
    ensures Cut(runs[i], m, c + 1, if i == h then p + 1 else p)
  {
    var run := runs[i];
    var q := if i == h then p + 1 else p;
    assert Sorted(run) && forall e :: e in run ==> e in m;
    if i != h {
      NoTwin(runs, h, i, ph);
    }
    CutMovesOn(run, m, c, p, q);
  }

  lemma CutMovesOn(run: seq<Entry>, m: seq<Entry>, c: nat, p: nat, q: nat)
    requires Sorted(run) && Sorted(m) && forall e :: e in run ==> e in m
    requires c < |m| && Cut(run, m, c, p) && p <= q <= |run| && q <= p + 1
    requires q == p + 1 ==> run[p] == m[c]
    requires q == p ==> forall e :: e in run ==> e.key != m[c].key
    ensures Cut(run, m, c + 1, q)
  {
    forall j | 0 <= j < q
      ensures AtMost(run[j].key, m[c].key)
    {
      assert c > 0 ==> Less(m[c - 1].key, m[c].key);
    }
    forall j | q <= j < |run|
      ensures c + 1 < |m| && AtMost(m[c + 1].key, run[j].key)
    {
      assert q > p ==> Less(run[p].key, run[j].key);
      Beside(m, c, run[j]);
    }
    if q < |run| {
      Beside(m, c, run[q]);
    }
  }

  /** Just before cut c + 1 and not holding entry c means just before cut c. */
  lemma StepBack(runs: seq<seq<Entry>>, m: seq<Entry>, i: nat, c: nat, h: nat, ph: nat, q: nat)
    requires IsMerge(runs, m) && c < |m| && h < |runs| && i < |runs| && i != h
    requires ph < |runs[h]| && runs[h][ph] == m[c]
    requires BeforeAt(runs[i], m, c + 1, q)
    ensures BeforeAt(runs[i], m, c, q)
  {
    NoTwin(runs, h, i, ph);
    var run := runs[i];
    var p: nat :| Cut(run, m, c + 1, p) && q == PrevPos(|run|, p);
    assert c + 1 < |m| ==> Less(m[c].key, m[c + 1].key);
    forall j | 0 <= j < p
      ensures c > 0 && AtMost(run[j].key, m[c - 1].key)
    {
      assert AtMost(run[j].key, m[c].key);
      Beside(m, c, run[j]);
    }
    assert p > 0 ==> AtMost(run[0].key, m[c - 1].key);
    assert Cut(run, m, c, p);
  }

  /** The entry right after the cut is the head of exactly one child and the least of all heads. */
  lemma HeadAt(runs: seq<seq<Entry>>, m: seq<Entry>, pos: seq<nat>, c: nat) returns (h: int)
    requires IsMerge(runs, m) && |pos| == |runs| && c <= |m|
    requires forall i :: 0 <= i < |runs| ==> Cut(runs[i], m, c, pos[i])
    ensures c == |m| ==> forall i :: 0 <= i < |runs| ==> pos[i] == |runs[i]|
    ensures c < |m| ==> 0 <= h < |runs| && pos[h] < |runs[h]| && runs[h][pos[h]] == m[c]
    ensures c < |m| ==> forall i :: 0 <= i < |runs| && pos[i] < |runs[i]| && i != h ==>
                                      Less(m[c].key, runs[i][pos[i]].key)
  {
    hide Less;
    h := -1;
    forall i | 0 <= i < |runs|
      ensures pos[i] < |runs[i]| ==> c < |m|
    {
      SidesMatch(runs[i], m, c, pos[i]);
    }
    if c < |m| {
      assert m[c] in m;
      h :| 0 <= h < |runs| && m[c] in runs[h];
      HeldAt(runs[h], m, c, pos[h]);
      forall i | 0 <= i < |runs| && pos[i] < |runs[i]| && i != h
        ensures Less(m[c].key, runs[i][pos[i]].key)
      {
        NoTwin(runs, h, i, pos[h]);
        assert runs[i][pos[i]] in runs[i];
        OneIsLess(m[c].key, runs[i][pos[i]].key);
      }
    }
  }

  /** A child that holds the entry after the cut stands on it. */
  lemma HeldAt(run: seq<Entry>, m: seq<Entry>, c: nat, p: nat)
    requires Sorted(run) && Sorted(m) && c < |m| && Cut(run, m, c, p) && m[c] in run
    ensures p < |run| && run[p] == m[c]
  {
    var j: nat :| j < |run| && run[j] == m[c];
    assert c > 0 ==> Less(m[c - 1].key, m[c].key);
    assert forall q :: 0 <= q < j ==> Less(run[q].key, run[j].key);
  }

  /** A child just before the cut shows its last entry before it, if it has one. */
  lemma LastBefore(run: seq<Entry>, m: seq<Entry>, c: nat, q: nat)
    requires Sorted(run) && Sorted(m) && c <= |m| && BeforeAt(run, m, c, q)
    ensures q < |run| ==> c > 0 && AtMost(run[q].key, m[c - 1].key)
    ensures c == 0 ==> q == |run|
    ensures forall j :: c > 0 && 0 <= j < |run| && run[j] == m[c - 1] ==> q == j
  {
    var p: nat :| Cut(run, m, c, p) && q == PrevPos(|run|, p);
    SidesMatch(run, m, c, p);
    assert 0 < c < |m| ==> Less(m[c - 1].key, m[c].key);
  }

  /** The entry right before the cut is the last of exactly one child and the greatest of all. */
  lemma TailAt(runs: seq<seq<Entry>>, m: seq<Entry>, pos: seq<nat>, c: nat) returns (h: int)
    requires IsMerge(runs, m) && |pos| == |runs| && c <= |m|
    requires forall i :: 0 <= i < |runs| ==> BeforeAt(runs[i], m, c, pos[i])
    ensures c == 0 ==> forall i :: 0 <= i < |runs| ==> pos[i] == |runs[i]|
    ensures c > 0 ==> 0 <= h < |runs| && pos[h] < |runs[h]| && runs[h][pos[h]] == m[c - 1]
    ensures c > 0 ==> forall i :: 0 <= i < |runs| && pos[i] < |runs[i]| && i != h ==>
                                    Less(runs[i][pos[i]].key, m[c - 1].key)
  {
    hide Less;
    h := -1;
    forall i | 0 <= i < |runs|
      ensures c == 0 ==> pos[i] == |runs[i]|
      ensures pos[i] < |runs[i]| ==> c > 0 && AtMost(runs[i][pos[i]].key, m[c - 1].key)
    {
      LastBefore(runs[i], m, c, pos[i]);
    }
    if c > 0 {
      assert m[c - 1] in m;
      h :| 0 <= h < |runs| && m[c - 1] in runs[h];
      LastBefore(runs[h], m, c, pos[h]);
      forall i | 0 <= i < |runs| && pos[i] < |runs[i]| && i != h
        ensures Less(runs[i][pos[i]].key, m[c - 1].key)
      {
        NoTwin(runs, h, i, pos[h]);
        assert runs[i][pos[i]] in runs[i];
        OneIsLess(runs[i][pos[i]].key, m[c - 1].key);
      }
    }
  }
}
