/**
 The user-visible iterator: a forward/reverse state machine over internal entries that
 shows each live user key once, as of one sequence number (db/db_iter.cc).
 */
module DbIter {
  import opened Entries
  import opened Merger
  import opened Positions
  import opened CompactionPass

  /** ParseKey succeeded and the entry is not newer than the iterator's sequence. */
  predicate Readable(k: IKey, s: nat) {
    Parses(k) && k.seqno <= s
  }

  /** Entry `i` is what the iterator shows for its user key: a value nothing newer overrides. */
  ghost predicate Shown(es: seq<Entry>, s: nat, i: int) {
    && 0 <= i < |es| && Readable(es[i].key, s) && es[i].key.kind == TYPE_VALUE
    && forall j :: 0 <= j < i && Readable(es[j].key, s) ==> es[j].key.user != es[i].key.user
  }

  /** Positions of the shown entries among the first `n`. */
  ghost function Live(es: seq<Entry>, s: nat, n: nat): seq<nat>
    requires n <= |es|
  {
    if n == 0 then [] else Live(es, s, n - 1) + if Shown(es, s, n - 1) then [n - 1] else []
  }

  /** The sorted map a plain cursor would walk: live user keys and their values. */
  ghost function View(es: seq<Entry>, s: nat): (r: seq<(int, seq<int>)>) {
    var live := Live(es, s, |es|);
    LiveInRange(es, s, |es|);
    seq(|live|, k requires 0 <= k < |live| => (es[live[k]].key.user, es[live[k]].value))
  }

  lemma {:induction false} LiveInRange(es: seq<Entry>, s: nat, n: nat)
    requires n <= |es|
    ensures forall k :: 0 <= k < |Live(es, s, n)| ==> Live(es, s, n)[k] < n && Shown(es, s, Live(es, s, n)[k])
    ensures forall j, k :: 0 <= j < k < |Live(es, s, n)| ==> Live(es, s, n)[j] < Live(es, s, n)[k]
  {
    if n > 0 {
      LiveInRange(es, s, n - 1);
    }
  }

  lemma {:induction false} LivePrefix(es: seq<Entry>, s: nat, a: nat, b: nat)
    requires a <= b <= |es|
    ensures Live(es, s, a) <= Live(es, s, b)
    ensures (forall i :: a <= i < b ==> !Shown(es, s, i)) ==> Live(es, s, a) == Live(es, s, b)
  {
    if a < b {
      LivePrefix(es, s, a, b - 1);
    }
  }

  /** The rank of a shown entry, and what the view holds there. */
  lemma RankOf(es: seq<Entry>, s: nat, p: nat)
    requires Shown(es, s, p)
    ensures
      var at := |Live(es, s, p)|;
      at < |View(es, s)| && View(es, s)[at] == (es[p].key.user, es[p].value)
  {
    LivePrefix(es, s, p + 1, |es|);
  }

  /** Neighbouring shown entries have neighbouring ranks. */
  lemma NextRank(es: seq<Entry>, s: nat, p: nat, q: nat)
    requires Shown(es, s, p) && p < q <= |es|
    requires forall i :: p < i < q ==> !Shown(es, s, i)
    ensures |Live(es, s, q)| == |Live(es, s, p)| + 1
  {
    LivePrefix(es, s, p + 1, q);
  }

  /** The view lists its keys in ascending order. */
  lemma ViewAscends(es: seq<Entry>, s: nat)
    requires Sorted(es)
    ensures forall j, k :: 0 <= j < k < |View(es, s)| ==> View(es, s)[j].0 < View(es, s)[k].0
  {
    var live := Live(es, s, |es|);
    LiveInRange(es, s, |es|);
    forall j, k | 0 <= j < k < |live|
      ensures es[live[j]].key.user < es[live[k]].key.user
    {
      assert Less(es[live[j]].key, es[live[k]].key);
    }
  }

  /** The iterator shows exactly the keys a point lookup finds, with the same values. */
  lemma ViewIsLookup(es: seq<Entry>, s: nat, u: int, v: seq<int>)
    requires Sorted(es) && AllParse(es)
    ensures (u, v) in View(es, s) <==> Lookup(SetOf(es), u, s) == Found(v)
  {
    LookupBySeek(es, u, s);
    var p := SeekPos(es, Target(u, s));
    assert forall j :: 0 <= j < |es| ==> es[j] in es;
    if (u, v) in View(es, s) {
      var k :| 0 <= k < |View(es, s)| && View(es, s)[k] == (u, v);
      LiveInRange(es, s, |es|);
      var i := Live(es, s, |es|)[k];
      FirstReadable(es, u, s, i);
    }
    if Lookup(SetOf(es), u, s) == Found(v) {
      forall j | 0 <= j < p && Readable(es[j].key, s)
        ensures es[j].key.user != u
      {
        assert Less(es[j].key, Target(u, s));
      }
      assert Shown(es, s, p);
      RankOf(es, s, p);
    }
  }

  lemma FirstReadable(es: seq<Entry>, u: int, s: nat, i: nat)
    requires Sorted(es) && AllParse(es) && Shown(es, s, i) && es[i].key.user == u
    ensures SeekPos(es, Target(u, s)) == i
  {
    forall j | 0 <= j < i
      ensures Less(es[j].key, Target(u, s))
    {
      assert es[j] in es;
      assert Less(es[j].key, es[i].key);
    }
    SeekPosIs(es, Target(u, s), i);
  }

  datatype SavedKey = Cleared | Saved(user: int)

  predicate Skips(skip: SavedKey, user: int) {
    skip.Saved? && user <= skip.user
  }

  // ---- Scanning forward ----

  /** Entry `i` is a value nothing readable from `c` on overrides. */
  ghost predicate FirstFrom(es: seq<Entry>, s: nat, c: nat, i: int) {
    && c <= i < |es| && Readable(es[i].key, s) && es[i].key.kind == TYPE_VALUE
    && forall j :: c <= j < i && Readable(es[j].key, s) ==> es[j].key.user != es[i].key.user
  }

  /** What a forward scan from anywhere may stop at. */
  ghost predicate Wanted(es: seq<Entry>, s: nat, skip: SavedKey, i: int) {
    Shown(es, s, i) && !Skips(skip, es[i].key.user)
  }

  /** At `c` with `skip` saved, the scan still tells the wanted entries of `skip0` apart. */
  ghost predicate Settled(es: seq<Entry>, s: nat, skip0: SavedKey, c: nat, skip: SavedKey) {
    && (forall i :: FirstFrom(es, s, c, i) ==>
          (Wanted(es, s, skip0, i) <==> !Skips(skip, es[i].key.user)))
    && (skip.Saved? ==>
          forall i :: c <= i < |es| && Readable(es[i].key, s) ==> skip.user <= es[i].key.user)
  }

  /** One turn of the scan: stop here, or go on with `skip'`. */
  lemma ScanStep(es: seq<Entry>, s: nat, skip0: SavedKey, c: nat, skip: SavedKey, next: SavedKey)
    requires Sorted(es) && c < |es| && Settled(es, s, skip0, c, skip)
    requires next == if Readable(es[c].key, s) && es[c].key.kind == TYPE_DELETION then Saved(es[c].key.user) else skip
    ensures
      var stop := Readable(es[c].key, s) && es[c].key.kind != TYPE_DELETION && !Skips(skip, es[c].key.user);
      && (Wanted(es, s, skip0, c) <==> stop)
      && (!stop ==> Settled(es, s, skip0, c + 1, next))
  {
    assert Readable(es[c].key, s) && es[c].key.kind != TYPE_DELETION ==> FirstFrom(es, s, c, c);
    if !(Readable(es[c].key, s) && es[c].key.kind != TYPE_DELETION && !Skips(skip, es[c].key.user)) {
      forall i | FirstFrom(es, s, c + 1, i)
        ensures Wanted(es, s, skip0, i) <==> !Skips(next, es[i].key.user)
      {
        assert Less(es[c].key, es[i].key);
        if !(Readable(es[c].key, s) && es[c].key.user == es[i].key.user) {
          assert FirstFrom(es, s, c, i);
        }
      }
    }
  }

  /** After a shown entry, whatever its key still hides is skipped. */
  lemma SettledAfter(es: seq<Entry>, s: nat, p: nat, c: nat)
    requires Sorted(es) && Shown(es, s, p) && c <= p
    requires forall j :: c <= j < p ==> !Readable(es[j].key, s)
    ensures Settled(es, s, Saved(es[p].key.user), c, Saved(es[p].key.user))
  {
    forall i, j | 0 <= j < c && FirstFrom(es, s, c, i) && es[p].key.user < es[i].key.user
      ensures es[j].key.user != es[i].key.user
    {
      assert Less(es[j].key, es[p].key);
    }
    forall i | c <= i < |es| && Readable(es[i].key, s)
      ensures es[p].key.user <= es[i].key.user
    {
      assert i == p || Less(es[p].key, es[i].key);
    }
  }

  /** Past `p` the shown entries are the wanted ones, and they rank one higher. */
  lemma WantedAfter(es: seq<Entry>, s: nat, p: nat, from: nat, q: nat)
    requires Sorted(es) && Shown(es, s, p) && from <= p && q <= |es| && from <= q
    requires q < |es| ==> Wanted(es, s, Saved(es[p].key.user), q)
    requires forall i :: from <= i < q ==> !Wanted(es, s, Saved(es[p].key.user), i)
    ensures p < q && |Live(es, s, p + 1)| == |Live(es, s, p)| + 1
    ensures forall i :: p < i < q ==> !Shown(es, s, i)
  {
    forall i | p < i < |es| && Shown(es, s, i)
      ensures Wanted(es, s, Saved(es[p].key.user), i)
    {
      assert Less(es[p].key, es[i].key);
    }
    forall i | 0 <= i <= p
      ensures es[i].key.user <= es[p].key.user
    {
      assert i == p || Less(es[i].key, es[p].key);
    }
  }

  /** With nothing saved, the scan stops at whatever is shown. */
  lemma NothingSkipped(es: seq<Entry>, s: nat)
    ensures forall i {:trigger Shown(es, s, i)} {:trigger Wanted(es, s, Cleared, i)} ::
              Wanted(es, s, Cleared, i) <==> Shown(es, s, i)
  {
  }

  lemma SettledAtSeek(es: seq<Entry>, s: nat, t: int)
    requires Sorted(es)
    ensures SeekPos(es, Target(t, s)) <= |es|
    ensures Settled(es, s, Cleared, SeekPos(es, Target(t, s)), Cleared)
    ensures forall i :: Shown(es, s, i) ==> (SeekPos(es, Target(t, s)) <= i <==> t <= es[i].key.user)
  {
    var c := SeekPos(es, Target(t, s));
    forall i, j | FirstFrom(es, s, c, i) && 0 <= j < c && Readable(es[j].key, s)
      ensures es[j].key.user != es[i].key.user
    {
      assert Less(es[j].key, Target(t, s));
      assert AtMost(Target(t, s), es[i].key);
    }
  }

  /** The view splits at `t` where the run splits at `c`. */
  lemma SplitView(es: seq<Entry>, s: nat, c: nat, t: int)
    requires c <= |es| && forall i :: Shown(es, s, i) ==> (c <= i <==> t <= es[i].key.user)
    ensures |Live(es, s, c)| <= |View(es, s)|
    ensures forall k :: 0 <= k < |View(es, s)| ==> (k < |Live(es, s, c)| <==> View(es, s)[k].0 < t)
  {
    LivePrefix(es, s, c, |es|);
    LiveInRange(es, s, c);
    LiveInRange(es, s, |es|);
    LiveTail(es, s, c, |es|);
    forall k | 0 <= k < |View(es, s)|
      ensures k < |Live(es, s, c)| <==> View(es, s)[k].0 < t
    {
      assert Shown(es, s, Live(es, s, |es|)[k]);
    }
  }

  lemma {:induction false} LiveTail(es: seq<Entry>, s: nat, c: nat, n: nat)
    requires c <= n <= |es|
    ensures forall k :: |Live(es, s, c)| <= k < |Live(es, s, n)| ==> c <= Live(es, s, n)[k]
  {
    if c < n {
      LiveTail(es, s, c, n - 1);
    }
  }

  // ---- Scanning backward ----

  /** Among the entries from `g` up to `b`, only `p` could be shown. */
  ghost predicate OnlyFrom(es: seq<Entry>, s: nat, g: nat, b: nat, p: int) {
    && FirstFrom(es, s, g, p) && p < b
    && (forall j :: g <= j < p ==> !Readable(es[j].key, s))
    && (forall i :: FirstFrom(es, s, g, i) && i < b ==> i == p)
  }

  ghost predicate NoneFrom(es: seq<Entry>, s: nat, g: nat, b: nat) {
    forall i :: FirstFrom(es, s, g, i) ==> b <= i
  }

  /** `p` is the last shown entry before `b`, if one was found. */
  ghost predicate LastShown(es: seq<Entry>, s: nat, b: nat, found: bool, p: nat) {
    && (found ==> p < b && Shown(es, s, p))
    && forall i :: (if found then p + 1 else 0) <= i < b ==> !Shown(es, s, i)
  }

  /** What the backward scan knows: no candidate so far, or the saved entry `p`. */
  ghost predicate Backed(es: seq<Entry>, s: nat, g: nat, b: nat, kind: nat, key: SavedKey, value: seq<int>, p: nat) {
    if kind == TYPE_DELETION then NoneFrom(es, s, g, b)
    else OnlyFrom(es, s, g, b, p) && key == Saved(es[p].key.user) && value == es[p].value
  }

  /** A readable entry of the same or a new user takes over. */
  lemma BackStep(es: seq<Entry>, s: nat, g: nat, b: nat, kind: nat, key: SavedKey, value: seq<int>, p: nat)
    requires Sorted(es) && g < b <= |es| && Backed(es, s, g + 1, b, kind, key, value, p)
    ensures !Readable(es[g].key, s) ==> Backed(es, s, g, b, kind, key, value, p)
    ensures Readable(es[g].key, s) && (kind == TYPE_DELETION || !(es[g].key.user < key.user)) ==>
              if es[g].key.kind == TYPE_DELETION then NoneFrom(es, s, g, b) else OnlyFrom(es, s, g, b, g)
    ensures Readable(es[g].key, s) && kind != TYPE_DELETION && es[g].key.user < key.user ==>
              LastShown(es, s, b, true, p)
  {
    forall i | FirstFrom(es, s, g, i) && g < i
      ensures FirstFrom(es, s, g + 1, i)
    {
    }
    if kind != TYPE_DELETION {
      assert Less(es[g].key, es[p].key);
      if !Readable(es[g].key, s) {
        assert FirstFrom(es, s, g, p);
      } else if es[g].key.user < key.user {
        forall j | 0 <= j <= g
          ensures es[j].key.user < es[p].key.user
        {
          assert j == g || Less(es[j].key, es[g].key);
        }
        forall i | Shown(es, s, i) && p < i < b
          ensures false
        {
          assert FirstFrom(es, s, g + 1, i);
        }
      }
    }
  }

  lemma BackStart(es: seq<Entry>, s: nat, b: nat, key: SavedKey, value: seq<int>, p: nat)
    ensures Backed(es, s, b, b, TYPE_DELETION, key, value, p)
  {
  }

  /** The candidate is saved, and nothing before it can be read. */
  lemma CandidateIs(es: seq<Entry>, s: nat, g: nat, b: nat, kind: nat, key: SavedKey, value: seq<int>, p: nat)
    requires Backed(es, s, g, b, kind, key, value, p)
    ensures kind != TYPE_DELETION ==>
              && g <= p < |es| && key == Saved(es[p].key.user) && value == es[p].value
              && forall j :: g <= j < p ==> !Readable(es[j].key, s)
  {
  }

  /** Having reached the start, the candidate is shown. */
  lemma BackEnd(es: seq<Entry>, s: nat, b: nat, kind: nat, key: SavedKey, value: seq<int>, p: nat)
    requires Backed(es, s, 0, b, kind, key, value, p)
    ensures LastShown(es, s, b, kind != TYPE_DELETION, p)
  {
    forall i | Shown(es, s, i)
      ensures FirstFrom(es, s, 0, i)
    {
    }
  }

  /** The first position after `pos`, where an invalid iterator stands before the start. */
  function Gap(n: nat, pos: nat): nat {
    if pos >= n then 0 else pos + 1
  }

  /** The iterator over all internal entries of a store: a merging iterator, seen as a cursor over its merge. */
  class InternalIterator {
    const inner: MergingIterator
    ghost const run: seq<Entry>
    ghost var pos: nat

    constructor (inner: MergingIterator)
      requires inner.Valid()
      ensures Ok() && this.inner == inner && run == inner.merged && pos == inner.at
    {
      this.inner, run, pos := inner, inner.merged, inner.at;
    }

    ghost predicate Ok()
      reads this, inner, inner.children
    {
      && inner.Valid()
      && run == inner.merged && pos == inner.at
      && Sorted(run) && pos <= |run|
    }

    method IsValid() returns (b: bool)
      requires Ok()
      ensures b == (pos < |run|)
    {
      b := inner.IsValid();
    }

    method Current() returns (e: Entry)
      requires Ok() && pos < |run|
      ensures e == run[pos]
    {
      e := inner.Current();
    }

    method SeekToFirst()
      requires Ok()
      modifies this, inner, inner.children
      ensures Ok() && pos == 0
    {
      inner.SeekToFirst();
      pos := inner.at;
    }

    method SeekToLast()
      requires Ok()
      modifies this, inner, inner.children
      ensures Ok() && pos == LastPos(|run|)
    {
      inner.SeekToLast();
      pos := inner.at;
    }

    method Seek(k: IKey)
      requires Ok()
      modifies this, inner, inner.children
      ensures Ok() && pos == SeekPos(run, k)
    {
      inner.Seek(k);
      pos := inner.at;
    }

    method Next()
      requires Ok() && pos < |run|
      modifies this, inner, inner.children
      ensures Ok() && pos == old(pos) + 1
    {
      inner.Next();
      pos := inner.at;
    }

    method Prev()
      requires Ok() && pos < |run|
      modifies this, inner, inner.children
      ensures Ok() && pos == PrevPos(|run|, old(pos))
    {
      inner.Prev();
      pos := inner.at;
    }
  }

  class DBIter {
    const iter: InternalIterator
    const sequence: nat
    var forward: bool
    var valid: bool
    var savedKey: SavedKey
    var savedValue: seq<int>
    var corrupt: bool
    /** Position of the shown entry in the run, and its rank in the view. */
    ghost var p: nat
    ghost var at: nat

    constructor (iter: InternalIterator, sequence: nat)
      requires iter.Ok()
      ensures Valid() && this.iter == iter && this.sequence == sequence && !valid && !corrupt
    {
      this.iter, this.sequence := iter, sequence;
      forward, valid, savedKey, savedValue, corrupt := true, false, Cleared, [], false;
      p, at := 0, |View(iter.run, sequence)|;
    }

    /**
     Forward: the inner iterator is at the shown entry.  Reverse: the shown entry is saved,
     and the inner iterator stands before it with nothing readable in between.
     */
    ghost predicate Valid()
      reads this, iter, iter.inner, iter.inner.children
    {
      && iter.Ok()
      && (if valid
          then Shown(iter.run, sequence, p) && at == |Live(iter.run, sequence, p)|
               && if forward then iter.pos == p else Reversed()
          else at == |View(iter.run, sequence)|)
    }

    ghost predicate Reversed()
      requires p < |iter.run|
      reads this, iter, iter.inner, iter.inner.children
    {
      && savedKey == Saved(iter.run[p].key.user) && savedValue == iter.run[p].value
      && Gap(|iter.run|, iter.pos) <= p
      && forall j :: Gap(|iter.run|, iter.pos) <= j < p ==> !Readable(iter.run[j].key, sequence)
    }

    method Key() returns (k: int)
      requires Valid() && valid
      ensures at < |View(iter.run, sequence)| && k == View(iter.run, sequence)[at].0
    {
      hide MergingIterator.Valid;
      RankOf(iter.run, sequence, p);
      if forward {
        var e := iter.Current();
        k := e.key.user;
      } else {
        k := savedKey.user;
      }
    }

    method Value() returns (v: seq<int>)
      requires Valid() && valid
      ensures at < |View(iter.run, sequence)| && v == View(iter.run, sequence)[at].1
    {
      hide MergingIterator.Valid;
      RankOf(iter.run, sequence, p);
      if forward {
        var e := iter.Current();
        v := e.value;
      } else {
        v := savedValue;
      }
    }

    /** Corruption is reported for good, and only over an entry that does not parse. */
    twostate predicate StatusKept()
      reads this
    {
      (old(corrupt) ==> corrupt) && (AllParse(iter.run) ==> corrupt == old(corrupt))
    }

    /** Scan forward for the next entry to show; deletions hide what follows them. */
    method FindNextUserEntry(skip0: SavedKey)
      requires iter.Ok() && forward && Settled(iter.run, sequence, skip0, iter.pos, skip0)
      modifies this, iter, iter.inner, iter.inner.children
      ensures iter.Ok() && forward && StatusKept() && old(iter.pos) <= iter.pos
      ensures p == old(p) && at == old(at)
      ensures if valid then Wanted(iter.run, sequence, skip0, iter.pos) else iter.pos == |iter.run|
      ensures forall i :: old(iter.pos) <= i < iter.pos ==> !Wanted(iter.run, sequence, skip0, i)
    {
      hide MergingIterator.Valid, Settled, Wanted, Shown;
      var skip := skip0;
      ghost var c := iter.pos;
      var more := iter.IsValid();
      while more
        invariant iter.Ok() && more == (iter.pos < |iter.run|)
        invariant iter.Ok() && c <= iter.pos && forward && StatusKept()
        invariant p == old(p) && at == old(at)
        invariant Settled(iter.run, sequence, skip0, iter.pos, skip)
        invariant forall i :: c <= i < iter.pos ==> !Wanted(iter.run, sequence, skip0, i)
        decreases |iter.run| - iter.pos
      {
        var e := iter.Current();
        ghost var was := skip;
        assert e in iter.run;
        if !Parses(e.key) {
          corrupt := true;
        } else if e.key.seqno <= sequence {
          if e.key.kind == TYPE_DELETION {
            skip := Saved(e.key.user);
          } else if skip.Saved? && e.key.user <= skip.user {
            // hidden
          } else {
            ScanStep(iter.run, sequence, skip0, iter.pos, skip, skip);
            valid, savedKey := true, Cleared;
            return;
          }
        }
        ScanStep(iter.run, sequence, skip0, iter.pos, was, skip);
        iter.Next();
        more := iter.IsValid();
      }
      savedKey, valid := Cleared, false;
    }

    /** Record where the forward scan stopped: the first shown entry from position `c`. */
    ghost method Land(c: nat, rank: nat)
      requires iter.Ok() && forward && c <= iter.pos && rank == |Live(iter.run, sequence, c)|
      requires if valid then Shown(iter.run, sequence, iter.pos) else iter.pos == |iter.run|
      requires forall i :: c <= i < iter.pos ==> !Shown(iter.run, sequence, i)
      modifies this`p, this`at
      ensures Valid() && at == rank
    {
      hide MergingIterator.Valid;
      LivePrefix(iter.run, sequence, c, iter.pos);
      p, at := iter.pos, rank;
    }

    /** Put the inner iterator back among the entries of the current key, which is saved. */
    method FaceForward()
      requires Valid() && valid
      modifies this`forward, this`savedKey, iter, iter.inner, iter.inner.children
      ensures iter.Ok() && forward && iter.pos <= p && savedKey == Saved(iter.run[p].key.user)
      ensures forall j :: iter.pos <= j < p ==> !Readable(iter.run[j].key, sequence)
    {
      hide MergingIterator.Valid;
      if !forward {
        forward := true;
        var ok := iter.IsValid();
        if !ok {
          iter.SeekToFirst();
        } else {
          iter.Next();
        }
      } else {
        var e := iter.Current();
        savedKey := Saved(e.key.user);
      }
    }

    method Next()
      requires Valid() && valid
      modifies this, iter, iter.inner, iter.inner.children
      ensures Valid() && at == old(at) + 1 && StatusKept()
    {
      hide MergingIterator.Valid, Settled, View, Live, LastShown;
      FaceForward();
      ghost var from := iter.pos;
      SettledAfter(iter.run, sequence, p, from);
      FindNextUserEntry(savedKey);
      WantedAfter(iter.run, sequence, p, from, iter.pos);
      Land(p + 1, at + 1);
    }

    /** Weigh the entry the inner iterator is at: a new candidate, nothing, or the end of the search. */
    method ConsiderEarlier(kind0: nat, ghost b: nat) returns (kind: nat, done: bool)
      requires iter.Ok() && iter.pos < b <= |iter.run|
      requires Backed(iter.run, sequence, iter.pos + 1, b, kind0, savedKey, savedValue, p)
      modifies this`savedKey, this`savedValue, this`p, this`corrupt
      ensures StatusKept()
      ensures done ==> kind != TYPE_DELETION && LastShown(iter.run, sequence, b, true, p)
      ensures Backed(iter.run, sequence, if done then iter.pos + 1 else iter.pos, b, kind, savedKey, savedValue, p)
    {
      hide MergingIterator.Valid, OnlyFrom, NoneFrom, LastShown, Shown;
      kind, done := kind0, false;
      var e := iter.Current();
      assert e in iter.run;
      BackStep(iter.run, sequence, iter.pos, b, kind, savedKey, savedValue, p);
      if !Parses(e.key) {
        corrupt := true;
      } else if e.key.seqno <= sequence {
        CandidateIs(iter.run, sequence, iter.pos + 1, b, kind, savedKey, savedValue, p);
        if kind != TYPE_DELETION && e.key.user < savedKey.user {
          done := true;
          return;
        }
        kind := e.key.kind;
        if kind == TYPE_DELETION {
          savedKey, savedValue := Cleared, [];
        } else {
          savedKey, savedValue, p := Saved(e.key.user), e.value, iter.pos;
        }
      }
    }

    /** Scan backward for the last entry to show before the inner iterator's successor. */
    method FindPrevUserEntry()
      requires iter.Ok() && !forward
      modifies this, iter, iter.inner, iter.inner.children
      ensures iter.Ok() && StatusKept() && at == old(at)
      ensures LastShown(iter.run, sequence, old(Gap(|iter.run|, iter.pos)), valid, p)
      ensures valid ==> !forward && Reversed()
    {
      hide MergingIterator.Valid, Backed, LastShown, Shown;
      var kind: nat := TYPE_DELETION;
      ghost var b := Gap(|iter.run|, iter.pos);
      BackStart(iter.run, sequence, b, savedKey, savedValue, p);
      var done := false;
      var more := iter.IsValid();
      while more && !done
        invariant iter.Ok() && more == (iter.pos < |iter.run|) && !forward && StatusKept() && at == old(at)
        invariant Gap(|iter.run|, iter.pos) <= b <= |iter.run|
        invariant Backed(iter.run, sequence, Gap(|iter.run|, iter.pos), b, kind, savedKey, savedValue, p)
        invariant done ==> kind != TYPE_DELETION && LastShown(iter.run, sequence, b, true, p)
        decreases !done, Gap(|iter.run|, iter.pos)
      {
        kind, done := ConsiderEarlier(kind, b);
        if !done {
          iter.Prev();
          more := iter.IsValid();
        }
      }
      CandidateIs(iter.run, sequence, Gap(|iter.run|, iter.pos), b, kind, savedKey, savedValue, p);
      if !done {
        BackEnd(iter.run, sequence, b, kind, savedKey, savedValue, p);
      }
      if kind == TYPE_DELETION {
        valid, savedKey, savedValue, forward := false, Cleared, [], true;
      } else {
        valid := true;
      }
    }

    /** Record where a backward scan from before `c` ended. */
    ghost method LandBack(c: nat)
      requires iter.Ok() && c <= |iter.run|
      requires LastShown(iter.run, sequence, c, valid, p) && (valid ==> !forward && Reversed())
      modifies this`at
      ensures Valid()
      ensures at == PrevPos(|View(iter.run, sequence)|, |Live(iter.run, sequence, c)|)
    {
      hide MergingIterator.Valid;
      if valid {
        NextRank(iter.run, sequence, p, c);
        at := |Live(iter.run, sequence, p)|;
      } else {
        LivePrefix(iter.run, sequence, 0, c);
        at := |View(iter.run, sequence)|;
      }
    }

    method Prev()
      requires Valid() && valid
      modifies this, iter, iter.inner, iter.inner.children
      ensures Valid() && at == PrevPos(|View(iter.run, sequence)|, old(at)) && StatusKept()
    {
      hide MergingIterator.Valid, Settled, View, Live;
      ghost var c := p;
      if forward {
        var e := iter.Current();
        savedKey := Saved(e.key.user);
        ScanToEarlierKey();
        var ok := iter.IsValid();
        if !ok {
          valid, savedKey, savedValue := false, Cleared, [];
          LandBack(c);
          return;
        }
        forward := false;
      }
      ghost var g := Gap(|iter.run|, iter.pos);
      FindPrevUserEntry();
      LandBack(c);
    }

    /** Step back past every entry of the saved key. */
    method ScanToEarlierKey()
      requires iter.Ok() && p < |iter.run| && iter.pos == p && Shown(iter.run, sequence, p)
      requires savedKey == Saved(iter.run[p].key.user)
      modifies iter, iter.inner, iter.inner.children
      ensures iter.Ok() && Gap(|iter.run|, iter.pos) <= p
      ensures forall j :: Gap(|iter.run|, iter.pos) <= j < p ==> !Readable(iter.run[j].key, sequence)
    {
      hide MergingIterator.Valid;
      while true
        invariant iter.Ok() && iter.pos <= p
        invariant forall j :: iter.pos <= j < p ==> iter.run[j].key.user == savedKey.user
        decreases iter.pos
      {
        iter.Prev();
        var ok := iter.IsValid();
        if !ok {
          return;
        }
        var e := iter.Current();
        if e.key.user < savedKey.user {
          return;
        }
        assert Less(iter.run[iter.pos].key, iter.run[p].key);
      }
    }

    /** The first visible key at or after `target`. */
    method Seek(target: int)
      requires Valid()
      modifies this, iter, iter.inner, iter.inner.children
      ensures Valid() && StatusKept() && at <= |View(iter.run, sequence)|
      ensures forall k :: 0 <= k < |View(iter.run, sequence)| ==>
                (k < at <==> View(iter.run, sequence)[k].0 < target)
    {
      hide MergingIterator.Valid, Settled, View, Live, Shown, Wanted, Less, Sorted, SeekPos;
      forward, savedKey, savedValue := true, Cleared, [];
      iter.Seek(Target(target, sequence));
      ghost var c := iter.pos;
      SettledAtSeek(iter.run, sequence, target);
      var ok := iter.IsValid();
      if ok {
        FindNextUserEntry(Cleared);
      } else {
        valid := false;
      }
      SplitView(iter.run, sequence, c, target);
      NothingSkipped(iter.run, sequence);
      Land(c, |Live(iter.run, sequence, c)|);
    }

    method SeekToFirst()
      requires Valid()
      modifies this, iter, iter.inner, iter.inner.children
      ensures Valid() && at == 0 && StatusKept()
    {
      hide MergingIterator.Valid;
      forward, savedValue := true, [];
      iter.SeekToFirst();
      var ok := iter.IsValid();
      if ok {
        FindNextUserEntry(Cleared);
      } else {
        valid := false;
      }
      Land(0, 0);
    }

    method SeekToLast()
      requires Valid()
      modifies this, iter, iter.inner, iter.inner.children
      ensures Valid() && at == LastPos(|View(iter.run, sequence)|) && StatusKept()
    {
      hide MergingIterator.Valid;
      forward, savedValue := false, [];
      iter.SeekToLast();
      FindPrevUserEntry();
      LandBack(|iter.run|);
    }
  }
}
