/**
 Where the output of a compaction is cut into files: by size, and before keys at which the file
 would come to overlap too many bytes two levels down (db/db_impl.cc, db/version_set.cc).
 */
module CompactionCuts {
  import opened Entries
  import opened Versions

  /** The grandparent files with their limit, and the size limit of an output with the size of a table. */
  datatype Limits = Limits(grandparents: seq<File>, maxOverlap: nat, maxSize: nat, tableBytes: seq<Entry> -> nat)

  // ---- Stops ----

  /** How many files at the front end before the key. */
  function PassedBy(gs: seq<File>, k: IKey): (n: nat)
    ensures n <= |gs|
    ensures forall i :: 0 <= i < n ==> Less(gs[i].largest, k)
    ensures n < |gs| ==> !Less(gs[n].largest, k)
  {
    if gs == [] || !Less(gs[0].largest, k) then 0 else PassedBy(gs[1..], k) + 1
  }

  lemma PassedIs(gs: seq<File>, k: IKey, n: nat)
    requires n <= |gs| && (forall i :: 0 <= i < n ==> Less(gs[i].largest, k)) && (n < |gs| ==> !Less(gs[n].largest, k))
    ensures PassedBy(gs, k) == n
  {
    hide Less, PassedBy;
    assert n <= PassedBy(gs, k);
  }

  /** The bytes of the grandparent files passed from entry `j` to entry `i`. */
  function PassedBytes(limits: Limits, input: seq<Entry>, j: nat, i: nat): nat
    requires j < |input| && i < |input|
  {
    Between(limits.grandparents, PassedBy(limits.grandparents, input[j].key), PassedBy(limits.grandparents, input[i].key))
  }

  function Between(gs: seq<File>, a: nat, b: nat): nat
    requires a <= |gs| && b <= |gs|
  {
    if a <= b then TotalFileSize(gs[a..b]) else 0
  }

  /** Too many bytes have been passed since the last stop, or since the first entry. */
  function Stop(limits: Limits, input: seq<Entry>, i: nat): bool
    requires i < |input|
    decreases i, 1
  {
    i > 0 && PassedBytes(limits, input, Since(limits, input, i), i) > limits.maxOverlap
  }

  /** The last stop before entry `i`, or the first entry. */
  function Since(limits: Limits, input: seq<Entry>, i: nat): (j: nat)
    requires 0 < i <= |input|
    ensures j < i
    decreases i, 0
  {
    if i == 1 then 0 else if Stop(limits, input, i - 1) then i - 1 else Since(limits, input, i - 1)
  }

  /** Where the scan of the grandparents stands before entry `i`. */
  ghost predicate Tracked(limits: Limits, input: seq<Entry>, i: nat, index: nat, seen: bool, bytes: nat) {
    && i <= |input|
    && if i == 0 then index == 0 && !seen && bytes == 0
       else seen && index == PassedBy(limits.grandparents, input[i - 1].key)
            && bytes == PassedBytes(limits, input, Since(limits, input, i), i - 1)
  }

  lemma {:induction false} SizesJoin(a: seq<File>, b: seq<File>)
    ensures TotalFileSize(a + b) == TotalFileSize(a) + TotalFileSize(b)
  {
    if a == [] {
      assert a + b == b;
    } else {
      assert (a + b)[1..] == a[1..] + b;
      SizesJoin(a[1..], b);
    }
  }

  lemma BetweenAdds(gs: seq<File>, a: nat, b: nat, c: nat)
    requires a <= b <= c <= |gs|
    ensures Between(gs, a, c) == Between(gs, a, b) + TotalFileSize(gs[b..c]) && Between(gs, a, a) == 0
  {
    SizesJoin(gs[a..b], gs[b..c]);
    assert gs[a..b] + gs[b..c] == gs[a..c];
  }

  /** A later key passes no fewer files. */
  lemma PassedAscends(gs: seq<File>, k: IKey, k': IKey)
    requires k == k' || Less(k, k')
    ensures PassedBy(gs, k) <= PassedBy(gs, k')
  {
    var n := PassedBy(gs, k);
    assert PassedBy(gs, k') < n ==> Less(gs[PassedBy(gs, k')].largest, k);
  }

  /** One key more: the files passed are counted, and the stop is where the scan says. */
  lemma TrackStep(limits: Limits, input: seq<Entry>, i: nat, index: nat, seen: bool, bytes: nat, index': nat)
    requires Sorted(input) && i < |input| && Tracked(limits, input, i, index, seen, bytes)
    requires index <= index' <= |limits.grandparents|
    requires forall f :: f in limits.grandparents[index..index'] ==> Less(f.largest, input[i].key)
    requires index' < |limits.grandparents| ==> !Less(limits.grandparents[index'].largest, input[i].key)
    ensures
      var total := bytes + if seen then TotalFileSize(limits.grandparents[index..index']) else 0;
      && Stop(limits, input, i) == (total > limits.maxOverlap)
      && Tracked(limits, input, i + 1, index', true, if total > limits.maxOverlap then 0 else total)
  {
    hide Less, PassedBy, Between, TotalFileSize, Sorted;
    IndexIs(limits, input, i, index, seen, bytes, index');
    BetweenAdds(limits.grandparents, index', index', index');
    if i > 0 {
      hide PassedBytes;
      SinceAdds(limits, input, i, index, index');
      NonePassed(limits, input, i);
    }
  }

  lemma NonePassed(limits: Limits, input: seq<Entry>, i: nat)
    requires i < |input|
    ensures PassedBytes(limits, input, i, i) == 0
  {
    BetweenAdds(limits.grandparents, PassedBy(limits.grandparents, input[i].key),
                PassedBy(limits.grandparents, input[i].key), PassedBy(limits.grandparents, input[i].key));
  }

  lemma SinceAdds(limits: Limits, input: seq<Entry>, i: nat, index: nat, index': nat)
    requires Sorted(input) && 0 < i < |input| && index <= index' <= |limits.grandparents|
    requires PassedBy(limits.grandparents, input[i - 1].key) == index
    requires PassedBy(limits.grandparents, input[i].key) == index'
    ensures
      var s := Since(limits, input, i);
      PassedBytes(limits, input, s, i)
      == PassedBytes(limits, input, s, i - 1) + TotalFileSize(limits.grandparents[index..index'])
  {
    hide Less, PassedBy, Between, TotalFileSize, Since, Stop;
    var gs, s := limits.grandparents, Since(limits, input, i);
    KeysAscend(input, s, i - 1);
    PassedAscends(gs, input[s].key, input[i - 1].key);
    BetweenAdds(gs, PassedBy(gs, input[s].key), index, index');
  }

  lemma KeysAscend(input: seq<Entry>, a: nat, b: nat)
    requires Sorted(input) && a <= b < |input|
    ensures input[a].key == input[b].key || Less(input[a].key, input[b].key)
  {
  }

  lemma IndexIs(limits: Limits, input: seq<Entry>, i: nat, index: nat, seen: bool, bytes: nat, index': nat)
    requires Sorted(input) && i < |input| && Tracked(limits, input, i, index, seen, bytes)
    requires index <= index' <= |limits.grandparents|
    requires forall f :: f in limits.grandparents[index..index'] ==> Less(f.largest, input[i].key)
    requires index' < |limits.grandparents| ==> !Less(limits.grandparents[index'].largest, input[i].key)
    ensures PassedBy(limits.grandparents, input[i].key) == index'
  {
    hide Since, Stop, PassedBytes;
    var gs := limits.grandparents;
    forall m | 0 <= m < index'
      ensures Less(gs[m].largest, input[i].key)
    {
      if m >= index {
        assert gs[index..index'][m - index] == gs[m];
      } else {
        KeysAscend(input, i - 1, i);
      }
    }
    PassedIs(gs, input[i].key, index');
  }

  // ---- Cuts ----

  ghost predicate StopAt(limits: Limits, input: seq<Entry>, s: int) {
    0 <= s < |input| && Stop(limits, input, s)
  }

  ghost predicate AllLess(es: seq<Entry>, k: IKey) {
    forall e :: e in es ==> Less(e.key, k)
  }

  ghost predicate AllFrom(es: seq<Entry>, k: IKey) {
    forall e :: e in es ==> AtMost(k, e.key)
  }

  /** Its prefixes of fewer than `n` entries are tables below the size limit. */
  ghost predicate GrewWithin(limits: Limits, es: seq<Entry>, n: nat) {
    forall m :: 0 < m < n && m <= |es| ==> limits.tableBytes(es[..m]) < limits.maxSize
  }

  /** The table is full, or a stop up to `done` comes after it. */
  ghost predicate CutDue(limits: Limits, input: seq<Entry>, es: seq<Entry>, done: nat) {
    || limits.tableBytes(es) >= limits.maxSize
    || exists s :: StopAt(limits, input, s) && s < done && AllLess(es, input[s].key)
  }

  /** The table is full, or a stop comes between it and the next one. */
  ghost predicate RightlyCut(limits: Limits, input: seq<Entry>, es: seq<Entry>, next: seq<Entry>) {
    || limits.tableBytes(es) >= limits.maxSize
    || exists s :: StopAt(limits, input, s) && AllLess(es, input[s].key) && AllFrom(next, input[s].key)
  }

  /** Below the size limit short of its last entry, and with entries on one side of each stop only. */
  ghost predicate TableOk(limits: Limits, input: seq<Entry>, es: seq<Entry>) {
    && es != [] && GrewWithin(limits, es, |es|)
    && forall s :: StopAt(limits, input, s) ==> AllLess(es, input[s].key) || AllFrom(es, input[s].key)
  }

  /** Outputs are cut where one is full or a stop comes, and nowhere else. */
  ghost predicate WellCut(limits: Limits, input: seq<Entry>, outs: seq<seq<Entry>>) {
    && (forall j :: 0 <= j < |outs| ==> TableOk(limits, input, outs[j]))
    && (forall j :: 0 <= j < |outs| - 1 ==> RightlyCut(limits, input, outs[j], outs[j + 1]))
  }

  /** The entries come before entry `i` and all later ones, and from every stop before `done` on. */
  ghost predicate Gathered(limits: Limits, input: seq<Entry>, es: seq<Entry>, i: nat, done: nat) {
    && (forall t :: i <= t < |input| ==> AllLess(es, input[t].key))
    && (forall s :: StopAt(limits, input, s) && s < done ==> AllFrom(es, input[s].key))
  }

  /** The tables written and the one in progress, with entries before `i` and stops before `done` seen to. */
  ghost predicate Cutting(limits: Limits, input: seq<Entry>, i: nat, done: nat, outs: seq<seq<Entry>>, builder: seq<Entry>) {
    && WellCut(limits, input, outs) && (outs != [] ==> CutDue(limits, input, outs[|outs| - 1], done))
    && GrewWithin(limits, builder, |builder| + 1) && Gathered(limits, input, builder, i, done)
  }

  lemma CutStart(limits: Limits, input: seq<Entry>)
    ensures Cutting(limits, input, 0, 0, [], [])
  {
  }

  lemma WriteTable(limits: Limits, input: seq<Entry>, outs: seq<seq<Entry>>, done: nat, es: seq<Entry>)
    requires WellCut(limits, input, outs) && (outs != [] ==> CutDue(limits, input, outs[|outs| - 1], done))
    requires TableOk(limits, input, es) && forall s :: StopAt(limits, input, s) && s < done ==> AllFrom(es, input[s].key)
    ensures WellCut(limits, input, outs + [es])
  {
    hide TableOk, AllLess, AllFrom, StopAt;
    var outs' := outs + [es];
    forall j | 0 <= j < |outs'| - 1
      ensures RightlyCut(limits, input, outs'[j], outs'[j + 1])
    {
      if j < |outs| - 1 {
        assert RightlyCut(limits, input, outs[j], outs[j + 1]);
      }
    }
  }

  /** What is gathered lies on one side of every stop. */
  lemma GatheredOneSide(limits: Limits, input: seq<Entry>, es: seq<Entry>, i: nat, done: nat)
    requires Gathered(limits, input, es, i, done) && i <= done
    ensures forall s :: StopAt(limits, input, s) ==> AllLess(es, input[s].key) || AllFrom(es, input[s].key)
  {
    hide AllLess, AllFrom;
    forall s | StopAt(limits, input, s)
      ensures AllLess(es, input[s].key) || AllFrom(es, input[s].key)
    {
      InRange(limits, input, s);
      assert s < done || i <= s;
    }
  }

  lemma InRange(limits: Limits, input: seq<Entry>, s: int)
    requires StopAt(limits, input, s)
    ensures 0 <= s < |input|
  {
  }

  /** At a stop the table in progress is closed, if there is one. */
  lemma CutAtStop(limits: Limits, input: seq<Entry>, i: nat, outs: seq<seq<Entry>>, builder: seq<Entry>)
    requires Cutting(limits, input, i, i, outs, builder) && i < |input| && Stop(limits, input, i) && builder != []
    ensures Cutting(limits, input, i, i + 1, outs + [builder], [])
  {
    hide Stop;
    assert StopAt(limits, input, i);
    GatheredOneSide(limits, input, builder, i, i);
    assert TableOk(limits, input, builder);
    WriteTable(limits, input, outs, i, builder);
    hide WellCut, TableOk, GrewWithin;
    NoneGathered(limits, input, i, i + 1);
  }

  lemma NoneGathered(limits: Limits, input: seq<Entry>, i: nat, done: nat)
    ensures Gathered(limits, input, [], i, done) && GrewWithin(limits, [], 1)
  {
  }

  lemma NoCut(limits: Limits, input: seq<Entry>, i: nat, outs: seq<seq<Entry>>, builder: seq<Entry>)
    requires Cutting(limits, input, i, i, outs, builder) && i < |input| && (!Stop(limits, input, i) || builder == [])
    ensures Cutting(limits, input, i, i + 1, outs, builder)
  {
    hide WellCut, Stop, GrewWithin, AllLess;
    if builder == [] {
      NoneGathered(limits, input, i, i + 1);
    }
    DueStays(limits, input, outs, i);
  }

  lemma DueStays(limits: Limits, input: seq<Entry>, outs: seq<seq<Entry>>, done: nat)
    requires outs != [] ==> CutDue(limits, input, outs[|outs| - 1], done)
    ensures outs != [] ==> CutDue(limits, input, outs[|outs| - 1], done + 1)
  {
    hide AllLess;
  }

  /** A dropped entry changes nothing. */
  lemma DropEntry(limits: Limits, input: seq<Entry>, i: nat, outs: seq<seq<Entry>>, builder: seq<Entry>)
    requires Cutting(limits, input, i, i + 1, outs, builder)
    ensures Cutting(limits, input, i + 1, i + 1, outs, builder)
  {
    hide WellCut, CutDue, GrewWithin, AllLess, AllFrom, StopAt;
  }

  lemma GatherMore(limits: Limits, input: seq<Entry>, i: nat, es: seq<Entry>)
    requires Sorted(input) && i < |input| && Gathered(limits, input, es, i, i + 1)
    ensures Gathered(limits, input, es + [input[i]], i + 1, i + 1)
  {
    hide Less;
    forall t | i + 1 <= t < |input|
      ensures AllLess(es + [input[i]], input[t].key)
    {
      assert AllLess(es, input[t].key);
    }
    forall s | StopAt(limits, input, s) && s < i + 1
      ensures AllFrom(es + [input[i]], input[s].key)
    {
      InRange(limits, input, s);
      assert AllFrom(es, input[s].key);
      NotAfter(input, s, i);
    }
  }

  lemma NotAfter(input: seq<Entry>, a: nat, b: nat)
    requires Sorted(input) && a <= b < |input|
    ensures AtMost(input[a].key, input[b].key)
  {
    KeysAscend(input, a, b);
  }

  /** An entry more; the table is closed once it is full. */
  lemma AddEntry(limits: Limits, input: seq<Entry>, i: nat, outs: seq<seq<Entry>>, builder: seq<Entry>)
    requires Cutting(limits, input, i, i + 1, outs, builder) && Sorted(input) && i < |input|
    ensures
      var more := builder + [input[i]];
      if limits.tableBytes(more) < limits.maxSize then Cutting(limits, input, i + 1, i + 1, outs, more)
      else Cutting(limits, input, i + 1, i + 1, outs + [more], [])
  {
    var more := builder + [input[i]];
    GatherMore(limits, input, i, builder);
    Grows(limits, builder, input[i]);
    hide Less, Sorted, StopAt, AllLess, AllFrom, GrewWithin;
    if limits.tableBytes(more) >= limits.maxSize {
      GatheredOneSide(limits, input, more, i + 1, i + 1);
      WriteTable(limits, input, outs, i + 1, more);
      NoneGathered(limits, input, i + 1, i + 1);
    }
  }

  lemma Grows(limits: Limits, es: seq<Entry>, e: Entry)
    requires GrewWithin(limits, es, |es| + 1)
    ensures GrewWithin(limits, es + [e], |es| + 1)
    ensures limits.tableBytes(es + [e]) < limits.maxSize ==> GrewWithin(limits, es + [e], |es| + 2)
  {
    forall m | 0 < m < |es| + 2
      ensures (es + [e])[..m] == if m <= |es| then es[..m] else es + [e]
    {
    }
  }

  lemma CutEnd(limits: Limits, input: seq<Entry>, outs: seq<seq<Entry>>, builder: seq<Entry>)
    requires Cutting(limits, input, |input|, |input|, outs, builder)
    ensures WellCut(limits, input, if builder == [] then outs else outs + [builder])
  {
    if builder != [] {
      GatheredOneSide(limits, input, builder, |input|, |input|);
      assert TableOk(limits, input, builder);
      WriteTable(limits, input, outs, |input|, builder);
    }
  }

  // ---- What the cuts are for ----

  /** The last stop is one, unless it is the first entry, and none comes between it and here. */
  lemma {:induction false} SinceIsLast(limits: Limits, input: seq<Entry>, i: nat, t: nat)
    requires 0 < i <= |input| && t < i
    ensures Since(limits, input, i) > 0 ==> Stop(limits, input, Since(limits, input, i))
    ensures t > Since(limits, input, i) ==> !Stop(limits, input, t)
  {
    hide PassedBytes;
    if i > 1 && !Stop(limits, input, i - 1) && t < i - 1 {
      SinceIsLast(limits, input, i - 1, t);
    } else if i > 1 && !Stop(limits, input, i - 1) {
      SinceIsLast(limits, input, i - 1, 0);
    }
  }

  /** Between any two entries of one output no more grandparent bytes end than the limit allows. */
  lemma OverlapsLittle(limits: Limits, input: seq<Entry>, es: seq<Entry>, i: nat, j: nat)
    requires Sorted(input) && i < j < |input| && input[i] in es && input[j] in es && TableOk(limits, input, es)
    ensures PassedBytes(limits, input, i, j) <= limits.maxOverlap
  {
    var s := Since(limits, input, j);
    SinceIsLast(limits, input, j, i);
    if s > i {
      NoStopWithin(limits, input, es, i, j, s);
      assert false;
    }
    NoStopWithin(limits, input, es, i, j, j);
    hide Less, PassedBy, Between, Since, TableOk;
    KeysAscend(input, s, i);
    KeysAscend(input, i, j);
    PassedAscends(limits.grandparents, input[s].key, input[i].key);
    PassedAscends(limits.grandparents, input[i].key, input[j].key);
    BetweenSplits(limits.grandparents, PassedBy(limits.grandparents, input[s].key),
                  PassedBy(limits.grandparents, input[i].key), PassedBy(limits.grandparents, input[j].key));
  }

  lemma NoStopWithin(limits: Limits, input: seq<Entry>, es: seq<Entry>, i: nat, j: nat, s: nat)
    requires Sorted(input) && i < j < |input| && input[i] in es && input[j] in es && TableOk(limits, input, es)
    requires i < s <= j
    ensures !Stop(limits, input, s)
  {
    hide Stop, GrewWithin, AllLess, AllFrom;
    NotAfter(input, s, j);
    Straddles(es, input[s].key, input[i], input[j]);
    assert StopAt(limits, input, s) == Stop(limits, input, s);
  }

  lemma Straddles(es: seq<Entry>, k: IKey, a: Entry, b: Entry)
    requires a in es && b in es && Less(a.key, k) && AtMost(k, b.key)
    ensures !AllLess(es, k) && !AllFrom(es, k)
  {
    assert !Less(b.key, k) && !AtMost(k, a.key);
  }

  lemma BetweenSplits(gs: seq<File>, a: nat, b: nat, c: nat)
    requires a <= b <= c <= |gs|
    ensures Between(gs, b, c) <= Between(gs, a, c)
  {
    hide TotalFileSize;
    BetweenAdds(gs, a, b, c);
  }
}
