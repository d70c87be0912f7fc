/**
 A plain iterator over one sorted run, and the sorted merge of several runs.
 */
module Cursors {
  import opened Entries
  import opened Positions

  /** A simple iterator over one sorted run. */
  class RunIterator {
    const run: seq<Entry>
    var pos: nat

    constructor (run: seq<Entry>)
      ensures this.run == run && pos == |run|
    {
      this.run, pos := run, |run|;
    }

    ghost predicate Ok()
      reads this
    {
      Sorted(run) && pos <= |run|
    }

    predicate IsValid()
      reads this
    {
      pos < |run|
    }

    method SeekToFirst()
      modifies this
      ensures pos == 0
    {
      pos := 0;
    }

    method SeekToLast()
      modifies this
      ensures pos == LastPos(|run|)
    {
      pos := LastPos(|run|);
    }

    method Seek(k: IKey)
      modifies this
      ensures pos == SeekPos(run, k)
    {
      pos := SeekPos(run, k);
    }

    method Next()
      requires IsValid()
      modifies this
      ensures pos == old(pos) + 1
    {
      pos := pos + 1;
    }

    method Prev()
      requires IsValid()
      modifies this
      ensures pos == PrevPos(|run|, old(pos))
    {
      pos := PrevPos(|run|, pos);
    }
  }

  // ---- Merging sorted runs with distinct keys ----

  ghost predicate Apart(a: seq<Entry>, b: seq<Entry>) {
    forall x, y :: x in a && y in b ==> x.key != y.key
  }

  function Merge(a: seq<Entry>, b: seq<Entry>): seq<Entry> {
    if a == [] then b
    else if b == [] then a
    else if Less(a[0].key, b[0].key) then [a[0]] + Merge(a[1..], b)
    else [b[0]] + Merge(a, b[1..])
  }

  lemma {:induction false} MergeOk(a: seq<Entry>, b: seq<Entry>)
    requires Sorted(a) && Sorted(b) && Apart(a, b)
    ensures Sorted(Merge(a, b))
    ensures forall e :: e in Merge(a, b) <==> e in a || e in b
  {
    hide Less;
    if a != [] && b != [] {
      if Less(a[0].key, b[0].key) {
        MergeOk(a[1..], b);
        HeadFirst(a, b, Merge(a[1..], b));
        HeadOrTail(a);
      } else {
        assert a[0] in a && b[0] in b;
        MergeOk(a, b[1..]);
        OneIsLess(b[0].key, a[0].key);
        HeadFirst(b, a, Merge(a, b[1..]));
        HeadOrTail(b);
      }
    }
  }

  lemma HeadOrTail(a: seq<Entry>)
    requires a != []
    ensures forall e :: e in a <==> e == a[0] || e in a[1..]
  {
    assert a == [a[0]] + a[1..];
  }

  lemma OneIsLess(a: IKey, b: IKey)
    requires a != b && AtMost(a, b)
    ensures Less(a, b)
  {
  }

  lemma HeadFirst(a: seq<Entry>, b: seq<Entry>, m: seq<Entry>)
    requires Sorted(a) && Sorted(b) && a != [] && b != [] && Less(a[0].key, b[0].key)
    requires Sorted(m) && forall e :: e in m <==> e in a[1..] || e in b
    ensures Sorted([a[0]] + m)
  {
    forall e | e in m
      ensures Less(a[0].key, e.key)
    {
      if e in b {
        var i :| 0 <= i < |b| && b[i] == e;
      } else {
        var i :| 1 <= i < |a| && a[i] == e;
      }
    }
  }

  /** Runs that are each sorted and share no key. */
  ghost predicate Mergeable(runs: seq<seq<Entry>>) {
    && (forall i :: 0 <= i < |runs| ==> Sorted(runs[i]))
    && (forall i, j :: 0 <= i < j < |runs| ==> Apart(runs[i], runs[j]))
  }

  function MergeAll(runs: seq<seq<Entry>>): seq<Entry> {
    if runs == [] then [] else Merge(MergeAll(runs[..|runs| - 1]), runs[|runs| - 1])
  }

  lemma {:induction false} MergeAllOk(runs: seq<seq<Entry>>)
    requires Mergeable(runs)
    ensures Sorted(MergeAll(runs))
    ensures forall e :: e in MergeAll(runs) <==> exists i :: 0 <= i < |runs| && e in runs[i]
  {
    hide Less, Merge;
    if runs != [] {
      var n := |runs| - 1;
      MergeAllOk(runs[..n]);
      forall x, y | x in MergeAll(runs[..n]) && y in runs[n]
        ensures x.key != y.key
      {
        var i :| 0 <= i < n && x in runs[..n][i];
        assert Apart(runs[i], runs[n]);
      }
      MergeOk(MergeAll(runs[..n]), runs[n]);
      forall e | e in MergeAll(runs[..n])
        ensures exists i :: 0 <= i < |runs| && e in runs[i]
      {
        var i :| 0 <= i < n && e in runs[..n][i];
        assert e in runs[i];
      }
      forall e, i | 0 <= i < n && e in runs[i]
        ensures e in MergeAll(runs[..n])
      {
        assert e in runs[..n][i];
      }
    }
  }
}
