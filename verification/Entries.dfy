/**
 Internal keys, the order they are stored in, and the meaning of a read.

 A store holds a finite set of entries.  An entry is named by an internal key: a user
 key, the sequence number of the write, and a type byte.  Reading user key `u` as of
 sequence number `s` returns what the first entry at or after the lookup key
 (u, s, value) says, provided that entry is one for `u`.

 User keys are touched only through the user comparator, so they are modelled by their
 rank in that total order (ByteKeys has the comparator on byte strings, and shows that ranks
 order internal keys as the bytes do).
 */
module Entries {

  const MAX_SEQUENCE: nat := 0xff_ffff_ffff_ffff
  const TYPE_DELETION: nat := 0
  const TYPE_VALUE: nat := 1

  datatype IKey = IKey(user: int, seqno: nat, kind: nat)

  datatype Entry = Entry(key: IKey, value: seq<int>)

  /** What a point lookup reports. */
  datatype Outcome = Found(value: seq<int>) | Missing | Corrupted

  /** ParseInternalKey fails on every type byte above TYPE_VALUE. */
  predicate Parses(k: IKey) {
    k.kind <= TYPE_VALUE
  }

  /** User key ascending, then sequence number and type descending. */
  predicate Less(a: IKey, b: IKey) {
    || a.user < b.user
    || (a.user == b.user && (a.seqno > b.seqno || (a.seqno == b.seqno && a.kind > b.kind)))
  }

  predicate AtMost(a: IKey, b: IKey) {
    !Less(b, a)
  }

  function Pack(k: IKey): nat {
    k.seqno * 256 + k.kind
  }

  /** The field-wise order is the one the comparator computes on packed tags. */
  lemma LessIsTagOrder(a: IKey, b: IKey)
    requires a.kind < 256 && b.kind < 256
    ensures Less(a, b) <==> a.user < b.user || (a.user == b.user && Pack(a) > Pack(b))
  {
    if a.seqno < b.seqno {
      assert a.seqno + 1 <= b.seqno;
    }
  }

  /** The internal key a lookup of `u` as of `s` seeks to. */
  function Target(u: int, s: nat): IKey {
    IKey(u, s, TYPE_VALUE)
  }

  predicate Visible(k: IKey, u: int, s: nat) {
    k.user == u && AtMost(Target(u, s), k)
  }

  function OutcomeOf(e: Entry): Outcome {
    if !Parses(e.key) then Corrupted
    else if e.key.kind == TYPE_VALUE then Found(e.value)
    else Missing
  }

  ghost predicate KeysDistinct(es: set<Entry>) {
    forall a, b :: a in es && b in es && a.key == b.key ==> a == b
  }

  ghost predicate IsNewest(es: set<Entry>, u: int, s: nat, e: Entry) {
    && e in es
    && Visible(e.key, u, s)
    && forall f :: f in es && Visible(f.key, u, s) ==> f == e || Less(e.key, f.key)
  }

  /** The reference meaning of a read over an unordered set of entries. */
  ghost function Lookup(es: set<Entry>, u: int, s: nat): Outcome {
    if e :| IsNewest(es, u, s, e) then OutcomeOf(e) else Missing
  }

  lemma LookupIs(es: set<Entry>, u: int, s: nat, e: Entry)
    requires IsNewest(es, u, s, e)
    ensures Lookup(es, u, s) == OutcomeOf(e)
  {
    assert forall f :: IsNewest(es, u, s, f) ==> f == e;
  }

  lemma {:induction false} NewestExists(es: set<Entry>, u: int, s: nat, e: Entry) returns (n: Entry)
    requires KeysDistinct(es)
    requires e in es && Visible(e.key, u, s)
    ensures IsNewest(es, u, s, n)
    decreases |es|
  {
    var rest := es - {e};
    if f :| f in rest && Visible(f.key, u, s) {
      var m := NewestExists(rest, u, s, f);
      n := if Less(e.key, m.key) then e else m;
      assert e.key != m.key;
    } else {
      n := e;
    }
  }

  /** Two sets agree on a read when one newest entry serves both, or neither has any. */
  lemma SameLookup(a: set<Entry>, b: set<Entry>, u: int, s: nat)
    requires forall e :: IsNewest(a, u, s, e) <==> IsNewest(b, u, s, e)
    ensures Lookup(a, u, s) == Lookup(b, u, s)
  {
    SameLookupAt(a, s, b, s, u);
  }

  lemma SameLookupAt(a: set<Entry>, s: nat, b: set<Entry>, t: nat, u: int)
    requires forall e :: IsNewest(a, u, s, e) <==> IsNewest(b, u, t, e)
    ensures Lookup(a, u, s) == Lookup(b, u, t)
  {
    if e :| IsNewest(a, u, s, e) {
      LookupIs(a, u, s, e);
      LookupIs(b, u, t, e);
    }
  }

  /** Nothing visible: the key is missing. */
  lemma LookupMissing(es: set<Entry>, u: int, s: nat)
    requires forall e :: e in es ==> !Visible(e.key, u, s)
    ensures Lookup(es, u, s) == Missing
  {
  }

  // ---- Sorted runs ----

  ghost predicate Sorted(es: seq<Entry>) {
    forall i, j :: 0 <= i < j < |es| ==> Less(es[i].key, es[j].key)
  }

  function SetOf(es: seq<Entry>): set<Entry> {
    set e | e in es
  }

  lemma SortedIsDistinct(es: seq<Entry>)
    requires Sorted(es)
    ensures KeysDistinct(SetOf(es))
  {
  }

  /** The first position at or after `k`; the end of the run when there is none. */
  function SeekPos(es: seq<Entry>, k: IKey): (p: nat)
    ensures p <= |es|
    ensures forall i :: 0 <= i < p ==> Less(es[i].key, k)
    ensures p < |es| ==> AtMost(k, es[p].key)
  {
    if es == [] || AtMost(k, es[0].key) then 0
    else
      var q := SeekPos(es[1..], k);
      assert forall i :: 1 <= i < q + 1 ==> es[i] == es[1..][i - 1];
      q + 1
  }

  lemma SeekPosIs(es: seq<Entry>, k: IKey, p: nat)
    requires Sorted(es) && p <= |es|
    requires forall i :: 0 <= i < p ==> Less(es[i].key, k)
    requires p < |es| ==> AtMost(k, es[p].key)
    ensures SeekPos(es, k) == p
  {
  }

  lemma SeekSplits(es: seq<Entry>, k: IKey, e: Entry)
    requires Sorted(es) && e in es
    ensures AtMost(k, e.key) ==> SeekPos(es, k) < |es| && (e == es[SeekPos(es, k)] || Less(es[SeekPos(es, k)].key, e.key))
  {
    var i :| 0 <= i < |es| && es[i] == e;
  }

  /** On a sorted run a read is one seek. */
  lemma LookupBySeek(es: seq<Entry>, u: int, s: nat)
    requires Sorted(es)
    ensures
      var p := SeekPos(es, Target(u, s));
      Lookup(SetOf(es), u, s) == if p < |es| && es[p].key.user == u then OutcomeOf(es[p]) else Missing
  {
    var p := SeekPos(es, Target(u, s));
    forall f | f in es && Visible(f.key, u, s)
      ensures p < |es| && (f == es[p] || Less(es[p].key, f.key))
    {
      SeekSplits(es, Target(u, s), f);
    }
    if p < |es| && es[p].key.user == u {
      LookupIs(SetOf(es), u, s, es[p]);
    } else {
      LookupMissing(SetOf(es), u, s);
    }
  }
}
