/**
 Keys as bytes: the bytewise user order, internal keys with their packed tag, and the
 separators and successors used for short index keys (util/comparator.cc, db/dbformat.cc).
 */
module ByteKeys {
  import opened Coding
  import Entries

  // ---- The bytewise order ----

  /** Lexicographic on unsigned bytes; a proper prefix comes first. */
  predicate ByteLess(a: bytes, b: bytes) {
    if b == [] then false
    else if a == [] then true
    else if a[0] != b[0] then a[0] < b[0]
    else ByteLess(a[1..], b[1..])
  }

  lemma {:induction false} ByteLessTransitive(a: bytes, b: bytes, c: bytes)
    requires ByteLess(a, b) && ByteLess(b, c)
    ensures ByteLess(a, c)
  {
    if a != [] && a[0] == b[0] == c[0] {
      ByteLessTransitive(a[1..], b[1..], c[1..]);
    }
  }

  lemma ByteLessChain(a: bytes, b: bytes, c: bytes)
    ensures ByteLess(a, b) && ByteLess(b, c) ==> ByteLess(a, c)
  {
    if ByteLess(a, b) && ByteLess(b, c) {
      ByteLessTransitive(a, b, c);
    }
  }

  lemma {:induction false} ByteLessTotal(a: bytes, b: bytes)
    ensures ByteLess(a, b) || a == b || ByteLess(b, a)
    ensures !(ByteLess(a, b) && ByteLess(b, a)) && !ByteLess(a, a)
  {
    ByteLessIrreflexive(a);
    if a != [] && b != [] && a[0] == b[0] {
      ByteLessTotal(a[1..], b[1..]);
      assert a == [a[0]] + a[1..] && b == [b[0]] + b[1..];
    }
  }

  lemma {:induction false} ByteLessIrreflexive(a: bytes)
    ensures !ByteLess(a, a)
  {
    if a != [] {
      ByteLessIrreflexive(a[1..]);
    }
  }

  /** After a common prefix the first difference decides. */
  lemma {:induction false} DifferenceDecides(a: bytes, b: bytes, n: nat)
    requires n < |a| && n < |b| && a[..n] == b[..n] && a[n] != b[n]
    ensures ByteLess(a, b) <==> a[n] < b[n]
  {
    if n > 0 {
      assert a[0] == a[..n][0] == b[..n][0] == b[0];
      assert a[1..][..n - 1] == a[..n][1..] && b[1..][..n - 1] == b[..n][1..];
      DifferenceDecides(a[1..], b[1..], n - 1);
    }
  }

  /** The keys agree before `d` and differ there. */
  ghost predicate DifferAt(a: bytes, b: bytes, d: nat) {
    d < |a| && d < |b| && a[..d] == b[..d] && a[d] != b[d]
  }

  lemma AgreeBefore(a: bytes, b: bytes, d: nat, n: nat)
    requires n <= |a| && n <= |b| && a[..n] == b[..n]
    ensures d < |a| && d < |b| && a[d] != b[d] ==> n <= d
  {
    assert forall j :: 0 <= j < n ==> a[j] == a[..n][j] && b[j] == b[..n][j];
  }

  /** The start cut behind the first difference and raised there, if that stays below the limit; else the start. */
  ghost predicate IsSeparator(start: bytes, limit: bytes, r: bytes) {
    && (forall d: nat :: DifferAt(start, limit, d) ==>
          r == if start[d] as int + 1 < limit[d] then start[..d] + [start[d] + 1] else start)
    && ((forall d: nat :: !DifferAt(start, limit, d)) ==> r == start)
  }

  /** The first byte that can be raised. */
  ghost predicate RaisesAt(key: bytes, i: nat) {
    i < |key| && key[i] != 0xff && forall j :: 0 <= j < i ==> key[j] == 0xff
  }

  ghost predicate IsSuccessor(key: bytes, r: bytes) {
    && (forall i: nat :: RaisesAt(key, i) ==> r == key[..i] + [key[i] + 1])
    && ((forall i: nat :: !RaisesAt(key, i)) ==> r == key)
  }

  /** A string in [start, limit), if start is before limit, and not a longer one. */
  method FindShortestSeparator(start: bytes, limit: bytes) returns (r: bytes)
    ensures |r| <= |start|
    ensures r == start || (ByteLess(start, r) && ByteLess(r, limit))
    ensures IsSeparator(start, limit, r)
  {
    var minLength := if |start| < |limit| then |start| else |limit|;
    var diff: nat := 0;
    while diff < minLength && start[diff] == limit[diff]
      invariant diff <= minLength && start[..diff] == limit[..diff]
    {
      diff := diff + 1;
    }
    r := start;
    forall d: nat | DifferAt(start, limit, d)
      ensures d == diff
    {
      AgreeBefore(start, limit, d, diff);
      AgreeBefore(start, limit, diff, d);
    }
    if diff < minLength {
      assert DifferAt(start, limit, diff);
      var b := start[diff];
      if b < 0xff && b as int + 1 < limit[diff] {
        r := start[..diff] + [b + 1];
        DifferenceDecides(start, r, diff);
        DifferenceDecides(r, limit, diff);
      }
    }
  }

  /** A string at or after the key, and not a longer one. */
  method FindShortSuccessor(key: bytes) returns (r: bytes)
    ensures |r| <= |key| && (r == key || ByteLess(key, r))
    ensures IsSuccessor(key, r)
  {
    for i := 0 to |key|
      invariant forall j :: 0 <= j < i ==> key[j] == 0xff
    {
      if key[i] != 0xff {
        r := key[..i] + [key[i] + 1];
        assert RaisesAt(key, i);
        DifferenceDecides(key, r, i);
        return;
      }
    }
    r := key;
  }

  // ---- Internal keys ----

  const MAX_SEQUENCE: nat := Entries.MAX_SEQUENCE
  const TYPE_FOR_SEEK: nat := Entries.TYPE_VALUE

  /** The tag behind the user key, as Entries packs it. */
  function PackTag(seqno: nat, kind: nat): nat {
    Entries.Pack(Entries.IKey(0, seqno, kind))
  }

  predicate IsInternal(k: bytes) {
    |k| >= 8
  }

  function UserKey(k: bytes): bytes
    requires IsInternal(k)
  {
    k[..|k| - 8]
  }

  function Tag(k: bytes): nat
    requires IsInternal(k)
  {
    DecodeFixed(k[|k| - 8..])
  }

  function InternalKey(user: bytes, seqno: nat, kind: nat): (r: bytes)
    ensures IsInternal(r)
  {
    user + Fixed(PackTag(seqno, kind), 8)
  }

  lemma InternalKeyParts(user: bytes, seqno: nat, kind: nat)
    requires seqno <= MAX_SEQUENCE && kind < 256
    ensures UserKey(InternalKey(user, seqno, kind)) == user && Tag(InternalKey(user, seqno, kind)) == PackTag(seqno, kind)
  {
    var k := InternalKey(user, seqno, kind);
    assert k[..|k| - 8] == user && k[|k| - 8..] == Fixed(PackTag(seqno, kind), 8);
    Fixed64RoundTrip(PackTag(seqno, kind));
  }

  /** A key is its user part and its tag. */
  lemma PartsDecide(a: bytes, b: bytes)
    requires IsInternal(a) && IsInternal(b) && UserKey(a) == UserKey(b) && Tag(a) == Tag(b)
    ensures a == b
  {
    FixedOfDecoded(a[|a| - 8..]);
    FixedOfDecoded(b[|b| - 8..]);
    assert a == UserKey(a) + a[|a| - 8..] && b == UserKey(b) + b[|b| - 8..];
  }

  /** User keys ascending, then tags descending. */
  predicate InternalLess(a: bytes, b: bytes) {
    && IsInternal(a) && IsInternal(b)
    && (ByteLess(UserKey(a), UserKey(b)) || (UserKey(a) == UserKey(b) && Tag(a) > Tag(b)))
  }

  /** The rank orders the two user keys as their bytes do. */
  ghost predicate Ranks(rank: bytes -> int, a: bytes, b: bytes) {
    (ByteLess(a, b) <==> rank(a) < rank(b)) && (a == b <==> rank(a) == rank(b))
  }

  /** Internal keys compare on their bytes as on ranked user key, sequence number and type. */
  lemma RankedOrder(rank: bytes -> int, u: bytes, s: nat, k: nat, u': bytes, s': nat, k': nat)
    requires Ranks(rank, u, u') && s <= MAX_SEQUENCE && s' <= MAX_SEQUENCE && k < 256 && k' < 256
    ensures InternalLess(InternalKey(u, s, k), InternalKey(u', s', k')) <==>
            Entries.Less(Entries.IKey(rank(u), s, k), Entries.IKey(rank(u'), s', k'))
  {
    InternalKeyParts(u, s, k);
    InternalKeyParts(u', s', k');
    Entries.LessIsTagOrder(Entries.IKey(rank(u), s, k), Entries.IKey(rank(u'), s', k'));
  }

  lemma InternalLessTransitive(a: bytes, b: bytes, c: bytes)
    requires InternalLess(a, b) && InternalLess(b, c)
    ensures InternalLess(a, c)
  {
    if ByteLess(UserKey(a), UserKey(b)) && ByteLess(UserKey(b), UserKey(c)) {
      ByteLessTransitive(UserKey(a), UserKey(b), UserKey(c));
    }
  }

  lemma InternalLessTotal(a: bytes, b: bytes)
    requires IsInternal(a) && IsInternal(b)
    ensures InternalLess(a, b) || a == b || InternalLess(b, a)
    ensures !(InternalLess(a, b) && InternalLess(b, a)) && !InternalLess(a, a)
  {
    ByteLessTotal(UserKey(a), UserKey(b));
    ByteLessIrreflexive(UserKey(a));
    if UserKey(a) == UserKey(b) && Tag(a) == Tag(b) {
      PartsDecide(a, b);
    }
  }

  /** A user key that is shorter and greater takes over, with the tag that sorts first. */
  function Shortened(key: bytes, user: bytes): bytes
    requires IsInternal(key)
  {
    if |user| < |UserKey(key)| && ByteLess(UserKey(key), user) then InternalKey(user, MAX_SEQUENCE, TYPE_FOR_SEEK) else key
  }

  /** Shorten the user part; what is shortened moves strictly between the user keys. */
  method InternalSeparator(start: bytes, limit: bytes) returns (r: bytes)
    requires IsInternal(start) && IsInternal(limit)
    ensures IsInternal(r) && |r| <= |start|
    ensures r == start || (ByteLess(UserKey(start), UserKey(r)) && ByteLess(UserKey(r), UserKey(limit)))
    ensures exists u :: IsSeparator(UserKey(start), UserKey(limit), u) && r == Shortened(start, u)
  {
    var tmp := FindShortestSeparator(UserKey(start), UserKey(limit));
    r := start;
    if |tmp| < |UserKey(start)| && ByteLess(UserKey(start), tmp) {
      InternalKeyParts(tmp, MAX_SEQUENCE, TYPE_FOR_SEEK);
      r := InternalKey(tmp, MAX_SEQUENCE, TYPE_FOR_SEEK);
    }
  }

  method InternalSuccessor(key: bytes) returns (r: bytes)
    requires IsInternal(key)
    ensures IsInternal(r) && |r| <= |key| && (r == key || InternalLess(key, r))
    ensures exists u :: IsSuccessor(UserKey(key), u) && r == Shortened(key, u)
  {
    var tmp := FindShortSuccessor(UserKey(key));
    r := key;
    if |tmp| < |UserKey(key)| && ByteLess(UserKey(key), tmp) {
      InternalKeyParts(tmp, MAX_SEQUENCE, TYPE_FOR_SEEK);
      r := InternalKey(tmp, MAX_SEQUENCE, TYPE_FOR_SEEK);
    }
  }
}
