/**
 The list of live snapshots: a circular doubly-linked list with a dummy head, kept in order
 of sequence number so that the oldest one is the first (db/snapshot.h).
 */
module Snapshots {
  class SnapshotImpl {
    const sequenceNumber: nat
    var prev: SnapshotImpl
    var next: SnapshotImpl

    constructor (sequenceNumber: nat)
      ensures this.sequenceNumber == sequenceNumber && prev == this && next == this
    {
      this.sequenceNumber := sequenceNumber;
      prev, next := this, this;
    }
  }

  function After(n: nat, i: nat): nat {
    if i + 1 == n then 0 else i + 1
  }

  ghost predicate Distinct(ring: seq<SnapshotImpl>) {
    forall i, j :: 0 <= i < j < |ring| ==> ring[i] != ring[j]
  }

  /** The node at `i` and the one after it point at each other. */
  ghost predicate LinkAt(ring: seq<SnapshotImpl>, i: nat)
    requires i < |ring|
    reads ring
  {
    var j := After(|ring|, i);
    ring[i].next == ring[j] && ring[j].prev == ring[i]
  }

  ghost predicate Linked(ring: seq<SnapshotImpl>)
    reads ring
  {
    forall i :: 0 <= i < |ring| ==> LinkAt(ring, i)
  }

  ghost predicate Ascending(ring: seq<SnapshotImpl>) {
    forall i, j :: 1 <= i < j < |ring| ==> ring[i].sequenceNumber <= ring[j].sequenceNumber
  }

  /** The sequence numbers after the head. */
  ghost function Numbers(ring: seq<SnapshotImpl>): seq<nat> {
    if ring == [] then [] else seq(|ring| - 1, i requires 0 <= i < |ring| - 1 => ring[i + 1].sequenceNumber)
  }

  lemma Appended(ring: seq<SnapshotImpl>, s: SnapshotImpl)
    requires ring != [] && Distinct(ring) && Ascending(ring) && s !in ring
    requires forall i :: 1 <= i < |ring| ==> ring[i].sequenceNumber <= s.sequenceNumber
    ensures Distinct(ring + [s]) && Ascending(ring + [s])
    ensures Numbers(ring + [s]) == Numbers(ring) + [s.sequenceNumber]
  {
  }

  lemma Removed(ring: seq<SnapshotImpl>, k: nat)
    requires Distinct(ring) && Ascending(ring) && 1 <= k < |ring|
    ensures Distinct(ring[..k] + ring[k + 1..]) && Ascending(ring[..k] + ring[k + 1..])
    ensures Numbers(ring[..k] + ring[k + 1..]) == Numbers(ring)[..k - 1] + Numbers(ring)[k..]
  {
    DistinctWithout(ring, k);
    AscendingWithout(ring, k);
    NumbersWithout(ring, k);
    hide Distinct, Ascending, Numbers;
  }

  lemma DistinctWithout(ring: seq<SnapshotImpl>, k: nat)
    requires Distinct(ring) && k < |ring|
    ensures Distinct(ring[..k] + ring[k + 1..])
  {
    var rest := ring[..k] + ring[k + 1..];
    assert forall i :: 0 <= i < |rest| ==> rest[i] == ring[if i < k then i else i + 1];
  }

  lemma AscendingWithout(ring: seq<SnapshotImpl>, k: nat)
    requires Ascending(ring) && 1 <= k < |ring|
    ensures Ascending(ring[..k] + ring[k + 1..])
  {
    var rest := ring[..k] + ring[k + 1..];
    assert forall i :: 0 <= i < |rest| ==> rest[i] == ring[if i < k then i else i + 1];
  }

  lemma NumbersWithout(ring: seq<SnapshotImpl>, k: nat)
    requires 1 <= k < |ring|
    ensures Numbers(ring[..k] + ring[k + 1..]) == Numbers(ring)[..k - 1] + Numbers(ring)[k..]
  {
    var rest := ring[..k] + ring[k + 1..];
    forall i | 0 <= i < |ring| - 2
      ensures Numbers(rest)[i] == Numbers(ring)[if i < k - 1 then i else i + 1]
    {
      assert rest[i + 1] == ring[if i + 1 < k then i + 1 else i + 2];
    }
    assert |Numbers(ring)[..k - 1] + Numbers(ring)[k..]| == |ring| - 2;
  }

  class SnapshotList {
    const head: SnapshotImpl
    /** The head and the snapshots after it, in the order of the links. */
    ghost var ring: seq<SnapshotImpl>

    ghost predicate Valid()
      reads this, ring
    {
      && ring != [] && ring[0] == head && Distinct(ring) && Ascending(ring)
      && Linked(ring)
    }

    /** The sequence numbers held, oldest first. */
    ghost function Held(): seq<nat>
      reads this
    {
      Numbers(ring)
    }

    constructor ()
      ensures Valid() && Held() == [] && fresh(ring) && ring == [head]
    {
      var h := new SnapshotImpl(0);
      head, ring := h, [h];
    }

    predicate Empty()
      requires Valid()
      reads this, ring
      ensures Empty() <==> Held() == []
    {
      assert LinkAt(ring, 0);
      head.next == head
    }

    method Oldest() returns (s: SnapshotImpl)
      requires Valid() && !Empty()
      ensures |ring| > 1 && s == ring[1] && s.sequenceNumber == Held()[0]
      ensures forall n :: n in Held() ==> s.sequenceNumber <= n
    {
      assert LinkAt(ring, 0);
      s := head.next;
      assert s == ring[1];
    }

    method Newest() returns (s: SnapshotImpl)
      requires Valid() && !Empty()
      ensures s in ring[1..] && s == ring[|ring| - 1]
      ensures forall n :: n in Held() ==> n <= s.sequenceNumber
    {
      assert LinkAt(ring, |ring| - 1);
      s := head.prev;
      assert s == ring[1..][|ring| - 2];
    }

    method New(sequenceNumber: nat) returns (s: SnapshotImpl)
      requires Valid() && forall n :: n in Held() ==> n <= sequenceNumber
      modifies this, ring
      ensures Valid() && fresh(s) && s.sequenceNumber == sequenceNumber
      ensures ring == old(ring) + [s] && Held() == old(Held()) + [sequenceNumber]
    {
      s := new SnapshotImpl(sequenceNumber);
      forall i | 1 <= i < |ring|
        ensures ring[i].sequenceNumber <= sequenceNumber
      {
        assert Held()[i - 1] in Held();
      }
      Appended(ring, s);
      LinkBefore(s);
      ring := ring + [s];
    }

    /** Link a node in before the head. */
    method LinkBefore(s: SnapshotImpl)
      requires Valid() && s !in ring
      modifies s, ring
      ensures Linked(ring + [s])
    {
      ghost var n := |ring|;
      assert LinkAt(ring, n - 1);
      s.next := head;
      s.prev := head.prev;
      s.prev.next := s;
      s.next.prev := s;
      forall i | 0 <= i < n - 1
        ensures LinkAt(ring + [s], i)
      {
        assert old(LinkAt(ring, i));
      }
      assert LinkAt(ring + [s], n - 1) && LinkAt(ring + [s], n);
    }

    /** Unlink the snapshot at position `k` of the ring. */
    method Delete(s: SnapshotImpl, ghost k: nat)
      requires Valid() && 1 <= k < |ring| && s == ring[k]
      modifies this, ring
      ensures Valid() && ring == old(ring[..k] + ring[k + 1..])
      ensures Held() == old(Held()[..k - 1] + Held()[k..])
    {
      Removed(ring, k);
      Unlink(s, k);
      ring := ring[..k] + ring[k + 1..];
    }

    method Unlink(s: SnapshotImpl, ghost k: nat)
      requires Valid() && 1 <= k < |ring| && s == ring[k]
      modifies ring
      ensures Linked(ring[..k] + ring[k + 1..])
    {
      ghost var rest := ring[..k] + ring[k + 1..];
      assert LinkAt(ring, k - 1) && LinkAt(ring, k);
      s.prev.next := s.next;
      s.next.prev := s.prev;
      forall i | 0 <= i < |rest|
        ensures LinkAt(rest, i)
      {
        ghost var j := if i < k then i else i + 1;
        assert old(LinkAt(ring, j)) && rest[i] == ring[j];
      }
    }
  }
}
