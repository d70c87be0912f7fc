/**
 The cache's own hash table: buckets of chained entries that grow with the number of entries
 (util/cache.cc, HandleTable).
 */
module HandleTables {
  import opened Coding

  /** A chain link: the key of a cache entry, and which entry it is. */
  datatype Slot = Slot(key: bytes, id: nat)

  type Hash = bytes -> uint32

  /** The index of the first slot with this key, or the end of the chain. */
  function FindIn(chain: seq<Slot>, key: bytes): (i: nat)
    ensures i <= |chain| && (i < |chain| ==> chain[i].key == key)
    ensures forall j :: 0 <= j < i ==> chain[j].key != key
  {
    if chain == [] || chain[0].key == key then 0 else 1 + FindIn(chain[1..], key)
  }

  ghost predicate KeysDiffer(chain: seq<Slot>) {
    forall i, j :: 0 <= i < j < |chain| ==> chain[i].key != chain[j].key
  }

  /** A bucket holds exactly the entries of the map whose keys hash to it. */
  ghost predicate BucketOk(hash: Hash, chain: seq<Slot>, m: map<bytes, nat>, length: nat, b: nat)
    requires length > 0
  {
    && KeysDiffer(chain)
    && forall s :: s in chain <==> s.key in m && m[s.key] == s.id && hash(s.key) % length == b
  }

  ghost predicate Holds(hash: Hash, buckets: seq<seq<Slot>>, m: map<bytes, nat>) {
    |buckets| > 0 && forall b :: 0 <= b < |buckets| ==> BucketOk(hash, buckets[b], m, |buckets|, b)
  }

  ghost predicate PowerOfTwo(n: nat) {
    n == 1 || (n > 0 && n % 2 == 0 && PowerOfTwo(n / 2))
  }

  lemma FoundInBucket(hash: Hash, buckets: seq<seq<Slot>>, m: map<bytes, nat>, key: bytes)
    requires Holds(hash, buckets, m)
    ensures
      var chain := buckets[hash(key) % |buckets|];
      var i := FindIn(chain, key);
      && (i < |chain| <==> key in m) && (i < |chain| ==> chain[i] == Slot(key, m[key]))
  {
    var b := hash(key) % |buckets|;
    var chain := buckets[b];
    assert BucketOk(hash, chain, m, |buckets|, b);
    if key in m {
      assert Slot(key, m[key]) in chain;
    }
    var i := FindIn(chain, key);
    if i < |chain| {
      assert chain[i] in chain;
    }
  }

  /** Changing one bucket, for keys that hash to it. */
  lemma ReplaceBucket(hash: Hash, buckets: seq<seq<Slot>>, m: map<bytes, nat>, m': map<bytes, nat>, b: nat, chain: seq<Slot>)
    requires Holds(hash, buckets, m) && b < |buckets| && BucketOk(hash, chain, m', |buckets|, b)
    requires forall k :: hash(k) % |buckets| != b ==> (k in m' <==> k in m) && (k in m ==> m'[k] == m[k])
    ensures Holds(hash, buckets[b := chain], m')
  {
    forall c | 0 <= c < |buckets| && c != b
      ensures BucketOk(hash, buckets[c], m', |buckets|, c)
    {
      assert BucketOk(hash, buckets[c], m, |buckets|, c);
    }
  }

  function Put(chain: seq<Slot>, s: Slot): seq<Slot> {
    var i := FindIn(chain, s.key);
    chain[..i] + [s] + if i < |chain| then chain[i + 1..] else []
  }

  function Drop(chain: seq<Slot>, key: bytes): seq<Slot> {
    var i := FindIn(chain, key);
    if i < |chain| then chain[..i] + chain[i + 1..] else chain
  }

  lemma ChainPut(chain: seq<Slot>, s: Slot)
    requires KeysDiffer(chain)
    ensures KeysDiffer(Put(chain, s))
    ensures forall x :: x in Put(chain, s) <==> x == s || (x in chain && x.key != s.key)
  {
    var i, r := FindIn(chain, s.key), Put(chain, s);
    forall k | 0 <= k < |r|
      ensures k == i || (k < |chain| && r[k] == chain[k] && r[k].key != s.key)
    {
    }
    forall x | x in chain && x.key != s.key
      ensures x in r
    {
      var k :| 0 <= k < |chain| && chain[k] == x;
      assert r[k] == x;
    }
    assert r[i] == s;
  }

  lemma ChainDrop(chain: seq<Slot>, key: bytes)
    requires KeysDiffer(chain)
    ensures KeysDiffer(Drop(chain, key))
    ensures forall x :: x in Drop(chain, key) <==> x in chain && x.key != key
  {
    var i, r := FindIn(chain, key), Drop(chain, key);
    if i < |chain| {
      forall k | 0 <= k < |r|
        ensures r[k] == chain[if k < i then k else k + 1]
      {
      }
      forall x | x in chain && x.key != key
        ensures x in r
      {
        var k :| 0 <= k < |chain| && chain[k] == x;
        assert x == r[if k < i then k else k - 1];
      }
    }
  }

  /** Replacing or appending in one chain is updating the map. */
  lemma PutInBucket(hash: Hash, buckets: seq<seq<Slot>>, m: map<bytes, nat>, s: Slot)
    requires Holds(hash, buckets, m)
    ensures
      var b := hash(s.key) % |buckets|;
      Holds(hash, buckets[b := Put(buckets[b], s)], m[s.key := s.id])
  {
    hide Put;
    var b := hash(s.key) % |buckets|;
    assert BucketOk(hash, buckets[b], m, |buckets|, b);
    ChainPut(buckets[b], s);
    ReplaceBucket(hash, buckets, m, m[s.key := s.id], b, Put(buckets[b], s));
  }

  lemma DropFromBucket(hash: Hash, buckets: seq<seq<Slot>>, m: map<bytes, nat>, key: bytes)
    requires Holds(hash, buckets, m)
    ensures
      var b := hash(key) % |buckets|;
      Holds(hash, buckets[b := Drop(buckets[b], key)], m - {key})
  {
    hide Drop;
    var b := hash(key) % |buckets|;
    assert BucketOk(hash, buckets[b], m, |buckets|, b);
    ChainDrop(buckets[b], key);
    ReplaceBucket(hash, buckets, m, m - {key}, b, Drop(buckets[b], key));
  }

  /** The least power of two from four up that is not below `n`. */
  method RoundUp(n: nat) returns (p: nat)
    ensures PowerOfTwo(p) && n <= p && 4 <= p && (p == 4 || p < 2 * n)
  {
    p := 4;
    assert PowerOfTwo(2);
    while p < n
      invariant 4 <= p && PowerOfTwo(p) && (p == 4 || p < 2 * n)
    {
      p := p * 2;
    }
  }

  lemma NothingHeld(hash: Hash, buckets: seq<seq<Slot>>)
    requires |buckets| > 0 && forall b :: 0 <= b < |buckets| ==> buckets[b] == []
    ensures Holds(hash, buckets, map[])
  {
  }

  class HandleTable {
    const hash: Hash
    var length: nat
    var elems: nat
    var list: seq<seq<Slot>>
    /** What the table stands for. */
    ghost var m: map<bytes, nat>

    ghost predicate Valid()
      reads this
    {
      && |list| == length && elems == |m| && PowerOfTwo(length) && Holds(hash, list, m)
    }

    constructor (hash: Hash)
      ensures Valid() && m == map[] && this.hash == hash
    {
      this.hash := hash;
      length, elems, list, m := 4, 0, [[], [], [], []], map[];
      assert PowerOfTwo(2);
    }

    method Lookup(key: bytes) returns (r: Option<nat>)
      requires Valid()
      ensures r == if key in m then Some(m[key]) else None
    {
      FoundInBucket(hash, list, m, key);
      var chain := list[hash(key) % length];
      var i := FindIn(chain, key);
      r := if i < |chain| then Some(chain[i].id) else None;
    }

    /** Put an entry in; the one it replaces, if any, is returned. */
    method Insert(s: Slot) returns (replaced: Option<nat>)
      requires Valid()
      modifies this
      ensures Valid() && m == old(m)[s.key := s.id]
      ensures replaced == if s.key in old(m) then Some(old(m)[s.key]) else None
      ensures elems <= length || s.key in old(m)
    {
      FoundInBucket(hash, list, m, s.key);
      PutInBucket(hash, list, m, s);
      var b := hash(s.key) % length;
      var chain := list[b];
      var i := FindIn(chain, s.key);
      replaced := if i < |chain| then Some(chain[i].id) else None;
      list := list[b := chain[..i] + [s] + if i < |chain| then chain[i + 1..] else []];
      MapSizes(m, s.key, s.id);
      m := m[s.key := s.id];
      if replaced.None? {
        elems := elems + 1;
        if elems > length {
          Resize();
        }
      }
    }

    method Remove(key: bytes) returns (r: Option<nat>)
      requires Valid()
      modifies this
      ensures Valid() && m == old(m) - {key}
      ensures r == if key in old(m) then Some(old(m)[key]) else None
    {
      FoundInBucket(hash, list, m, key);
      var b := hash(key) % length;
      var chain := list[b];
      var i := FindIn(chain, key);
      if i == |chain| {
        assert m - {key} == m;
        return None;
      }
      DropFromBucket(hash, list, m, key);
      r := Some(chain[i].id);
      list := list[b := chain[..i] + chain[i + 1..]];
      SmallerMap(m, key);
      m := m - {key};
      elems := elems - 1;
    }

    /** Rehash every chain into a table as long as there are entries. */
    method Resize()
      requires |list| == length && elems == |m| && PowerOfTwo(length) && Holds(hash, list, m)
      modifies this`length, this`list
      ensures Valid() && elems <= length
    {
      hide PowerOfTwo;
      var newLength := RoundUp(elems);
      var newList: seq<seq<Slot>> := seq(newLength, _ => []);
      ghost var moved: map<bytes, nat> := map[];
      NothingHeld(hash, newList);
      hide Holds, MovedUpTo;
      NoneMoved(hash, m, length);
      var n := length;
      for i := 0 to n
        invariant length == n && list == old(list) && |newList| == newLength && Holds(hash, newList, moved)
        invariant MovedUpTo(hash, m, length, i, moved)
      {
        newList, moved := MoveChain(newList, i, moved);
      }
      AllMoved(hash, m, length, moved);
      list, length := newList, newLength;
    }

    /** Push the entries of one old chain onto the fronts of their new chains. */
    method MoveChain(into: seq<seq<Slot>>, i: nat, ghost moved: map<bytes, nat>)
      returns (newList: seq<seq<Slot>>, ghost moved': map<bytes, nat>)
      requires |list| == length && Holds(hash, list, m) && i < length && Holds(hash, into, moved)
      requires MovedUpTo(hash, m, length, i, moved)
      ensures |newList| == |into| && Holds(hash, newList, moved') && MovedUpTo(hash, m, length, i + 1, moved')
    {
      var h := list[i];
      newList, moved' := into, moved;
      ghost var chain := h;
      assert BucketOk(hash, chain, m, length, i);
      ghost var done := 0;
      while h != []
        invariant done <= |chain| && h == chain[done..] && |newList| == |into| && Holds(hash, newList, moved')
        invariant forall k :: k in moved' <==> k in moved || exists j :: 0 <= j < done && chain[j].key == k
        invariant forall k :: k in moved' ==> k in m && moved'[k] == m[k]
        decreases |h|
      {
        var s := h[0];
        assert s in chain;
        var b := hash(s.key) % |newList|;
        PushFront(hash, newList, moved', s);
        newList := newList[b := [s] + newList[b]];
        moved' := moved'[s.key := s.id];
        h := h[1..];
        done := done + 1;
      }
      forall k | k in m && hash(k) % length == i
        ensures k in moved'
      {
        assert Slot(k, m[k]) in chain;
      }
    }
  }

  /** The entries of the first `i` old buckets, and no others. */
  ghost predicate MovedUpTo(hash: Hash, m: map<bytes, nat>, length: nat, i: nat, moved: map<bytes, nat>)
    requires length > 0
  {
    && (forall k :: k in moved <==> k in m && hash(k) % length < i)
    && (forall k :: k in moved ==> moved[k] == m[k])
  }

  lemma NoneMoved(hash: Hash, m: map<bytes, nat>, length: nat)
    requires length > 0
    ensures MovedUpTo(hash, m, length, 0, map[])
  {
  }

  lemma AllMoved(hash: Hash, m: map<bytes, nat>, length: nat, moved: map<bytes, nat>)
    requires length > 0 && MovedUpTo(hash, m, length, length, moved)
    ensures moved == m
  {
    assert forall k :: hash(k) % length < length;
  }

  lemma PushFront(hash: Hash, buckets: seq<seq<Slot>>, m: map<bytes, nat>, s: Slot)
    requires Holds(hash, buckets, m) && s.key !in m
    ensures
      var b := hash(s.key) % |buckets|;
      Holds(hash, buckets[b := [s] + buckets[b]], m[s.key := s.id])
  {
    var b := hash(s.key) % |buckets|;
    var chain := [s] + buckets[b];
    assert BucketOk(hash, buckets[b], m, |buckets|, b);
    assert forall x :: x in chain <==> x == s || x in buckets[b];
    assert forall k :: 0 <= k < |buckets[b]| ==> buckets[b][k] in buckets[b];
    forall c | 0 <= c < |buckets| && c != b
      ensures BucketOk(hash, buckets[c], m[s.key := s.id], |buckets|, c)
    {
      assert BucketOk(hash, buckets[c], m, |buckets|, c);
    }
  }

  lemma MapSizes(m: map<bytes, nat>, key: bytes, id: nat)
    ensures |m[key := id]| == if key in m then |m| else |m| + 1
  {
    if key in m {
      assert m[key := id].Keys == m.Keys;
    } else {
      assert m[key := id].Keys == m.Keys + {key};
    }
  }

  lemma SmallerMap(m: map<bytes, nat>, key: bytes)
    requires key in m
    ensures |m - {key}| == |m| - 1
  {
    assert (m - {key}).Keys == m.Keys - {key};
  }
}
