/**
 One shard of the cache: reference-counted entries on two lists, looked up through a hash
 table, evicted oldest first (util/cache.cc, LRUCache).
 */
module LruCache {
  import opened Coding
  import opened HandleTables

  /** `value` stands for the cached object. */
  datatype Entry = Entry(key: bytes, value: int, charge: nat, refs: nat, inCache: bool)

  /**
   The live entries by identity, the two lists (oldest first), the charges counted, the deleter
   calls made, the handles clients still hold, the next identity and the table's map.
   */
  datatype State = State(entries: map<nat, Entry>, lru: seq<nat>, inUse: seq<nat>, usage: int,
                         deleted: seq<nat>, handles: map<nat, nat>, next: nat, m: map<bytes, nat>)

  ghost predicate NoDup(list: seq<nat>) {
    forall i, j :: 0 <= i < j < |list| ==> list[i] != list[j]
  }

  function Without(list: seq<nat>, id: nat): seq<nat> {
    if list == [] then []
    else if list[0] == id then list[1..]
    else [list[0]] + Without(list[1..], id)
  }

  ghost function Charges(entries: map<nat, Entry>, list: seq<nat>): int
    requires forall id :: id in list ==> id in entries
  {
    if list == [] then 0 else entries[list[0]].charge + Charges(entries, list[1..])
  }

  lemma {:induction false} WithoutOk(list: seq<nat>, id: nat)
    requires NoDup(list)
    ensures NoDup(Without(list, id))
    ensures forall x :: x in Without(list, id) <==> x in list && x != id
  {
    if list != [] {
      HeadOnce(list);
      WithoutOk(list[1..], id);
      if list[0] != id {
        Prepended(list[0], Without(list[1..], id));
      }
      hide NoDup;
    }
  }

  lemma HeadOnce(list: seq<nat>)
    requires NoDup(list) && list != []
    ensures NoDup(list[1..]) && list[0] !in list[1..]
    ensures forall x :: x in list <==> x == list[0] || x in list[1..]
  {
    assert list == [list[0]] + list[1..];
    assert forall i :: 1 <= i < |list| ==> list[0] != list[i];
  }

  lemma Prepended(x: nat, list: seq<nat>)
    requires NoDup(list) && x !in list
    ensures NoDup([x] + list)
  {
    assert forall i :: 0 <= i < |list| ==> list[i] in list;
  }

  lemma Appended(list: seq<nat>, x: nat)
    requires NoDup(list) && x !in list
    ensures NoDup(list + [x]) && forall y :: y in list + [x] <==> y in list || y == x
  {
    assert forall i :: 0 <= i < |list| ==> list[i] in list;
  }

  lemma {:induction false} ChargesSame(a: map<nat, Entry>, b: map<nat, Entry>, list: seq<nat>)
    requires forall id :: id in list ==> id in a && id in b && a[id].charge == b[id].charge
    ensures Charges(a, list) == Charges(b, list)
  {
    if list != [] {
      assert list[0] in list && forall x :: x in list[1..] ==> x in list;
      ChargesSame(a, b, list[1..]);
    }
  }

  lemma {:induction false} ChargesWithout(entries: map<nat, Entry>, list: seq<nat>, id: nat)
    requires NoDup(list) && forall x :: x in list ==> x in entries
    ensures forall x :: x in Without(list, id) ==> x in entries
    ensures id in list ==> Charges(entries, list) == Charges(entries, Without(list, id)) + entries[id].charge
    ensures id !in list ==> Without(list, id) == list
  {
    WithoutOk(list, id);
    if list != [] && list[0] != id {
      assert list == [list[0]] + list[1..];
      assert forall x :: x in list[1..] ==> x in list;
      ChargesWithout(entries, list[1..], id);
    }
  }

  lemma {:induction false} ChargesMore(entries: map<nat, Entry>, list: seq<nat>, id: nat)
    requires forall x :: x in list + [id] ==> x in entries
    ensures id in entries && (forall x :: x in list ==> x in entries)
    ensures Charges(entries, list + [id]) == Charges(entries, list) + entries[id].charge
  {
    assert (list + [id])[|list|] == id;
    assert forall x :: x in list ==> x in list + [id];
    if list == [] {
      assert [id][1..] == [] && list + [id] == [id];
    } else {
      assert (list + [id])[1..] == list[1..] + [id];
      assert forall x :: x in list[1..] + [id] ==> x in list + [id];
      ChargesMore(entries, list[1..], id);
    }
  }

  // ---- The invariant ----

  ghost predicate ListsOk(s: State) {
    && NoDup(s.lru) && NoDup(s.inUse)
    && (forall id :: id in s.lru ==> id in s.entries && s.entries[id].inCache && s.entries[id].refs == 1)
    && (forall id :: id in s.inUse ==> id in s.entries && s.entries[id].inCache && s.entries[id].refs >= 2)
    && (forall id :: id in s.entries && s.entries[id].inCache ==> id in s.lru || id in s.inUse)
  }

  /** References are the handles held plus the cache's own; nothing unreferenced stays. */
  ghost predicate RefsOk(s: State) {
    && s.handles.Keys == s.entries.Keys
    && forall id :: id in s.entries ==>
         0 < s.entries[id].refs == s.handles[id] + if s.entries[id].inCache then 1 else 0
  }

  /** The table maps the keys of the cached entries; `gone` was just taken out of it. */
  ghost predicate TableOk(s: State, gone: Option<nat>) {
    && (forall k :: k in s.m ==> s.m[k] in s.entries && s.entries[s.m[k]].inCache && s.entries[s.m[k]].key == k
                                 && gone != Some(s.m[k]))
    && (forall id :: id in s.entries && s.entries[id].inCache && gone != Some(id) ==>
          s.entries[id].key in s.m && s.m[s.entries[id].key] == id)
  }

  ghost predicate UsageOk(s: State)
    requires ListsOk(s)
  {
    s.usage == Charges(s.entries, s.lru) + Charges(s.entries, s.inUse)
  }

  /** Every identity handed out is live or had its deleter run, once. */
  ghost predicate DeletedOk(s: State) {
    && NoDup(s.deleted)
    && (forall id :: id in s.entries ==> id < s.next && id !in s.deleted)
    && (forall id :: id in s.deleted ==> id < s.next)
    && (forall id: nat :: id < s.next ==> id in s.entries || id in s.deleted)
  }

  ghost predicate Inv(s: State, gone: Option<nat>) {
    ListsOk(s) && RefsOk(s) && TableOk(s, gone) && UsageOk(s) && DeletedOk(s)
  }

  // ---- What the operations do ----

  /** Give an entry one more reference, held by a client. */
  ghost function Taken(s: State, id: nat): State
    requires id in s.entries && id in s.handles
  {
    var e := s.entries[id];
    var idle := e.refs == 1 && e.inCache;
    s.(entries := s.entries[id := e.(refs := e.refs + 1)], handles := s.handles[id := s.handles[id] + 1],
       lru := if idle then Without(s.lru, id) else s.lru,
       inUse := if idle then Without(s.inUse, id) + [id] else s.inUse)
  }

  /** A client gives a handle back. */
  ghost function Released(s: State, id: nat): State
    requires id in s.entries && id in s.handles && s.handles[id] > 0 && s.entries[id].refs > 0
  {
    var e := s.entries[id];
    if e.refs == 1 then
      s.(entries := s.entries - {id}, handles := s.handles - {id}, deleted := s.deleted + [id])
    else
      var back := e.inCache && e.refs == 2;
      s.(entries := s.entries[id := e.(refs := e.refs - 1)], handles := s.handles[id := s.handles[id] - 1],
         inUse := if back then Without(s.inUse, id) else s.inUse,
         lru := if back then Without(s.lru, id) + [id] else s.lru)
  }

  /** The cache drops its own reference; the entry dies unless a client still holds it. */
  ghost function Erased(s: State, id: nat): State
    requires id in s.entries && s.entries[id].refs > 0
  {
    var e := s.entries[id];
    var off := s.(lru := Without(s.lru, id), inUse := Without(s.inUse, id), usage := s.usage - e.charge);
    if e.refs == 1 then
      off.(entries := s.entries - {id}, handles := s.handles - {id}, deleted := s.deleted + [id])
    else off.(entries := s.entries[id := e.(refs := e.refs - 1, inCache := false)])
  }

  // Each operation keeps each part of the invariant.

  lemma TakenLists(s: State, id: nat)
    requires ListsOk(s) && RefsOk(s) && id in s.entries
    ensures ListsOk(Taken(s, id))
  {
    WithoutOk(s.lru, id);
    WithoutOk(s.inUse, id);
    Appended(Without(s.inUse, id), id);
    hide NoDup, Without;
  }

  lemma TakenUsage(s: State, id: nat)
    requires ListsOk(s) && UsageOk(s) && id in s.entries && id in s.handles && ListsOk(Taken(s, id))
    ensures UsageOk(Taken(s, id))
  {
    var s' := Taken(s, id);
    if s.entries[id].refs == 1 && s.entries[id].inCache {
      ChargesWithout(s.entries, s.lru, id);
      ChargesWithout(s.entries, s.inUse, id);
      ChargesMore(s'.entries, s.inUse, id);
    }
    ChargesSame(s.entries, s'.entries, s'.lru);
    ChargesSame(s.entries, s'.entries, s.inUse);
  }

  lemma TakenRefs(s: State, id: nat)
    requires RefsOk(s) && DeletedOk(s) && id in s.entries
    ensures RefsOk(Taken(s, id)) && DeletedOk(Taken(s, id))
  {
    hide NoDup, Without;
  }

  lemma TakenTable(s: State, id: nat)
    requires TableOk(s, None) && id in s.entries && id in s.handles
    ensures TableOk(Taken(s, id), None)
  {
    hide NoDup, Without;
  }

  lemma TakenKeepsInv(s: State, id: nat)
    requires Inv(s, None) && id in s.entries
    ensures Inv(Taken(s, id), None)
  {
    TakenLists(s, id);
    TakenUsage(s, id);
    TakenRefs(s, id);
    TakenTable(s, id);
    hide ListsOk, UsageOk, RefsOk, TableOk, DeletedOk, Taken;
  }

  lemma ReleasedLists(s: State, id: nat)
    requires ListsOk(s) && RefsOk(s) && id in s.entries && s.handles[id] > 0
    ensures ListsOk(Released(s, id))
  {
    if s.entries[id].inCache && s.entries[id].refs == 2 {
      BackToIdle(s, id);
    } else {
      StaysWhereItIs(s, id);
    }
    hide ListsOk, Released;
  }

  lemma BackToIdle(s: State, id: nat)
    requires ListsOk(s) && RefsOk(s) && id in s.entries && s.entries[id].inCache && s.entries[id].refs == 2
    ensures s.handles[id] == 1 && ListsOk(Released(s, id))
  {
    WithoutOk(s.lru, id);
    WithoutOk(s.inUse, id);
    Appended(Without(s.lru, id), id);
    hide NoDup, Without;
  }

  lemma StaysWhereItIs(s: State, id: nat)
    requires ListsOk(s) && RefsOk(s) && id in s.entries && s.handles[id] > 0
    requires !(s.entries[id].inCache && s.entries[id].refs == 2)
    ensures ListsOk(Released(s, id))
  {
    hide NoDup, Without;
  }

  lemma ReleasedUsage(s: State, id: nat)
    requires ListsOk(s) && RefsOk(s) && UsageOk(s) && id in s.entries && s.handles[id] > 0 && ListsOk(Released(s, id))
    ensures UsageOk(Released(s, id))
  {
    var s' := Released(s, id);
    if s.entries[id].inCache && s.entries[id].refs == 2 {
      ChargesWithout(s.entries, s.lru, id);
      ChargesWithout(s.entries, s.inUse, id);
      ChargesMore(s'.entries, s.lru, id);
      ChargesSame(s.entries, s'.entries, s.lru);
      ChargesSame(s.entries, s'.entries, s'.inUse);
    } else {
      ChargesSame(s.entries, s'.entries, s.lru);
      ChargesSame(s.entries, s'.entries, s.inUse);
    }
  }

  lemma ReleasedRefs(s: State, id: nat)
    requires RefsOk(s) && id in s.entries && s.handles[id] > 0
    ensures RefsOk(Released(s, id))
  {
    hide Without;
  }

  lemma ReleasedTable(s: State, id: nat)
    requires RefsOk(s) && TableOk(s, None) && id in s.entries && s.handles[id] > 0
    ensures TableOk(Released(s, id), None)
  {
    hide Without;
  }

  lemma ReleasedDeleted(s: State, id: nat)
    requires RefsOk(s) && TableOk(s, None) && DeletedOk(s) && id in s.entries && s.handles[id] > 0
    ensures DeletedOk(Released(s, id))
  {
    Appended(s.deleted, id);
  }

  lemma ReleasedKeepsInv(s: State, id: nat)
    requires Inv(s, None) && id in s.entries && s.handles[id] > 0
    ensures Inv(Released(s, id), None)
  {
    ReleasedLists(s, id);
    ReleasedUsage(s, id);
    ReleasedRefs(s, id);
    ReleasedTable(s, id);
    ReleasedDeleted(s, id);
    hide ListsOk, UsageOk, RefsOk, TableOk, DeletedOk, Released;
  }

  lemma ErasedIs(s: State, id: nat)
    requires id in s.entries && s.entries[id].refs > 0
    ensures
      var e, r := s.entries[id], Erased(s, id);
      && r.lru == Without(s.lru, id) && r.inUse == Without(s.inUse, id) && r.usage == s.usage - e.charge
      && r.next == s.next && r.m == s.m
      && (e.refs == 1 ==>
            r.entries == s.entries - {id} && r.handles == s.handles - {id} && r.deleted == s.deleted + [id])
      && (e.refs > 1 ==>
            && r.entries == s.entries[id := e.(refs := e.refs - 1, inCache := false)] && r.handles == s.handles
            && r.deleted == s.deleted)
  {
  }

  lemma ErasedLists(s: State, id: nat)
    requires ListsOk(s) && RefsOk(s) && id in s.entries && s.entries[id].inCache
    ensures ListsOk(Erased(s, id))
  {
    WithoutOk(s.lru, id);
    WithoutOk(s.inUse, id);
  }

  lemma ErasedUsage(s: State, id: nat)
    requires ListsOk(s) && RefsOk(s) && UsageOk(s) && id in s.entries && s.entries[id].inCache && ListsOk(Erased(s, id))
    ensures UsageOk(Erased(s, id))
  {
    var s' := Erased(s, id);
    ChargesWithout(s.entries, s.lru, id);
    ChargesWithout(s.entries, s.inUse, id);
    ChargesSame(s.entries, s'.entries, s'.lru);
    ChargesSame(s.entries, s'.entries, s'.inUse);
  }

  lemma ErasedRefs(s: State, id: nat)
    requires RefsOk(s) && id in s.entries && s.entries[id].inCache
    ensures RefsOk(Erased(s, id))
  {
    hide Without;
  }

  lemma ErasedTable(s: State, id: nat)
    requires TableOk(s, Some(id)) && id in s.entries && s.entries[id].inCache && s.entries[id].refs > 0
    ensures TableOk(Erased(s, id), None)
  {
    hide Without;
  }

  lemma ErasedDeleted(s: State, id: nat)
    requires RefsOk(s) && TableOk(s, Some(id)) && DeletedOk(s) && id in s.entries && s.entries[id].inCache
    ensures DeletedOk(Erased(s, id))
  {
    Appended(s.deleted, id);
  }

  /** Taken out of the table, an entry leaves the cache altogether. */
  lemma ErasedKeepsInv(s: State, id: nat)
    requires Inv(s, Some(id)) && id in s.entries && s.entries[id].inCache
    ensures Inv(Erased(s, id), None)
  {
    ErasedLists(s, id);
    ErasedUsage(s, id);
    ErasedRefs(s, id);
    ErasedTable(s, id);
    ErasedDeleted(s, id);
    hide ListsOk, UsageOk, RefsOk, TableOk, DeletedOk, Erased;
  }

  /** Taking a key out of the table leaves its entry to be erased. */
  lemma RemovedFromTable(s: State, key: bytes)
    requires Inv(s, None) && key in s.m
    ensures s.m[key] in s.entries && s.entries[s.m[key]].inCache
    ensures Inv(s.(m := s.m - {key}), Some(s.m[key]))
  {
  }

  /** A new entry, held by the caller and by the cache, in the table in place of any other. */
  ghost function Added(s: State, key: bytes, value: int, charge: nat): State {
    s.(entries := s.entries[s.next := Entry(key, value, charge, 2, true)], handles := s.handles[s.next := 1],
       inUse := s.inUse + [s.next], usage := s.usage + charge, next := s.next + 1, m := s.m[key := s.next])
  }

  /** A new entry the cache does not keep. */
  ghost function Uncached(s: State, key: bytes, value: int, charge: nat): State {
    s.(entries := s.entries[s.next := Entry(key, value, charge, 1, false)], handles := s.handles[s.next := 1],
       next := s.next + 1)
  }

  lemma AddedIs(s: State, key: bytes, value: int, charge: nat)
    ensures
      var a := Added(s, key, value, charge);
      && a.entries == s.entries[s.next := Entry(key, value, charge, 2, true)] && a.handles == s.handles[s.next := 1]
      && a.lru == s.lru && a.inUse == s.inUse + [s.next] && a.usage == s.usage + charge && a.deleted == s.deleted
      && a.next == s.next + 1 && a.m == s.m[key := s.next]
    ensures
      var a := Uncached(s, key, value, charge);
      && a.entries == s.entries[s.next := Entry(key, value, charge, 1, false)] && a.handles == s.handles[s.next := 1]
      && a.lru == s.lru && a.inUse == s.inUse && a.usage == s.usage && a.deleted == s.deleted
      && a.next == s.next + 1 && a.m == s.m
  {
  }

  lemma AddedLists(s: State, key: bytes, value: int, charge: nat)
    requires ListsOk(s) && DeletedOk(s)
    ensures ListsOk(Added(s, key, value, charge))
  {
    assert forall i :: 0 <= i < |s.inUse| ==> s.inUse[i] in s.inUse;
  }

  lemma AddedUsage(s: State, key: bytes, value: int, charge: nat)
    requires ListsOk(s) && DeletedOk(s) && UsageOk(s) && ListsOk(Added(s, key, value, charge))
    ensures UsageOk(Added(s, key, value, charge))
  {
    var s' := Added(s, key, value, charge);
    ChargesMore(s'.entries, s.inUse, s.next);
    ChargesSame(s.entries, s'.entries, s.lru);
    ChargesSame(s.entries, s'.entries, s.inUse);
  }

  lemma AddedTable(s: State, key: bytes, value: int, charge: nat)
    requires TableOk(s, None) && DeletedOk(s)
    ensures TableOk(Added(s, key, value, charge), if key in s.m then Some(s.m[key]) else None)
  {
    hide NoDup;
  }

  lemma AddedRest(s: State, key: bytes, value: int, charge: nat)
    requires RefsOk(s) && DeletedOk(s)
    ensures RefsOk(Added(s, key, value, charge)) && DeletedOk(Added(s, key, value, charge))
  {
    hide NoDup;
  }

  lemma AddedKeepsInv(s: State, key: bytes, value: int, charge: nat)
    requires Inv(s, None)
    ensures key in s.m ==> s.m[key] in s.entries && s.entries[s.m[key]].inCache
    ensures Inv(Added(s, key, value, charge), if key in s.m then Some(s.m[key]) else None)
  {
    AddedLists(s, key, value, charge);
    AddedUsage(s, key, value, charge);
    AddedTable(s, key, value, charge);
    AddedRest(s, key, value, charge);
    hide ListsOk, UsageOk, RefsOk, DeletedOk;
  }

  lemma UncachedKeepsInv(s: State, key: bytes, value: int, charge: nat)
    requires Inv(s, None)
    ensures Inv(Uncached(s, key, value, charge), None)
  {
    UncachedLists(s, key, value, charge);
    UncachedTable(s, key, value, charge);
    UncachedRest(s, key, value, charge);
    hide ListsOk, UsageOk, RefsOk, TableOk, DeletedOk, Uncached;
  }

  lemma UncachedLists(s: State, key: bytes, value: int, charge: nat)
    requires ListsOk(s) && UsageOk(s) && DeletedOk(s)
    ensures ListsOk(Uncached(s, key, value, charge)) && UsageOk(Uncached(s, key, value, charge))
  {
    hide NoDup;
    var s' := Uncached(s, key, value, charge);
    ChargesSame(s.entries, s'.entries, s.lru);
    ChargesSame(s.entries, s'.entries, s.inUse);
  }

  lemma UncachedTable(s: State, key: bytes, value: int, charge: nat)
    requires TableOk(s, None) && DeletedOk(s)
    ensures TableOk(Uncached(s, key, value, charge), None)
  {
    hide NoDup;
  }

  lemma UncachedRest(s: State, key: bytes, value: int, charge: nat)
    requires RefsOk(s) && DeletedOk(s)
    ensures RefsOk(Uncached(s, key, value, charge)) && DeletedOk(Uncached(s, key, value, charge))
  {
    hide NoDup;
  }

  /** Drop the oldest idle entry. */
  ghost function EvictOne(s: State): State
    requires Inv(s, None) && s.lru != []
    ensures Inv(EvictOne(s), None) && EvictOne(s).lru == s.lru[1..] && EvictOne(s).deleted == s.deleted + [s.lru[0]]
  {
    var id := s.lru[0];
    assert id in s.lru;
    var off := s.(m := s.m - {s.entries[id].key});
    RemovedFromTable(s, s.entries[id].key);
    ErasedKeepsInv(off, id);
    Erased(off, id)
  }

  /** Drop idle entries, oldest first, while the charges exceed the capacity. */
  ghost function Evict(s: State, capacity: nat): (r: State)
    requires Inv(s, None)
    ensures Inv(r, None) && (r.usage <= capacity || r.lru == [])
    decreases |s.lru|
  {
    if s.usage <= capacity || s.lru == [] then s else Evict(EvictOne(s), capacity)
  }

  /** Eviction takes a prefix of the idle entries, and not one that could have stayed. */
  lemma {:induction false} EvictsOldest(s: State, capacity: nat)
    requires Inv(s, None)
    ensures
      var r := Evict(s, capacity);
      var n := |s.lru| - |r.lru|;
      && 0 <= n && r.lru == s.lru[n..] && r.deleted == s.deleted + s.lru[..n] && r.inUse == s.inUse
      && (n > 0 ==> s.usage > capacity)
    decreases |s.lru|
  {
    hide Inv;
    if !(s.usage <= capacity || s.lru == []) {
      var t := EvictOne(s);
      InUseStays(s);
      EvictsOldest(t, capacity);
      var n := |t.lru| - |Evict(t, capacity).lru|;
      OneMoreGone(s.lru, s.deleted, n);
    }
  }

  lemma OneMoreGone(lru: seq<nat>, deleted: seq<nat>, n: nat)
    requires n < |lru|
    ensures deleted + [lru[0]] + lru[1..][..n] == deleted + lru[..n + 1] && lru[1..][n..] == lru[n + 1..]
  {
    assert [lru[0]] + lru[1..][..n] == lru[..n + 1];
  }

  lemma InUseStays(s: State)
    requires Inv(s, None) && s.lru != []
    ensures EvictOne(s).inUse == s.inUse
  {
    assert s.lru[0] in s.lru;
    ChargesWithout(s.entries, s.inUse, s.lru[0]);
  }

  /** The charges of the entries dropped are what usage goes down by, and without the last of them it was too much. */
  lemma {:induction false} EvictsNoMore(s: State, capacity: nat)
    requires Inv(s, None)
    ensures |Evict(s, capacity).lru| <= |s.lru| && forall id :: id in s.lru ==> id in s.entries
    ensures
      var r := Evict(s, capacity);
      var n := |s.lru| - |r.lru|;
      && r.usage == s.usage - Charges(s.entries, s.lru[..n])
      && (n > 0 ==> s.usage - Charges(s.entries, s.lru[..n - 1]) > capacity)
    decreases |s.lru|
  {
    hide Inv, EvictOne, Charges;
    IdleAreLive(s);
    NoneDropped(s);
    if !(s.usage <= capacity || s.lru == []) {
      var t := EvictOne(s);
      OldestLeaves(s);
      EvictsNoMore(t, capacity);
      var n := |t.lru| - |Evict(t, capacity).lru|;
      assert Evict(s, capacity) == Evict(t, capacity);
      hide Evict;
      ChargesNext(s.entries, t.entries, s.lru, n);
      if n > 0 {
        ChargesNext(s.entries, t.entries, s.lru, n - 1);
      }
    }
  }

  lemma NoneDropped(s: State)
    requires forall id :: id in s.lru ==> id in s.entries
    ensures Charges(s.entries, s.lru[..0]) == 0
  {
  }

  lemma IdleAreLive(s: State)
    requires Inv(s, None)
    ensures forall id :: id in s.lru ==> id in s.entries
  {
  }

  lemma OldestLeaves(s: State)
    requires Inv(s, None) && s.lru != []
    ensures s.lru[0] in s.entries && EvictOne(s).usage == s.usage - s.entries[s.lru[0]].charge
    ensures forall id :: id in s.lru[1..] ==>
                           id in s.entries && id in EvictOne(s).entries && EvictOne(s).entries[id] == s.entries[id]
  {
    OldestParts(s);
    HeadOnce(s.lru);
  }

  lemma ChargesNext(a: map<nat, Entry>, b: map<nat, Entry>, list: seq<nat>, n: nat)
    requires n < |list| && list[0] in a && (forall id :: id in list ==> id in a)
    requires forall id :: id in list[1..] ==> id in a && id in b && b[id] == a[id]
    ensures forall id :: id in list[1..][..n] ==> id in list[1..]
    ensures Charges(a, list[..n + 1]) == a[list[0]].charge + Charges(b, list[1..][..n])
  {
    assert list[..n + 1][1..] == list[1..][..n];
    ChargesSame(a, b, list[1..][..n]);
  }

  /** Entry and place in the table are as they were. */
  ghost predicate Stays(s: State, r: State, id: nat) {
    && id in s.entries && id in r.entries && r.entries[id] == s.entries[id]
    && forall k :: k in s.m && s.m[k] == id ==> k in r.m && r.m[k] == id
  }

  lemma OthersStay(s: State, id: nat)
    requires Inv(s, None) && s.lru != [] && id in s.entries && id !in s.lru
    ensures Stays(s, EvictOne(s), id) && id !in EvictOne(s).lru
  {
    hide Inv, EvictOne, Erased, Without;
    OldestParts(s);
    var oldest := s.lru[0];
    ErasedIs(s.(m := s.m - {s.entries[oldest].key}), oldest);
    assert oldest in s.lru && forall x :: x in s.lru[1..] ==> x in s.lru;
  }

  /** Eviction touches nothing that is in use. */
  lemma {:induction false} EvictKeepsInUse(s: State, capacity: nat, id: nat)
    requires Inv(s, None) && id in s.entries && id !in s.lru
    ensures Stays(s, Evict(s, capacity), id)
    decreases |s.lru|
  {
    hide Inv, EvictOne;
    if !(s.usage <= capacity || s.lru == []) {
      OthersStay(s, id);
      EvictKeepsInUse(EvictOne(s), capacity, id);
    }
  }

  /** The new entry is there, found under its key if the cache keeps anything. */
  ghost predicate Present(s: State, id: nat, key: bytes, value: int, charge: nat, keep: bool) {
    && id in s.entries && s.entries[id].key == key && s.entries[id].value == value && s.entries[id].charge == charge
    && id in s.handles && s.handles[id] == 1 && s.entries[id].inCache == keep
    && (keep ==> key in s.m && s.m[key] == id)
  }

  lemma InsertIsThere(s: State, key: bytes, value: int, charge: nat, keep: bool, capacity: nat)
    requires Inv(s, None)
    ensures Present(Evict(Inserted(s, key, value, charge, keep), capacity), s.next, key, value, charge, keep)
  {
    var t := Inserted(s, key, value, charge, keep);
    InsertedIsThere(s, key, value, charge, keep);
    EvictKeepsInUse(t, capacity, s.next);
    HandlesMatch(t, Evict(t, capacity), s.next);
    hide Inv, Evict, Inserted;
  }

  lemma HandlesMatch(s: State, r: State, id: nat)
    requires Inv(s, None) && Inv(r, None) && Stays(s, r, id)
    ensures id in s.handles && id in r.handles && r.handles[id] == s.handles[id]
  {
  }

  lemma InsertedIsThere(s: State, key: bytes, value: int, charge: nat, keep: bool)
    requires Inv(s, None)
    ensures
      var t := Inserted(s, key, value, charge, keep);
      Present(t, s.next, key, value, charge, keep) && s.next !in t.lru
  {
    hide Inv, Inserted, Added, Uncached, Erased, Without, OlderFirst;
    NextIsNew(s);
    InsertedIs(s, key, value, charge);
    AddedIs(s, key, value, charge);
    var a, gone := Added(s, key, value, charge), Replaced(s, key);
    if keep && gone.Some? {
      ErasedIs(a, gone.value);
      WithoutInOrder(a.lru, gone.value);
    }
  }

  lemma NextIsNew(s: State)
    requires Inv(s, None)
    ensures s.next !in s.entries && s.next !in s.lru && forall k :: k in s.m ==> s.m[k] != s.next
  {
  }

  // ---- The order of the idle entries ----

  ghost predicate Before(list: seq<nat>, x: nat, y: nat) {
    exists i, j :: 0 <= i < j < |list| && list[i] == x && list[j] == y
  }

  /** Whatever is still idle comes in the order it had, and before all that has become idle since. */
  ghost predicate OlderFirst(was: seq<nat>, now: seq<nat>) {
    forall i, j :: 0 <= i < j < |now| && now[j] in was ==> Before(was, now[i], now[j])
  }

  lemma {:induction false} WithoutInOrder(list: seq<nat>, id: nat)
    ensures OlderFirst(list, Without(list, id)) && forall x :: x in Without(list, id) ==> x in list
  {
    if list != [] && list[0] != id {
      WithoutInOrder(list[1..], id);
      var rest := Without(list[1..], id);
      forall i, j | 0 <= i < j < |[list[0]] + rest|
        ensures Before(list, ([list[0]] + rest)[i], ([list[0]] + rest)[j])
      {
        BeforeMore(list, rest, i, j);
      }
    } else if list != [] {
      assert forall i, j :: 0 <= i < j < |list[1..]| ==> list[i + 1] == list[1..][i] && list[j + 1] == list[1..][j];
    }
  }

  lemma BeforeMore(list: seq<nat>, rest: seq<nat>, i: nat, j: nat)
    requires list != [] && i < j < |rest| + 1 && OlderFirst(list[1..], rest) && forall x :: x in rest ==> x in list[1..]
    ensures Before(list, ([list[0]] + rest)[i], ([list[0]] + rest)[j])
  {
    var y := rest[j - 1];
    assert y in list[1..];
    if i == 0 {
      var b: nat :| b < |list[1..]| && list[1..][b] == y;
      assert list[b + 1] == y;
    } else {
      var a, b :| 0 <= a < b < |list[1..]| && list[1..][a] == rest[i - 1] && list[1..][b] == y;
      assert list[a + 1] == rest[i - 1] && list[b + 1] == y;
    }
  }

  lemma SuffixInOrder(was: seq<nat>, mid: seq<nat>, n: nat)
    requires OlderFirst(was, mid) && n <= |mid|
    ensures OlderFirst(was, mid[n..])
  {
  }

  lemma SameOrder(list: seq<nat>)
    ensures OlderFirst(list, list)
  {
  }

  lemma NewcomerLast(was: seq<nat>, x: nat)
    requires x !in was
    ensures OlderFirst(was, was + [x])
  {
    SameOrder(was);
  }

  /** Taking, releasing and erasing keep the idle entries in the order they became idle. */
  lemma KeepsOrder(s: State, id: nat)
    requires Inv(s, None) && id in s.entries && id in s.handles
    ensures OlderFirst(s.lru, Taken(s, id).lru)
    ensures s.handles[id] > 0 && s.entries[id].refs > 0 ==> OlderFirst(s.lru, Released(s, id).lru)
  {
    SameOrder(s.lru);
    WithoutInOrder(s.lru, id);
    if s.handles[id] > 0 && s.entries[id].refs == 2 && s.entries[id].inCache {
      ReleasedParts(s, id);
      NewcomerLast(s.lru, id);
    }
  }

  lemma EraseKeepsOrder(s: State, id: nat)
    requires id in s.entries && s.entries[id].refs > 0
    ensures OlderFirst(s.lru, Erased(s, id).lru)
  {
    WithoutInOrder(s.lru, id);
  }

  lemma InsertKeepsOrder(s: State, key: bytes, value: int, charge: nat, keep: bool, capacity: nat)
    requires Inv(s, None)
    ensures OlderFirst(s.lru, Evict(Inserted(s, key, value, charge, keep), capacity).lru)
  {
    hide Inv, Inserted, Evict, OlderFirst, Added, Uncached, Erased, Replaced;
    var t := Inserted(s, key, value, charge, keep);
    SameOrder(s.lru);
    InsertedIs(s, key, value, charge);
    AddedIs(s, key, value, charge);
    var a, gone := Added(s, key, value, charge), Replaced(s, key);
    if keep && gone.Some? {
      EraseKeepsOrder(a, gone.value);
    }
    EvictsOldest(t, capacity);
    SuffixInOrder(s.lru, t.lru, |t.lru| - |Evict(t, capacity).lru|);
  }

  /** An insertion before eviction: the entry it replaces loses the cache's reference. */
  ghost function Inserted(s: State, key: bytes, value: int, charge: nat, keep: bool): (r: State)
    requires Inv(s, None)
    ensures Inv(r, None)
  {
    if keep then
      AddedKeepsInv(s, key, value, charge);
      var a := Added(s, key, value, charge);
      if key in s.m then ErasedKeepsInv(a, s.m[key]); Erased(a, s.m[key]) else a
    else
      UncachedKeepsInv(s, key, value, charge);
      Uncached(s, key, value, charge)
  }

  /** The entry a key's place in the table was taken from. */
  ghost function Replaced(s: State, key: bytes): Option<nat> {
    if key in s.m then Some(s.m[key]) else None
  }

  /** What is left once the entry taken out of the table, if any, has left the cache. */
  ghost function Finished(s: State, gone: Option<nat>): State
    requires gone.Some? ==> gone.value in s.entries && s.entries[gone.value].refs > 0
  {
    if gone.Some? then Erased(s, gone.value) else s
  }

  lemma InsertedIs(s: State, key: bytes, value: int, charge: nat)
    requires Inv(s, None)
    ensures Inserted(s, key, value, charge, false) == Uncached(s, key, value, charge)
    ensures
      var a, gone := Added(s, key, value, charge), Replaced(s, key);
      && Inv(a, gone)
      && (gone.Some? ==> gone.value in a.entries && a.entries[gone.value].inCache && a.entries[gone.value].refs > 0)
      && Inserted(s, key, value, charge, true) == Finished(a, gone)
  {
    AddedKeepsInv(s, key, value, charge);
    var a := Added(s, key, value, charge);
    if key in s.m {
      ErasedParts(a, Some(s.m[key]), s.m[key]);
    }
    hide Inv, Added, Erased, Uncached;
  }

  const START: State := State(map[], [], [], 0, [], map[], 0, map[])

  lemma StartOk()
    ensures Inv(START, None)
  {
  }

  lemma TakenParts(s: State, id: nat)
    requires Inv(s, None) && id in s.entries
    ensures id in s.handles && (s.entries[id].refs == 1 && s.entries[id].inCache ==> Without(s.inUse, id) == s.inUse)
  {
    ChargesWithout(s.entries, s.inUse, id);
  }

  lemma TableParts(s: State, key: bytes)
    requires Inv(s, None)
    ensures key in s.m ==> s.m[key] in s.entries && s.entries[s.m[key]].key == key
  {
  }

  // ---- The shard ----

  class LRUCache {
    var capacity: nat
    var usage: int
    var lru: seq<nat>
    var inUse: seq<nat>
    const table: HandleTable
    var entries: map<nat, Entry>
    var next: nat
    /** The deleter calls made so far. */
    var deleted: seq<nat>
    ghost var handles: map<nat, nat>

    ghost function View(): State
      reads this, table
    {
      State(entries, lru, inUse, usage, deleted, handles, next, table.m)
    }

    ghost predicate Valid()
      reads this, table
    {
      table.Valid() && Inv(View(), None)
    }

    constructor (capacity: nat, hash: Hash)
      ensures Valid() && fresh(table) && this.capacity == capacity && table.hash == hash
      ensures View() == START
    {
      StartOk();
      hide Inv, HandleTable.Valid;
      this.capacity, usage, lru, inUse, entries, next, deleted, handles := capacity, 0, [], [], map[], 0, [], map[];
      table := new HandleTable(hash);
    }

    /** Another reference; an idle entry goes to the in-use list. */
    method Ref(e: nat)
      requires Valid() && e in entries
      modifies this
      ensures View() == Taken(old(View()), e) && Valid() && capacity == old(capacity)
    {
      hide Inv, HandleTable.Valid;
      TakenParts(View(), e);
      TakenKeepsInv(View(), e);
      if entries[e].refs == 1 && entries[e].inCache {
        lru := Without(lru, e);
        inUse := inUse + [e];
      }
      entries := entries[e := entries[e].(refs := entries[e].refs + 1)];
      handles := handles[e := handles[e] + 1];
    }

    method Lookup(key: bytes) returns (r: Option<nat>)
      requires Valid()
      modifies this
      ensures Valid() && capacity == old(capacity)
      ensures r == if key in old(table.m) then Some(old(table.m)[key]) else None
      ensures r.Some? ==> r.value in old(entries) && old(entries)[r.value].key == key && View() == Taken(old(View()), r.value)
      ensures r.None? ==> View() == old(View())
      ensures OlderFirst(old(lru), lru)
    {
      hide Inv, HandleTable.Valid, OlderFirst, Taken;
      TableParts(View(), key);
      SameOrder(lru);
      r := table.Lookup(key);
      if r.Some? {
        TakenParts(View(), r.value);
        KeepsOrder(View(), r.value);
        Ref(r.value);
      }
    }

    /** A client's handle comes back; the last reference runs the deleter. */
    method Release(e: nat)
      requires Valid() && e in entries && e in handles && handles[e] > 0
      modifies this
      ensures Valid() && capacity == old(capacity) && View() == Released(old(View()), e)
      ensures OlderFirst(old(lru), lru)
    {
      hide Inv, HandleTable.Valid, OlderFirst;
      ReleasedParts(View(), e);
      KeepsOrder(View(), e);
      ReleasedKeepsInv(View(), e);
      Unref(e);
      handles := if e in entries then handles[e := handles[e] - 1] else handles - {e};
    }

    method Unref(e: nat)
      requires e in entries && entries[e].refs > 0
      modifies this`entries, this`deleted, this`lru, this`inUse
      ensures
        var before := old(entries)[e];
        if before.refs == 1 then
          entries == old(entries) - {e} && deleted == old(deleted) + [e] && lru == old(lru) && inUse == old(inUse)
        else
          && entries == old(entries)[e := before.(refs := before.refs - 1)] && deleted == old(deleted)
          && if before.inCache && before.refs == 2
             then inUse == Without(old(inUse), e) && lru == old(lru) + [e]
             else inUse == old(inUse) && lru == old(lru)
    {
      entries := entries[e := entries[e].(refs := entries[e].refs - 1)];
      if entries[e].refs == 0 {
        deleted := deleted + [e];
        entries := entries - {e};
      } else if entries[e].inCache && entries[e].refs == 1 {
        inUse := Without(inUse, e);
        lru := lru + [e];
      }
    }

    /** Finish removing an entry that is out of the table already. */
    method FinishErase(e: Option<nat>) returns (erased: bool)
      requires table.Valid() && Inv(View(), e) && (e.Some? ==> e.value in entries && entries[e.value].inCache)
      modifies this
      ensures Valid() && capacity == old(capacity) && erased == e.Some?
      ensures e.Some? ==> old(entries)[e.value].refs > 0
      ensures View() == Finished(old(View()), e)
    {
      hide Inv, HandleTable.Valid, Erased;
      if e.Some? {
        EraseEntry(e.value);
      }
      erased := e.Some?;
    }

    method EraseEntry(id: nat)
      requires table.Valid() && Inv(View(), Some(id)) && id in entries && entries[id].inCache
      modifies this
      ensures Valid() && capacity == old(capacity) && old(entries)[id].refs > 0 && View() == Erased(old(View()), id)
    {
      hide Inv, HandleTable.Valid, Erased;
      ghost var was := View();
      ErasedParts(was, Some(id), id);
      ErasedIs(was, id);
      ErasedKeepsInv(was, id);
      lru, inUse := Without(lru, id), Without(inUse, id);
      usage := usage - entries[id].charge;
      handles := if entries[id].refs == 1 then handles - {id} else handles;
      WrittenTwice(entries, id, entries[id].(inCache := false), entries[id].(refs := entries[id].refs - 1, inCache := false));
      entries := entries[id := entries[id].(inCache := false)];
      Unref(id);
    }

    /** Insert, replacing any entry of the same key, then evict as far as needed. */
    method Insert(key: bytes, value: int, charge: nat) returns (e: nat)
      requires Valid()
      modifies this, table
      ensures Valid() && capacity == old(capacity) && e == old(next)
      ensures View() == Evict(Inserted(old(View()), key, value, charge, capacity > 0), capacity)
      ensures (usage <= capacity || lru == []) && OlderFirst(old(lru), lru)
      ensures Present(View(), e, key, value, charge, capacity > 0)
    {
      hide Inv, HandleTable.Valid, Evict, Erased, Inserted, Added, Uncached, OlderFirst, Present;
      e := next;
      ghost var was := View();
      InsertKeepsOrder(was, key, value, charge, capacity > 0, capacity);
      InsertIsThere(was, key, value, charge, capacity > 0, capacity);
      AddedIs(was, key, value, charge);
      InsertedIs(was, key, value, charge);
      if capacity > 0 {
        AddCached(e, key, value, charge);
      } else {
        UncachedKeepsInv(was, key, value, charge);
        next, handles := next + 1, handles[e := 1];
        entries := entries[e := Entry(key, value, charge, 1, false)];
        assert View() == Uncached(was, key, value, charge);
      }
      EvictDown();
    }

    /** In use at once, in the list, in the table, and in the place of any entry of the same key. */
    method AddCached(e: nat, key: bytes, value: int, charge: nat)
      requires Valid() && e == next
      modifies this, table
      ensures Valid() && capacity == old(capacity) && View() == Inserted(old(View()), key, value, charge, true)
    {
      hide Inv, HandleTable.Valid, Inserted, Added, Uncached, Finished, Replaced;
      InsertedIs(View(), key, value, charge);
      var replaced := PutNew(e, key, value, charge);
      var done := FinishErase(replaced);
    }

    method PutNew(e: nat, key: bytes, value: int, charge: nat) returns (replaced: Option<nat>)
      requires table.Valid() && e == next
      modifies this, table
      ensures table.Valid() && capacity == old(capacity)
      ensures View() == Added(old(View()), key, value, charge) && replaced == Replaced(old(View()), key)
    {
      hide HandleTable.Valid, Added;
      ghost var was := View();
      replaced := table.Insert(Slot(key, e));
      next, handles, entries := next + 1, handles[e := 1], entries[e := Entry(key, value, charge, 2, true)];
      inUse, usage := inUse + [e], usage + charge;
      AddedIs(was, key, value, charge);
    }

    method EvictDown()
      requires Valid()
      modifies this, table
      ensures Valid() && capacity == old(capacity) && View() == Evict(old(View()), capacity)
    {
      hide Inv, HandleTable.Valid;
      ghost var start := View();
      while usage > capacity && lru != []
        invariant Valid() && capacity == old(capacity) && Evict(start, capacity) == Evict(View(), capacity)
        decreases |lru|
      {
        DropOldest();
      }
    }

    method DropOldest()
      requires Valid() && lru != []
      modifies this, table
      ensures Valid() && capacity == old(capacity) && View() == EvictOne(old(View()))
    {
      OldestParts(View());
      hide Inv, HandleTable.Valid, EvictOne, Erased;
      var oldest := lru[0];
      RemovedFromTable(View(), entries[oldest].key);
      var removed := table.Remove(entries[oldest].key);
      var erased := FinishErase(removed);
    }

    method Erase(key: bytes)
      requires Valid()
      modifies this, table
      ensures Valid() && capacity == old(capacity) && key !in table.m
      ensures View() == if key in old(table.m) then Erased(old(View()).(m := old(table.m) - {key}), old(table.m)[key])
                        else old(View())
      ensures OlderFirst(old(lru), lru)
    {
      hide Inv, HandleTable.Valid, Erased, OlderFirst;
      ghost var was := View();
      TableParts(was, key);
      SameOrder(lru);
      if key in table.m {
        RemovedFromTable(was, key);
        ErasedInOrder(was, key);
      } else {
        NothingToRemove(was, key);
      }
      var removed := table.Remove(key);
      assert View() == was.(m := was.m - {key});
      var erased := FinishErase(removed);
    }

    /** Drop every idle entry. */
    method Prune()
      requires Valid()
      modifies this, table
      ensures Valid() && capacity == old(capacity) && lru == [] && inUse == old(inUse) && deleted == old(deleted) + old(lru)
    {
      hide Inv, HandleTable.Valid;
      ghost var n := 0;
      while lru != []
        invariant Valid() && capacity == old(capacity) && inUse == old(inUse)
        invariant n <= |old(lru)| && lru == old(lru)[n..] && deleted == old(deleted) + old(lru)[..n]
        decreases |lru|
      {
        InUseStays(View());
        DropOldest();
        n := n + 1;
      }
    }
  }

  lemma ErasedInOrder(s: State, key: bytes)
    requires Inv(s, None) && key in s.m
    ensures s.m[key] in s.entries && s.entries[s.m[key]].refs > 0
    ensures OlderFirst(s.lru, Erased(s.(m := s.m - {key}), s.m[key]).lru)
  {
    hide OlderFirst;
    TableParts(s, key);
    EraseKeepsOrder(s.(m := s.m - {key}), s.m[key]);
  }

  lemma ReleasedParts(s: State, id: nat)
    requires Inv(s, None) && id in s.entries && id in s.handles && s.handles[id] > 0
    ensures s.entries[id].refs > 0 && (s.entries[id].inCache && s.entries[id].refs == 2 ==> Without(s.lru, id) == s.lru)
  {
    ChargesWithout(s.entries, s.lru, id);
  }

  lemma ErasedParts(s: State, gone: Option<nat>, id: nat)
    requires Inv(s, gone) && id in s.entries && s.entries[id].inCache
    ensures s.entries[id].refs > 0 && id in s.handles
  {
  }

  lemma WrittenTwice(entries: map<nat, Entry>, id: nat, a: Entry, b: Entry)
    requires id in entries
    ensures entries[id := a][id := b] == entries[id := b] && entries[id := a] - {id} == entries - {id}
  {
  }

  lemma NothingToRemove(s: State, key: bytes)
    requires key !in s.m
    ensures s.(m := s.m - {key}) == s
  {
    assert s.m - {key} == s.m;
  }

  lemma OldestParts(s: State)
    requires Inv(s, None) && s.lru != []
    ensures
      var id := s.lru[0];
      && id in s.entries && s.entries[id].inCache && s.entries[id].refs > 0
      && s.entries[id].key in s.m && s.m[s.entries[id].key] == id
      && EvictOne(s) == Erased(s.(m := s.m - {s.entries[id].key}), id)
  {
    assert s.lru[0] in s.lru;
    hide Erased;
  }
}
