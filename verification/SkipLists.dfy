/**
 The skip list of the memtable: one writer storing pointers one at a time, readers walking
 the same pointers at any moment (db/skiplist.h).  Stores and loads are single steps.
 */
module SkipLists {
  import opened Coding

  const MAX_HEIGHT: nat := 12
  const HEAD: nat := 0
  const NIL: int := -1

  /** The keys of the nodes, their links per level, and the height readers start from. */
  datatype Memory = Memory(keys: seq<int>, next: seq<seq<int>>, maxHeight: nat)

  /** The node at position `p` of a level, the head being position zero. */
  function At(list: seq<nat>, p: nat): nat
    requires p <= |list|
  {
    if p == 0 then HEAD else list[p - 1]
  }

  function Succ(list: seq<nat>, p: nat): int
    requires p <= |list|
  {
    if p < |list| then list[p] else NIL
  }

  /** Nodes that exist, have a link at this level, and ascend strictly. */
  ghost predicate Members(mem: Memory, level: nat, list: seq<nat>) {
    && (forall i :: 0 <= i < |list| ==> 0 < list[i] < |mem.keys| && list[i] < |mem.next| && level < |mem.next[list[i]]|)
    && Ascending(mem.keys, list)
  }

  ghost predicate Ascending(keys: seq<int>, list: seq<nat>)
    requires forall i :: 0 <= i < |list| ==> list[i] < |keys|
  {
    forall i, j :: 0 <= i < j < |list| ==> keys[list[i]] < keys[list[j]]
  }

  /** The links of a level, followed from the head, run through exactly this list. */
  ghost predicate ChainOk(mem: Memory, level: nat, list: seq<nat>) {
    && level < MAX_HEIGHT && |mem.next| == |mem.keys| > 0 && |mem.next[HEAD]| == MAX_HEIGHT
    && Members(mem, level, list)
    && forall p :: 0 <= p <= |list| ==> mem.next[At(list, p)][level] == Succ(list, p)
  }

  ghost predicate Linked(mem: Memory, lists: seq<seq<nat>>) {
    && |lists| == MAX_HEIGHT && 1 <= mem.maxHeight <= MAX_HEIGHT && |mem.next| == |mem.keys| > 0
    && (forall level :: 0 <= level < MAX_HEIGHT ==> ChainOk(mem, level, lists[level]))
    && (forall level :: 0 < level < MAX_HEIGHT ==> forall x :: x in lists[level] ==> x in lists[level - 1])
  }

  /** `x` is the last node of the list before `key`, at position `p`. */
  ghost predicate LastBefore(mem: Memory, list: seq<nat>, key: int, x: nat, p: nat) {
    && p <= |list| && x == At(list, p)
    && (forall i :: 0 <= i < |list| ==> list[i] < |mem.keys|)
    && (forall i :: 0 <= i < p ==> mem.keys[list[i]] < key)
    && (forall i :: p <= i < |list| ==> key <= mem.keys[list[i]])
  }

  /** `x` is the head or a node of the list that comes before `key`. */
  ghost predicate Before(mem: Memory, list: seq<nat>, key: int, x: nat) {
    x == HEAD || (x in list && x < |mem.keys| && mem.keys[x] < key)
  }

  /** `r` is the first node at or after `target`, or none. */
  ghost predicate FirstFrom(mem: Memory, list: seq<nat>, target: int, r: int) {
    && (r != NIL ==> 0 <= r < |mem.keys| && r as nat in list && target <= mem.keys[r])
    && forall x :: x in list && x < |mem.keys| && target <= mem.keys[x] ==> r != NIL && mem.keys[r] <= mem.keys[x]
  }

  /** There is a node, and it comes before the key. */
  predicate KeyIsAfterNode(keys: seq<int>, key: int, n: int) {
    n != NIL && 0 <= n < |keys| && keys[n] < key
  }

  /** The link of a node before the target leads on, or to the first node from the target. */
  lemma OneLoad(mem: Memory, level: nat, list: seq<nat>, target: int, x: nat)
    requires ChainOk(mem, level, list) && Before(mem, list, target, x)
    ensures x < |mem.next| && level < |mem.next[x]|
    ensures
      var n := mem.next[x][level];
      if KeyIsAfterNode(mem.keys, target, n) then Before(mem, list, target, n)
      else FirstFrom(mem, list, target, n)
  {
    var p: nat := 0;
    if x != HEAD {
      var i: nat :| i < |list| && list[i] == x;
      p := i + 1;
    }
    assert mem.next[At(list, p)][level] == Succ(list, p);
    if p < |list| {
      assert list[p] in list;
    }
  }

  // ---- The writer's stores ----

  ghost function Fresh(height: nat): seq<int> {
    seq(height, _ => NIL)
  }

  /** A new node no link points at yet. */
  ghost function WithNode(mem: Memory, key: int, height: nat): Memory {
    mem.(keys := mem.keys + [key], next := mem.next + [Fresh(height)])
  }

  ghost function WithLink(mem: Memory, x: nat, level: nat, to: int): Memory
    requires x < |mem.next| && level < |mem.next[x]|
  {
    mem.(next := mem.next[x := mem.next[x][level := to]])
  }

  lemma NodeKeepsLinks(mem: Memory, lists: seq<seq<nat>>, key: int, height: nat)
    requires Linked(mem, lists)
    ensures Linked(WithNode(mem, key, height), lists)
  {
    forall level | 0 <= level < MAX_HEIGHT
      ensures ChainOk(WithNode(mem, key, height), level, lists[level])
    {
      assert ChainOk(mem, level, lists[level]);
    }
  }

  /** A store into a node that is not on the level changes nothing a reader can see there. */
  lemma OwnLinkKeepsLinks(mem: Memory, lists: seq<seq<nat>>, x: nat, level: nat, to: int)
    requires Linked(mem, lists) && HEAD < x < |mem.next| && level < |mem.next[x]| && level < MAX_HEIGHT && x !in lists[level]
    ensures Linked(WithLink(mem, x, level, to), lists)
  {
    var mem' := WithLink(mem, x, level, to);
    forall l | 0 <= l < MAX_HEIGHT
      ensures ChainOk(mem', l, lists[l])
    {
      assert ChainOk(mem, l, lists[l]);
      forall p | 0 <= p <= |lists[l]|
        ensures mem'.next[At(lists[l], p)][l] == Succ(lists[l], p)
      {
        assert mem.next[At(lists[l], p)][l] == Succ(lists[l], p);
        assert l == level && p > 0 ==> lists[l][p - 1] in lists[l];
      }
    }
  }

  function InsertAt(list: seq<nat>, p: nat, x: nat): seq<nat>
    requires p <= |list|
  {
    list[..p] + [x] + list[p..]
  }

  /** Publishing the node on one level, its own link there being set, puts it into that list. */
  lemma PublishLinks(mem: Memory, level: nat, list: seq<nat>, x: nat, prev: nat, p: nat)
    requires ChainOk(mem, level, list) && HEAD < x < |mem.keys| && level < |mem.next[x]|
    requires x !in list && LastBefore(mem, list, mem.keys[x], prev, p)
    requires forall y :: y in list ==> mem.keys[y] != mem.keys[x]
    requires mem.next[x][level] == Succ(list, p)
    ensures prev < |mem.next| && level < |mem.next[prev]|
    ensures ChainOk(WithLink(mem, prev, level, x), level, InsertAt(list, p, x))
  {
    assert mem.next[At(list, p)][level] == Succ(list, p);
    var mem', list' := WithLink(mem, prev, level, x), InsertAt(list, p, x);
    InsertMembers(mem, level, list, x, prev, p);
    forall q | 0 <= q <= |list'|
      ensures mem'.next[At(list', q)][level] == Succ(list', q)
    {
      InsertedLink(mem, level, list, x, prev, p, q);
    }
  }

  lemma InsertMembers(mem: Memory, level: nat, list: seq<nat>, x: nat, prev: nat, p: nat)
    requires Members(mem, level, list) && HEAD < x < |mem.keys| == |mem.next| && level < |mem.next[x]|
    requires LastBefore(mem, list, mem.keys[x], prev, p) && prev < |mem.next| && level < |mem.next[prev]|
    requires forall y :: y in list ==> mem.keys[y] != mem.keys[x]
    ensures Members(WithLink(mem, prev, level, x), level, InsertAt(list, p, x))
  {
    var list' := InsertAt(list, p, x);
    InsertAscends(mem.keys, list, x, p);
    hide Ascending;
    forall i | 0 <= i < |list'|
      ensures list'[i] == x || list'[i] in list
    {
    }
  }

  lemma InsertAscends(keys: seq<int>, list: seq<nat>, x: nat, p: nat)
    requires x < |keys| && p <= |list| && (forall i :: 0 <= i < |list| ==> list[i] < |keys|) && Ascending(keys, list)
    requires forall i :: 0 <= i < p ==> keys[list[i]] < keys[x]
    requires forall i :: p <= i < |list| ==> keys[x] <= keys[list[i]] && keys[list[i]] != keys[x]
    ensures forall i :: 0 <= i <= |list| ==> InsertAt(list, p, x)[i] < |keys|
    ensures Ascending(keys, InsertAt(list, p, x))
  {
    var list' := InsertAt(list, p, x);
    forall i, j | 0 <= i < j < |list'|
      ensures keys[list'[i]] < keys[list'[j]]
    {
      var a, b := if i < p then i else i - 1, if j < p then j else j - 1;
      assert i != p ==> list'[i] == list[a];
      assert j != p ==> list'[j] == list[b];
    }
  }

  lemma InsertedLink(mem: Memory, level: nat, list: seq<nat>, x: nat, prev: nat, p: nat, q: nat)
    requires ChainOk(mem, level, list) && HEAD < x < |mem.keys| && level < |mem.next[x]| && x !in list
    requires p <= |list| && prev == At(list, p) && mem.next[x][level] == Succ(list, p) && q <= |list| + 1
    ensures prev < |mem.next| && level < |mem.next[prev]|
    ensures
      var list', mem' := InsertAt(list, p, x), WithLink(mem, prev, level, x);
      At(list', q) < |mem'.next| && level < |mem'.next[At(list', q)]| && mem'.next[At(list', q)][level] == Succ(list', q)
  {
    hide Members, InsertAt;
    MembersApart(mem, level, list);
    AtInserted(list, p, x, q);
    assert mem.next[At(list, p)][level] == Succ(list, p);
    if q != p && q != p + 1 {
      var was := if q <= p then q else q - 1;
      assert mem.next[At(list, was)][level] == Succ(list, was);
      AtApart(mem, level, list, p, was);
    }
    NotAt(list, x, p);
    NotAt(list, x, if q <= p then q else q - 1);
  }

  /** Positions and successors once a node is put in at `p`. */
  lemma AtInserted(list: seq<nat>, p: nat, x: nat, q: nat)
    requires p <= |list| && q <= |list| + 1
    ensures
      var list' := InsertAt(list, p, x);
      && |list'| == |list| + 1
      && At(list', q) == (if q <= p then At(list, q) else if q == p + 1 then x else At(list, q - 1))
      && Succ(list', q) == (if q < p then Succ(list, q) else if q == p then x else Succ(list, q - 1))
  {
  }

  lemma AtApart(mem: Memory, level: nat, list: seq<nat>, p: nat, q: nat)
    requires ChainOk(mem, level, list) && p <= |list| && q <= |list| && p != q
    ensures At(list, p) != At(list, q)
  {
    hide Members;
    MembersApart(mem, level, list);
  }

  lemma NotAt(list: seq<nat>, x: nat, p: nat)
    requires p <= |list| && x !in list && x != HEAD
    ensures At(list, p) != x
  {
  }

  lemma MembersApart(mem: Memory, level: nat, list: seq<nat>)
    requires ChainOk(mem, level, list)
    ensures forall i :: 0 <= i < |list| ==> 0 < list[i] < |mem.next| && level < |mem.next[list[i]]|
    ensures forall i, j :: 0 <= i < j < |list| ==> list[i] != list[j]
  {
  }

  lemma OtherLevelStays(mem: Memory, l: nat, list: seq<nat>, x: nat, level: nat, to: int)
    requires ChainOk(mem, l, list) && x < |mem.next| && level < |mem.next[x]| && l != level
    ensures ChainOk(WithLink(mem, x, level, to), l, list)
  {
    var mem' := WithLink(mem, x, level, to);
    forall p | 0 <= p <= |list|
      ensures mem'.next[At(list, p)][l] == Succ(list, p)
    {
      assert mem.next[At(list, p)][l] == Succ(list, p);
    }
  }

  // ---- Steps of the writer and of readers ----

  datatype Writer =
    | Resting
    | Inserting(node: nat, height: nat, prev: seq<nat>, level: nat, linked: bool)

  datatype Reader = Walking(target: int, x: nat, level: nat) | Arrived(target: int, result: int)

  /** The memory, the lists its links stand for, and everyone at work on it. */
  datatype State = State(mem: Memory, lists: seq<seq<nat>>, writer: Writer, readers: seq<Reader>)

  datatype Step =
    | BeginInsert(key: int, height: nat, prev: seq<nat>)
    | RaiseHeight
    | LinkOwn
    | Publish(p: nat)
    | StartRead(target: int)
    | Load(reader: nat)

  /** What the writer's own search finds on each level the node will have. */
  ghost predicate PrevsOk(mem: Memory, lists: seq<seq<nat>>, key: int, from: nat, height: nat, prev: seq<nat>)
    requires |lists| == MAX_HEIGHT && height <= MAX_HEIGHT
  {
    height <= |prev| && forall l :: from <= l < height ==> PrevOk(mem, lists[l], key, prev[l])
  }

  ghost predicate HasPosition(mem: Memory, list: seq<nat>, key: int, x: nat) {
    exists p :: LastBefore(mem, list, key, x, p)
  }

  lemma Positioned(mem: Memory, list: seq<nat>, key: int, x: nat, p: nat)
    requires LastBefore(mem, list, key, x, p)
    ensures HasPosition(mem, list, key, x)
  {
  }

  ghost predicate PrevOk(mem: Memory, list: seq<nat>, key: int, x: nat) {
    && HasPosition(mem, list, key, x)
    && forall y :: y in list && y < |mem.keys| ==> mem.keys[y] != key
  }

  lemma PrevStays(mem: Memory, mem': Memory, list: seq<nat>, key: int, x: nat)
    requires PrevOk(mem, list, key, x) && mem.keys <= mem'.keys
    ensures PrevOk(mem', list, key, x)
  {
    var p :| LastBefore(mem, list, key, x, p);
    assert LastBefore(mem', list, key, x, p);
    forall y | y in list
      ensures y < |mem.keys|
    {
      var i :| 0 <= i < |list| && list[i] == y;
    }
  }

  ghost predicate Next(s: State, step: Step, s': State)
    requires Linked(s.mem, s.lists)
  {
    match step
    case BeginInsert(key, height, prev) =>
      && s.writer == Resting && 1 <= height <= MAX_HEIGHT && PrevsOk(s.mem, s.lists, key, 0, height, prev)
      && s' == s.(mem := WithNode(s.mem, key, height), writer := Inserting(|s.mem.keys|, height, prev, 0, false))
    case RaiseHeight =>
      && s.writer.Inserting? && s.mem.maxHeight < s.writer.height <= MAX_HEIGHT
      && s' == s.(mem := s.mem.(maxHeight := s.writer.height))
    case LinkOwn =>
      && s.writer.Inserting? && !s.writer.linked && s.writer.height <= s.mem.maxHeight
      && var w := s.writer;
         && w.level < |w.prev| && w.prev[w.level] < |s.mem.next| && w.level < |s.mem.next[w.prev[w.level]]|
         && w.node < |s.mem.next| && w.level < |s.mem.next[w.node]|
         && s' == s.(mem := WithLink(s.mem, w.node, w.level, s.mem.next[w.prev[w.level]][w.level]),
                     writer := w.(linked := true))
    case Publish(p) =>
      && s.writer.Inserting? && s.writer.linked
      && var w := s.writer;
         && w.level < |w.prev| && w.level < MAX_HEIGHT && w.prev[w.level] < |s.mem.next| && w.level < |s.mem.next[w.prev[w.level]]|
         && p <= |s.lists[w.level]| && At(s.lists[w.level], p) == w.prev[w.level]
         && s' == s.(mem := WithLink(s.mem, w.prev[w.level], w.level, w.node),
                     lists := s.lists[w.level := InsertAt(s.lists[w.level], p, w.node)],
                     writer := if w.level + 1 < w.height then w.(level := w.level + 1, linked := false) else Resting)
    case StartRead(target) =>
      s' == s.(readers := s.readers + [Walking(target, HEAD, s.mem.maxHeight - 1)])
    case Load(i) =>
      && i < |s.readers| && s.readers[i].Walking?
      && s.readers[i].x < |s.mem.next| && s.readers[i].level < |s.mem.next[s.readers[i].x]|
      && s' == s.(readers := s.readers[i := Loaded(s.mem, s.readers[i])])
  }

  /** One load of the search: go on along the level, go down, or be done. */
  function Loaded(mem: Memory, r: Reader): Reader
    requires r.Walking? && r.x < |mem.next| && r.level < |mem.next[r.x]|
  {
    var n := mem.next[r.x][r.level];
    if KeyIsAfterNode(mem.keys, r.target, n) then Walking(r.target, n, r.level)
    else if r.level == 0 then Arrived(r.target, n)
    else Walking(r.target, r.x, r.level - 1)
  }

  ghost predicate WriterOk(s: State)
    requires Linked(s.mem, s.lists)
  {
    var w := s.writer;
    w.Inserting? ==>
      && w.level < w.height <= MAX_HEIGHT && HEAD < w.node < |s.mem.keys| && |s.mem.next[w.node]| == w.height
      && PrevsOk(s.mem, s.lists, s.mem.keys[w.node], w.level, w.height, w.prev)
      && (forall l :: 0 <= l < w.level ==> w.node in s.lists[l])
      && (forall l :: w.level <= l < MAX_HEIGHT ==> w.node !in s.lists[l])
      && (w.linked ==>
            && w.prev[w.level] < |s.mem.next| && w.level < |s.mem.next[w.prev[w.level]]|
            && s.mem.next[w.node][w.level] == s.mem.next[w.prev[w.level]][w.level])
  }

  ghost predicate ReaderOk(mem: Memory, lists: seq<seq<nat>>, r: Reader)
    requires |lists| == MAX_HEIGHT
  {
    r.Walking? ==> r.level < MAX_HEIGHT && Before(mem, lists[r.level], r.target, r.x)
  }

  ghost predicate Inv(s: State) {
    && Linked(s.mem, s.lists) && WriterOk(s)
    && forall i :: 0 <= i < |s.readers| ==> ReaderOk(s.mem, s.lists, s.readers[i])
  }

  /** Memory and lists only grow, so whoever is before a target stays before it. */
  ghost predicate Grows(s: State, s': State) {
    && s.mem.keys <= s'.mem.keys && |s.lists| == |s'.lists| == MAX_HEIGHT
    && forall l, x :: 0 <= l < MAX_HEIGHT && x in s.lists[l] ==> x in s'.lists[l]
  }

  lemma ReaderStays(s: State, s': State, r: Reader)
    requires Grows(s, s') && ReaderOk(s.mem, s.lists, r)
    ensures ReaderOk(s'.mem, s'.lists, r)
  {
  }

  lemma BeginKeepsInv(s: State, key: int, height: nat, prev: seq<nat>, s': State)
    requires Inv(s) && Next(s, BeginInsert(key, height, prev), s')
    ensures Inv(s') && Grows(s, s')
  {
    hide Before;
    NodeKeepsLinks(s.mem, s.lists, key, height);
    var n := |s.mem.keys|;
    forall l | 0 <= l < MAX_HEIGHT
      ensures n !in s.lists[l]
    {
      assert ChainOk(s.mem, l, s.lists[l]);
    }
    forall l | 0 <= l < height
      ensures PrevOk(s'.mem, s.lists[l], key, prev[l])
    {
      PrevStays(s.mem, s'.mem, s.lists[l], key, prev[l]);
    }
    forall i | 0 <= i < |s.readers|
      ensures ReaderOk(s'.mem, s'.lists, s.readers[i])
    {
      ReaderStays(s, s', s.readers[i]);
    }
  }

  lemma ReadersStay(s: State, s': State)
    requires Grows(s, s') && s'.readers == s.readers
    requires forall i :: 0 <= i < |s.readers| ==> ReaderOk(s.mem, s.lists, s.readers[i])
    ensures forall i :: 0 <= i < |s'.readers| ==> ReaderOk(s'.mem, s'.lists, s'.readers[i])
  {
    forall i | 0 <= i < |s.readers|
      ensures ReaderOk(s'.mem, s'.lists, s.readers[i])
    {
      ReaderStays(s, s', s.readers[i]);
    }
  }

  lemma RaiseKeepsInv(s: State, s': State)
    requires Inv(s) && Next(s, RaiseHeight, s')
    ensures Inv(s') && Grows(s, s')
  {
    hide Before, Members;
    forall l | 0 <= l < MAX_HEIGHT
      ensures ChainOk(s'.mem, l, s'.lists[l])
    {
      assert ChainOk(s.mem, l, s.lists[l]);
      SameChain(s.mem, s'.mem, l, s.lists[l]);
    }
    var w := s.writer;
    forall l | w.level <= l < w.height
      ensures PrevOk(s'.mem, s.lists[l], s.mem.keys[w.node], w.prev[l])
    {
      PrevStays(s.mem, s'.mem, s.lists[l], s.mem.keys[w.node], w.prev[l]);
    }
    ReadersStay(s, s');
  }

  lemma SameChain(mem: Memory, mem': Memory, level: nat, list: seq<nat>)
    requires ChainOk(mem, level, list) && mem'.keys == mem.keys && mem'.next == mem.next
    ensures ChainOk(mem', level, list)
  {
    forall p | 0 <= p <= |list|
      ensures mem'.next[At(list, p)][level] == Succ(list, p)
    {
      assert mem.next[At(list, p)][level] == Succ(list, p);
    }
  }

  lemma LinkOwnKeepsInv(s: State, s': State)
    requires Inv(s) && Next(s, LinkOwn, s')
    ensures Inv(s') && Grows(s, s')
  {
    hide Before, Linked;
    var w := s.writer;
    LinkedParts(s);
    OwnLinkKeepsLinks(s.mem, s.lists, w.node, w.level, s.mem.next[w.prev[w.level]][w.level]);
    forall l | w.level <= l < w.height
      ensures PrevOk(s'.mem, s.lists[l], s.mem.keys[w.node], w.prev[l])
    {
      PrevStays(s.mem, s'.mem, s.lists[l], s.mem.keys[w.node], w.prev[l]);
    }
    PrevIsOther(s, w.level);
    ReadersStay(s, s');
  }

  lemma LinkedParts(s: State)
    requires Linked(s.mem, s.lists)
    ensures |s.lists| == MAX_HEIGHT && |s.mem.next| == |s.mem.keys| > 0 && 1 <= s.mem.maxHeight <= MAX_HEIGHT
    ensures forall l :: 0 <= l < MAX_HEIGHT ==> ChainOk(s.mem, l, s.lists[l])
  {
  }

  /** The predecessor on a level still to be published is not the new node itself. */
  lemma PrevIsOther(s: State, l: nat)
    requires Inv(s) && s.writer.Inserting? && s.writer.level <= l < s.writer.height
    ensures s.writer.prev[l] != s.writer.node
  {
    var w := s.writer;
    assert PrevOk(s.mem, s.lists[l], s.mem.keys[w.node], w.prev[l]);
    var p :| LastBefore(s.mem, s.lists[l], s.mem.keys[w.node], w.prev[l], p);
    if p > 0 {
      assert s.lists[l][p - 1] in s.lists[l];
    }
  }

  lemma PublishKeepsInv(s: State, p: nat, s': State)
    requires Inv(s) && Next(s, Publish(p), s')
    ensures Inv(s') && Grows(s, s')
  {
    hide Before;
    var w := s.writer;
    var list := s.lists[w.level];
    PublishedChain(s, p, s');
    forall l, x | 0 <= l < MAX_HEIGHT
      ensures x in s'.lists[l] <==> x in s.lists[l] || (l == w.level && x == w.node)
    {
      InsertHolds(list, p, w.node, x);
    }
    forall l | w.level < l < w.height
      ensures PrevOk(s'.mem, s'.lists[l], s.mem.keys[w.node], w.prev[l])
    {
      assert PrevOk(s.mem, s.lists[l], s.mem.keys[w.node], w.prev[l]);
      PrevStays(s.mem, s'.mem, s.lists[l], s.mem.keys[w.node], w.prev[l]);
    }
    ReadersStay(s, s');
  }

  lemma InsertHolds(list: seq<nat>, p: nat, x: nat, y: nat)
    requires p <= |list|
    ensures y in InsertAt(list, p, x) <==> y in list || y == x
  {
    assert list == list[..p] + list[p..];
  }

  lemma PublishedChain(s: State, p: nat, s': State)
    requires Inv(s) && Next(s, Publish(p), s')
    ensures forall l :: 0 <= l < MAX_HEIGHT ==> ChainOk(s'.mem, l, s'.lists[l])
  {
    hide Before, ChainOk;
    LinkedParts(s);
    var w := s.writer;
    var list := s.lists[w.level];
    PositionIs(s, p);
    PublishLinks(s.mem, w.level, list, w.node, w.prev[w.level], p);
    forall l | 0 <= l < MAX_HEIGHT && l != w.level
      ensures ChainOk(s'.mem, l, s'.lists[l])
    {
      OtherLevelStays(s.mem, l, s.lists[l], w.prev[w.level], w.level, w.node);
    }
  }

  /** The predecessor has one position, and the node's own link leads where that position leads. */
  lemma PositionIs(s: State, p: nat)
    requires Inv(s) && s.writer.Inserting? && s.writer.linked
    requires p <= |s.lists[s.writer.level]| && At(s.lists[s.writer.level], p) == s.writer.prev[s.writer.level]
    ensures LastBefore(s.mem, s.lists[s.writer.level], s.mem.keys[s.writer.node], s.writer.prev[s.writer.level], p)
    ensures s.mem.next[s.writer.node][s.writer.level] == Succ(s.lists[s.writer.level], p)
    ensures forall y :: y in s.lists[s.writer.level] ==> y < |s.mem.keys| && s.mem.keys[y] != s.mem.keys[s.writer.node]
  {
    var w := s.writer;
    var list := s.lists[w.level];
    assert PrevOk(s.mem, list, s.mem.keys[w.node], w.prev[w.level]);
    var q :| LastBefore(s.mem, list, s.mem.keys[w.node], w.prev[w.level], q);
    assert ChainOk(s.mem, w.level, list);
    MembersApart(s.mem, w.level, list);
    assert q == p;
    assert s.mem.next[At(list, p)][w.level] == Succ(list, p);
  }

  lemma LoadKeepsInv(s: State, i: nat, s': State)
    requires Inv(s) && Next(s, Load(i), s')
    ensures Inv(s') && Grows(s, s')
  {
    var r := s.readers[i];
    assert ReaderOk(s.mem, s.lists, r) && ChainOk(s.mem, r.level, s.lists[r.level]);
    OneLoad(s.mem, r.level, s.lists[r.level], r.target, r.x);
  }

  lemma StartReadKeepsInv(s: State, target: int, s': State)
    requires Inv(s) && Next(s, StartRead(target), s')
    ensures Inv(s') && Grows(s, s')
  {
  }

  /**
   After every single store and load: each level is a sorted list through its links, each
   level is part of the level below, and every reader stands before its target.
   */
  lemma NextKeepsInv(s: State, step: Step, s': State)
    requires Inv(s) && Next(s, step, s')
    ensures Inv(s') && Grows(s, s')
  {
    match step
    case BeginInsert(key, height, prev) => BeginKeepsInv(s, key, height, prev, s');
    case RaiseHeight => RaiseKeepsInv(s, s');
    case LinkOwn => LinkOwnKeepsInv(s, s');
    case Publish(p) => PublishKeepsInv(s, p, s');
    case StartRead(target) => StartReadKeepsInv(s, target, s');
    case Load(i) => LoadKeepsInv(s, i, s');
  }

  // ---- Whole runs ----

  function Start(): State {
    State(Memory([0], [[NIL, NIL, NIL, NIL, NIL, NIL, NIL, NIL, NIL, NIL, NIL, NIL]], 1), seq(MAX_HEIGHT, _ => []), Resting, [])
  }

  lemma StartOk()
    ensures Inv(Start())
  {
  }

  /** What a search returns is the answer at the moment of its last load. */
  lemma SearchIsAtomic(s: State, i: nat, s': State)
    requires Inv(s) && Next(s, Load(i), s') && s'.readers[i].Arrived?
    ensures s'.readers[i].target == s.readers[i].target
    ensures FirstFrom(s.mem, s.lists[0], s.readers[i].target, s'.readers[i].result)
  {
    var r := s.readers[i];
    assert ReaderOk(s.mem, s.lists, r) && ChainOk(s.mem, r.level, s.lists[r.level]);
    OneLoad(s.mem, r.level, s.lists[r.level], r.target, r.x);
  }

  ghost predicate Execution(states: seq<State>, steps: seq<Step>) {
    && |states| == |steps| + 1 && states[0] == Start()
    && forall i :: 0 <= i < |steps| ==> Linked(states[i].mem, states[i].lists) && Next(states[i], steps[i], states[i + 1])
  }

  lemma {:induction false} RunKeepsInv(states: seq<State>, steps: seq<Step>, n: nat)
    requires Execution(states, steps) && n < |states|
    ensures Inv(states[n])
  {
    hide Inv, Next;
    StartOk();
    if n > 0 {
      RunKeepsInv(states, steps, n - 1);
      NextKeepsInv(states[n - 1], steps[n - 1], states[n]);
    }
  }

  lemma {:induction false} RunGrows(states: seq<State>, steps: seq<Step>, m: nat, n: nat)
    requires Execution(states, steps) && m <= n < |states|
    ensures Grows(states[m], states[n])
    decreases n
  {
    hide Next;
    RunKeepsInv(states, steps, m);
    if m < n {
      RunGrows(states, steps, m, n - 1);
      RunKeepsInv(states, steps, n - 1);
      NextKeepsInv(states[n - 1], steps[n - 1], states[n]);
    }
  }

  /**
   In every run, whatever the writer does meanwhile: a search never steps over a node that was
   in the list at any moment before its last load, and what it returns is in the list.
   */
  lemma NothingMissed(states: seq<State>, steps: seq<Step>, m: nat, n: nat, i: nat, x: nat)
    requires Execution(states, steps) && m <= n < |steps| && steps[n] == Load(i)
    requires i < |states[n + 1].readers| && states[n + 1].readers[i].Arrived? && states[n].lists != []
    requires |states[m].lists| > 0 && x in states[m].lists[0] && x < |states[m].mem.keys|
    ensures
      var target, r := states[n + 1].readers[i].target, states[n + 1].readers[i].result;
      && (r != NIL ==> 0 <= r < |states[n].mem.keys| && r as nat in states[n].lists[0] && target <= states[n].mem.keys[r])
      && (target <= states[m].mem.keys[x] ==> r != NIL && states[n].mem.keys[r] <= states[m].mem.keys[x])
  {
    RunKeepsInv(states, steps, n);
    RunGrows(states, steps, m, n);
    SearchIsAtomic(states[n], i, states[n + 1]);
    assert states[n].mem.keys[x] == states[m].mem.keys[x];
  }

  // ---- The list as its one writer uses it ----

  class SkipList {
    var keys: seq<int>
    var next: seq<seq<int>>
    var maxHeight: nat
    ghost var lists: seq<seq<nat>>

    ghost function View(): Memory
      reads this
    {
      Memory(keys, next, maxHeight)
    }

    /** Levels above the height in use are empty. */
    ghost predicate Valid()
      reads this
    {
      Linked(View(), lists) && forall l :: maxHeight <= l < MAX_HEIGHT ==> lists[l] == []
    }

    constructor ()
      ensures Valid() && lists[0] == []
    {
      keys, next, maxHeight := [0], [[NIL, NIL, NIL, NIL, NIL, NIL, NIL, NIL, NIL, NIL, NIL, NIL]], 1;
      lists := seq(MAX_HEIGHT, _ => []);
    }

    /** The first node at or after the key, and the last node before it on every level in use. */
    method FindGreaterOrEqual(key: int) returns (r: int, prev: seq<nat>)
      requires Valid()
      ensures FirstFrom(View(), lists[0], key, r) && PrevsFound(View(), lists, key, prev)
    {
      ghost var mem, ls := View(), lists;
      Sizes(mem, ls);
      hide Linked, FirstFrom, Searched, HasPosition, PrevsFound, SkipList.Valid, Heads, Noted, KeyIsAfterNode;
      prev := Heads();
      var x: nat := HEAD;
      var level: nat := maxHeight - 1;
      ghost var p: nat := 0;
      SearchStart(mem, ls, key);
      while true
        invariant 0 <= level < maxHeight && |prev| == MAX_HEIGHT && p <= |ls[level]|
        invariant Searched(mem, ls, key, level, x, p, prev)
        decreases level, |ls[level]| - p
      {
        ghost var q := SearchTurn(mem, ls, key, level, x, p, prev);
        var n := next[x][level];
        if KeyIsAfterNode(keys, key, n) {
          x, p := n, p + 1;
        } else {
          prev := Noted(prev, level, x);
          if level == 0 {
            return n, prev;
          }
          level, p := level - 1, q;
        }
      }
    }

    /** The last node before the key, or the head. */
    method FindLessThan(key: int) returns (x: nat)
      requires Valid()
      ensures HasPosition(View(), lists[0], key, x)
    {
      Sizes(View(), lists);
      hide Linked, Walked, HasPosition;
      var level: nat := maxHeight - 1;
      x := HEAD;
      ghost var p: nat := 0;
      WalkStart(View(), lists, key, level);
      while true
        invariant 0 <= level < maxHeight && p <= |lists[level]| && Walked(View(), lists, key, level, x, p)
        decreases level, |lists[level]| - p
      {
        WalkStep(View(), lists, key, level, x, p);
        var n := next[x][level];
        if !KeyIsAfterNode(keys, key, n) {
          if level == 0 {
            return;
          }
          p := WalkDown(View(), lists, key, level, x, p);
          level := level - 1;
        } else {
          x, p := n, p + 1;
        }
      }
    }

    method FindLast() returns (x: nat)
      requires Valid()
      ensures x == At(lists[0], |lists[0]|)
    {
      Sizes(View(), lists);
      hide Linked, At;
      var level: nat := maxHeight - 1;
      x := HEAD;
      ghost var p: nat := 0;
      AtStart(lists[level]);
      while true
        invariant 0 <= level < maxHeight && p <= |lists[level]| && x == At(lists[level], p)
        decreases level, |lists[level]| - p
      {
        LinkAt(View(), lists, level, p);
        var n := next[x][level];
        if n == NIL {
          if level == 0 {
            return;
          }
          p := LowerAt(View(), lists, level, p);
          level := level - 1;
        } else {
          x, p := n, p + 1;
        }
      }
    }

    /** Splice a node of the given height in, lowest level first. */
    method Insert(key: int, height: nat)
      requires Valid() && 1 <= height <= MAX_HEIGHT
      requires forall x :: x in lists[0] && x < |keys| ==> keys[x] != key
      modifies this
      ensures Valid() && keys == old(keys) + [key]
      ensures forall l :: 0 <= l < height ==> Spliced(old(View()), old(lists)[l], key, |old(keys)|, lists[l])
      ensures forall l :: height <= l < MAX_HEIGHT ==> lists[l] == old(lists)[l]
    {
      Sizes(View(), lists);
      hide Linked, Inv, Spliced;
      ghost var mem, was := View(), lists;
      var node := |keys|;
      ghost var s;
      var prev;
      prev, s := StartInsert(key, height);
      for i := 0 to height
        invariant Inv(s) && View() == s.mem && lists == s.lists && SplicedUpTo(mem, was, s, key, node, height, prev, i)
      {
        s := StoreLevel(prev, node, height, i, s, key, mem, was);
      }
      Rested(s);
    }

    /** Search, raise the height if need be, and allocate the node. */
    method StartInsert(key: int, height: nat) returns (prev: seq<nat>, ghost s: State)
      requires Valid() && 1 <= height <= MAX_HEIGHT
      requires forall x :: x in lists[0] && x < |keys| ==> keys[x] != key
      modifies this`keys, this`next, this`maxHeight
      ensures Inv(s) && View() == s.mem && lists == s.lists && s.readers == []
      ensures s.writer == Inserting(|old(keys)|, height, prev, 0, false) && keys == old(keys) + [key]
      ensures maxHeight == if height > old(maxHeight) then height else old(maxHeight)
      ensures |prev| == MAX_HEIGHT
    {
      Sizes(View(), lists);
      hide Before, FirstFrom, LastBefore, HasPosition, ChainOk, Linked, PrevsOk;
      ghost var s0 := State(View(), lists, Resting, []);
      var x;
      x, prev := FindGreaterOrEqual(key);
      SearchGivesPrevs(View(), lists, key, height, prev);
      s := s0.(mem := WithNode(View(), key, height), writer := Inserting(|keys|, height, prev, 0, false));
      RestingOk(s0);
      BeginKeepsInv(s0, key, height, prev, s);
      keys, next := keys + [key], next + [seq(height, _ => NIL)];
      if height > maxHeight {
        ghost var raised := s.(mem := s.mem.(maxHeight := height));
        RaiseKeepsInv(s, raised);
        maxHeight, s := height, raised;
      }
    }

    /** The two stores of one level: the node's own link, then the one that publishes it. */
    method StoreLinks(prev: seq<nat>, node: nat, height: nat, i: nat, ghost s: State) returns (ghost s': State, ghost p: nat)
      requires Inv(s) && View() == s.mem && lists == s.lists && s.writer == Inserting(node, height, prev, i, false)
      requires s.readers == [] && height <= maxHeight
      modifies this`next, this`lists
      ensures Inv(s') && View() == s'.mem && lists == s'.lists && s'.readers == []
      ensures s'.writer == if i + 1 < height then Inserting(node, height, prev, i + 1, false) else Resting
      ensures i < |s.lists| && i < |prev| && p <= |s.lists[i]|
      ensures LastBefore(s.mem, s.lists[i], s.mem.keys[node], prev[i], p)
      ensures lists == s.lists[i := InsertAt(s.lists[i], p, node)]
    {
      hide Before, FirstFrom, LastBefore, ChainOk, Linked, Inv, InsertAt, At;
      s', p := TwoStores(s);
      next := next[node := next[node][i := next[prev[i]][i]]];
      next := next[prev[i] := next[prev[i]][i := node]];
      lists := lists[i := InsertAt(lists[i], p, node)];
    }

    method StoreLevel(prev: seq<nat>, node: nat, height: nat, i: nat, ghost s: State, ghost key: int, ghost mem: Memory,
                      ghost was: seq<seq<nat>>)
      returns (ghost s': State)
      requires Inv(s) && View() == s.mem && lists == s.lists && SplicedUpTo(mem, was, s, key, node, height, prev, i)
      requires i < height && Linked(mem, was)
      modifies this`next, this`lists
      ensures Inv(s') && View() == s'.mem && lists == s'.lists && SplicedUpTo(mem, was, s', key, node, height, prev, i + 1)
    {
      InRange(mem, was, i);
      hide Linked, Inv, LastBefore, Spliced, InsertAt;
      ghost var p;
      s', p := StoreLinks(prev, node, height, i, s);
      SpliceOn(mem, was, s, s', key, node, height, prev, i, p);
    }

    method Contains(key: int) returns (found: bool)
      requires Valid()
      ensures found <==> exists x :: x in lists[0] && x < |keys| && keys[x] == key
    {
      var r, prev := FindGreaterOrEqual(key);
      found := r != NIL && keys[r] == key;
      if found {
        assert r as nat in lists[0];
      }
    }
  }

  /** A search on its way: at position `p` of a level, with the predecessors above it noted. */
  ghost predicate Searched(mem: Memory, lists: seq<seq<nat>>, key: int, level: nat, x: nat, p: nat, prev: seq<nat>) {
    && |lists| == |prev| == MAX_HEIGHT && level < mem.maxHeight <= MAX_HEIGHT
    && p <= |lists[level]| && x == At(lists[level], p) && AllBefore(mem, lists[level], key, p)
    && (forall l :: level < l < mem.maxHeight ==> HasPosition(mem, lists[l], key, prev[l]))
    && (forall l :: mem.maxHeight <= l < MAX_HEIGHT ==> prev[l] == HEAD)
  }

  /** The last node before the key on each level in use, the head above. */
  ghost predicate PrevsFound(mem: Memory, lists: seq<seq<nat>>, key: int, prev: seq<nat>) {
    && |lists| == |prev| == MAX_HEIGHT && mem.maxHeight <= MAX_HEIGHT
    && (forall l :: 0 <= l < mem.maxHeight ==> HasPosition(mem, lists[l], key, prev[l]))
    && (forall l :: mem.maxHeight <= l < MAX_HEIGHT ==> prev[l] == HEAD)
  }

  /** The last node before the key on one more level. */
  function Noted(prev: seq<nat>, level: nat, x: nat): (r: seq<nat>)
    requires level < |prev|
    ensures |r| == |prev|
  {
    prev[level := x]
  }

  function Heads(): seq<nat> {
    seq(MAX_HEIGHT, _ => HEAD)
  }

  lemma SearchStart(mem: Memory, lists: seq<seq<nat>>, key: int)
    requires Linked(mem, lists)
    ensures |Heads()| == MAX_HEIGHT && Searched(mem, lists, key, mem.maxHeight - 1, HEAD, 0, Heads())
  {
  }

  /** One link further, or the end of the search on this level. */
  lemma SearchStep(mem: Memory, lists: seq<seq<nat>>, key: int, level: nat, x: nat, p: nat, prev: seq<nat>)
    requires Linked(mem, lists) && Searched(mem, lists, key, level, x, p, prev)
    ensures x < |mem.next| && level < |mem.next[x]|
    ensures
      var n := mem.next[x][level];
      if KeyIsAfterNode(mem.keys, key, n)
      then n >= 0 && p < |lists[level]| && Searched(mem, lists, key, level, n, p + 1, prev)
      else
        && HasPosition(mem, lists[level], key, x) && FirstFrom(mem, lists[level], key, n)
        && (level == 0 ==> PrevsFound(mem, lists, key, Noted(prev, level, x)))
  {
    StepAt(mem, lists, level, p, key);
    hide Linked, FirstFrom, AllBefore;
    var n := mem.next[x][level];
    if !KeyIsAfterNode(mem.keys, key, n) {
      Positioned(mem, lists[level], key, x, p);
    }
  }

  lemma SearchDown(mem: Memory, lists: seq<seq<nat>>, key: int, level: nat, x: nat, p: nat, prev: seq<nat>) returns (q: nat)
    requires Linked(mem, lists) && 0 < level < MAX_HEIGHT && |prev| == MAX_HEIGHT
    requires Searched(mem, lists, key, level, x, p, prev) && HasPosition(mem, lists[level], key, x)
    ensures q <= |lists[level - 1]| && Searched(mem, lists, key, level - 1, x, q, Noted(prev, level, x))
  {
    q := LowerPosition(mem, lists, level, p, key);
    hide Linked, AllBefore, HasPosition;
  }

  /** One turn of the search: on along the level, done, or down a level. */
  lemma SearchTurn(mem: Memory, lists: seq<seq<nat>>, key: int, level: nat, x: nat, p: nat, prev: seq<nat>) returns (q: nat)
    requires Linked(mem, lists) && |lists| == MAX_HEIGHT && |prev| == MAX_HEIGHT && level < MAX_HEIGHT
    requires Searched(mem, lists, key, level, x, p, prev)
    ensures x < |mem.next| && level < |mem.next[x]|
    ensures
      var n := mem.next[x][level];
      if KeyIsAfterNode(mem.keys, key, n)
      then n >= 0 && p < |lists[level]| && Searched(mem, lists, key, level, n, p + 1, prev)
      else if level == 0 then FirstFrom(mem, lists[0], key, n) && PrevsFound(mem, lists, key, Noted(prev, level, x))
      else q <= |lists[level - 1]| && Searched(mem, lists, key, level - 1, x, q, Noted(prev, level, x))
  {
    hide Linked, FirstFrom, Searched, HasPosition, PrevsFound, Noted, KeyIsAfterNode;
    SearchStep(mem, lists, key, level, x, p, prev);
    q := 0;
    if level > 0 && !KeyIsAfterNode(mem.keys, key, mem.next[x][level]) {
      q := SearchDown(mem, lists, key, level, x, p, prev);
    }
  }

  /** A walk on its way: at position `p` of a level, all before the key. */
  ghost predicate Walked(mem: Memory, lists: seq<seq<nat>>, key: int, level: nat, x: nat, p: nat) {
    level < |lists| && p <= |lists[level]| && x == At(lists[level], p) && AllBefore(mem, lists[level], key, p)
  }

  lemma WalkStart(mem: Memory, lists: seq<seq<nat>>, key: int, level: nat)
    requires level < |lists|
    ensures Walked(mem, lists, key, level, HEAD, 0)
  {
  }

  lemma WalkStep(mem: Memory, lists: seq<seq<nat>>, key: int, level: nat, x: nat, p: nat)
    requires Linked(mem, lists) && level < MAX_HEIGHT && Walked(mem, lists, key, level, x, p)
    ensures x < |mem.next| && level < |mem.next[x]|
    ensures
      var n := mem.next[x][level];
      if KeyIsAfterNode(mem.keys, key, n)
      then p < |lists[level]| && Walked(mem, lists, key, level, n, p + 1)
      else HasPosition(mem, lists[level], key, x)
  {
    StepAt(mem, lists, level, p, key);
    hide Linked, FirstFrom, AllBefore;
    var n := mem.next[x][level];
    if !KeyIsAfterNode(mem.keys, key, n) {
      Positioned(mem, lists[level], key, x, p);
    }
  }

  lemma WalkDown(mem: Memory, lists: seq<seq<nat>>, key: int, level: nat, x: nat, p: nat) returns (q: nat)
    requires Linked(mem, lists) && 0 < level < MAX_HEIGHT && Walked(mem, lists, key, level, x, p)
    ensures q <= |lists[level - 1]| && Walked(mem, lists, key, level - 1, x, q)
  {
    q := LowerPosition(mem, lists, level, p, key);
  }

  /** A list with the node put in after the last node before its key. */
  ghost predicate Spliced(mem: Memory, list: seq<nat>, key: int, node: nat, list': seq<nat>) {
    exists p: nat :: p <= |list| && LastBefore(mem, list, key, At(list, p), p) && list' == InsertAt(list, p, node)
  }

  /** The node is on the first `i` levels and the writer is about to do the next. */
  ghost predicate SplicedUpTo(mem: Memory, was: seq<seq<nat>>, s: State, key: int, node: nat, height: nat,
                              prev: seq<nat>, i: nat)
  {
    && |s.lists| == |was| == |prev| == MAX_HEIGHT && i <= height <= s.mem.maxHeight <= MAX_HEIGHT
    && s.readers == [] && s.writer == (if i < height then Inserting(node, height, prev, i, false) else Resting)
    && s.mem.keys == mem.keys + [key] && node == |mem.keys| && mem.maxHeight <= s.mem.maxHeight
    && (forall l :: 0 <= l < i ==> Spliced(mem, was[l], key, node, s.lists[l]))
    && (forall l :: i <= l < MAX_HEIGHT ==> s.lists[l] == was[l])
  }

  lemma SplicedHere(mem: Memory, mem': Memory, list: seq<nat>, key: int, node: nat, x: nat, p: nat)
    requires p <= |list| && mem.keys <= mem'.keys && LastBefore(mem', list, key, x, p)
    requires forall i :: 0 <= i < |list| ==> list[i] < |mem.keys|
    ensures Spliced(mem, list, key, node, InsertAt(list, p, node))
  {
    assert LastBefore(mem, list, key, At(list, p), p);
  }

  lemma SpliceOn(mem: Memory, was: seq<seq<nat>>, s: State, s': State, key: int, node: nat, height: nat, prev: seq<nat>,
                 i: nat, p: nat)
    requires SplicedUpTo(mem, was, s, key, node, height, prev, i) && i < height
    requires forall k :: 0 <= k < |was[i]| ==> was[i][k] < |mem.keys|
    requires s'.mem.keys == s.mem.keys && s'.mem.maxHeight == s.mem.maxHeight && s'.readers == []
    requires s'.writer == if i + 1 < height then Inserting(node, height, prev, i + 1, false) else Resting
    requires p <= |was[i]| && LastBefore(s.mem, was[i], key, prev[i], p)
    requires s'.lists == s.lists[i := InsertAt(was[i], p, node)]
    ensures SplicedUpTo(mem, was, s', key, node, height, prev, i + 1)
  {
    hide LastBefore, Spliced, InsertAt;
    SplicedHere(mem, s.mem, was[i], key, node, prev[i], p);
  }

  /** What the state says of the level to be published next. */
  lemma LevelParts(s: State)
    requires Inv(s) && s.writer.Inserting?
    ensures Linked(s.mem, s.lists) && s.writer.level < s.writer.height <= MAX_HEIGHT && s.writer.height <= |s.writer.prev|
    ensures |s.mem.next| == |s.mem.keys| && s.writer.node < |s.mem.next| && |s.mem.next[s.writer.node]| == s.writer.height
    ensures s.writer.prev[s.writer.level] < |s.mem.next|
    ensures s.writer.level < |s.mem.next[s.writer.prev[s.writer.level]]|
    ensures |s.lists| == MAX_HEIGHT
  {
    var w := s.writer;
    assert PrevOk(s.mem, s.lists[w.level], s.mem.keys[w.node], w.prev[w.level]);
    var p :| LastBefore(s.mem, s.lists[w.level], s.mem.keys[w.node], w.prev[w.level], p);
    assert ChainOk(s.mem, w.level, s.lists[w.level]);
    assert s.mem.next[At(s.lists[w.level], p)][w.level] == Succ(s.lists[w.level], p);
  }

  lemma PrevPosition(s: State, l: nat) returns (p: nat)
    requires Inv(s) && s.writer.Inserting? && l == s.writer.level && |s.lists| == MAX_HEIGHT
    requires l < s.writer.height <= MAX_HEIGHT && s.writer.height <= |s.writer.prev| && s.writer.node < |s.mem.keys|
    ensures p <= |s.lists[l]| && At(s.lists[l], p) == s.writer.prev[l]
    ensures LastBefore(s.mem, s.lists[l], s.mem.keys[s.writer.node], s.writer.prev[l], p)
  {
    assert PrevOk(s.mem, s.lists[l], s.mem.keys[s.writer.node], s.writer.prev[l]);
    p :| LastBefore(s.mem, s.lists[l], s.mem.keys[s.writer.node], s.writer.prev[l], p);
  }

  /** The node's own link and the one that publishes it, as two steps of the writer. */
  lemma TwoStores(s: State) returns (s': State, p: nat)
    requires Inv(s) && s.writer.Inserting? && !s.writer.linked && s.readers == [] && s.writer.height <= s.mem.maxHeight
    ensures
      var w := s.writer;
      && w.level < w.height <= MAX_HEIGHT && w.height <= |w.prev| && |s.lists| == MAX_HEIGHT
      && w.node < |s.mem.next| && w.level < |s.mem.next[w.node]|
      && w.prev[w.level] < |s.mem.next| && w.level < |s.mem.next[w.prev[w.level]]|
      && w.node < |s.mem.keys| && p <= |s.lists[w.level]|
      && LastBefore(s.mem, s.lists[w.level], s.mem.keys[w.node], w.prev[w.level], p)
    ensures
      var w := s.writer;
      var own := WithLink(s.mem, w.node, w.level, s.mem.next[w.prev[w.level]][w.level]);
      && w.prev[w.level] < |own.next| && w.level < |own.next[w.prev[w.level]]|
      && s' == State(WithLink(own, w.prev[w.level], w.level, w.node),
                     s.lists[w.level := InsertAt(s.lists[w.level], p, w.node)],
                     if w.level + 1 < w.height then w.(level := w.level + 1) else Resting, [])
    ensures Inv(s')
  {
    LevelParts(s);
    var w := s.writer;
    hide Before, FirstFrom, LastBefore, ChainOk, Linked, Inv, InsertAt, At;
    p := PrevPosition(s, w.level);
    var own := s.(mem := WithLink(s.mem, w.node, w.level, s.mem.next[w.prev[w.level]][w.level]),
                  writer := w.(linked := true));
    LinkOwnKeepsInv(s, own);
    LevelParts(own);
    s' := own.(mem := WithLink(own.mem, w.prev[w.level], w.level, w.node),
               lists := own.lists[w.level := InsertAt(own.lists[w.level], p, w.node)],
               writer := if w.level + 1 < w.height then w.(level := w.level + 1) else Resting);
    PublishKeepsInv(own, p, s');
  }

  lemma {:induction false} AlsoBelow(mem: Memory, lists: seq<seq<nat>>, l: nat, x: nat)
    requires Linked(mem, lists) && l < MAX_HEIGHT && x in lists[l]
    ensures x in lists[0] && x < |mem.keys|
  {
    if l > 0 {
      AlsoBelow(mem, lists, l - 1, x);
    } else {
      assert ChainOk(mem, 0, lists[0]);
    }
  }

  lemma SearchGivesPrevs(mem: Memory, lists: seq<seq<nat>>, key: int, height: nat, prev: seq<nat>)
    requires Linked(mem, lists) && height <= MAX_HEIGHT && PrevsFound(mem, lists, key, prev)
    requires forall l :: mem.maxHeight <= l < MAX_HEIGHT ==> lists[l] == []
    requires forall x :: x in lists[0] && x < |mem.keys| ==> mem.keys[x] != key
    ensures PrevsOk(mem, lists, key, 0, height, prev)
  {
    forall l | 0 <= l < height
      ensures PrevOk(mem, lists[l], key, prev[l])
    {
      if l >= mem.maxHeight {
        assert LastBefore(mem, lists[l], key, prev[l], 0);
      }
      forall y | y in lists[l] && y < |mem.keys|
        ensures mem.keys[y] != key
      {
        AlsoBelow(mem, lists, l, y);
      }
    }
  }

  lemma Sizes(mem: Memory, lists: seq<seq<nat>>)
    requires Linked(mem, lists)
    ensures |lists| == MAX_HEIGHT && 1 <= mem.maxHeight <= MAX_HEIGHT && |mem.next| == |mem.keys| > 0
  {
  }

  lemma InRange(mem: Memory, lists: seq<seq<nat>>, l: nat)
    requires Linked(mem, lists) && l < MAX_HEIGHT
    ensures forall i :: 0 <= i < |lists[l]| ==> lists[l][i] < |mem.keys|
  {
    assert ChainOk(mem, l, lists[l]);
  }

  lemma Rested(s: State)
    requires Inv(s)
    ensures Linked(s.mem, s.lists)
  {
  }

  lemma RestingOk(s: State)
    requires Linked(s.mem, s.lists) && s.writer == Resting && s.readers == []
    ensures Inv(s)
  {
  }

  lemma AtStart(list: seq<nat>)
    ensures At(list, 0) == HEAD
  {
  }

  /** The link at a position leads to the next one, or ends the level. */
  lemma LinkAt(mem: Memory, lists: seq<seq<nat>>, level: nat, p: nat)
    requires Linked(mem, lists) && level < MAX_HEIGHT && p <= |lists[level]|
    ensures
      var list := lists[level];
      var x := At(list, p);
      && x < |mem.next| && level < |mem.next[x]|
      && if p < |list| then mem.next[x][level] == At(list, p + 1) as int else mem.next[x][level] == NIL
  {
    assert ChainOk(mem, level, lists[level]);
    assert mem.next[At(lists[level], p)][level] == Succ(lists[level], p);
  }

  lemma PositionOf(list: seq<nat>, x: nat) returns (q: nat)
    requires x in list
    ensures 0 < q <= |list| && At(list, q) == x
  {
    var i: nat :| i < |list| && list[i] == x;
    q := i + 1;
  }

  lemma NodeBelow(mem: Memory, lists: seq<seq<nat>>, level: nat, x: nat)
    requires Linked(mem, lists) && 0 < level < MAX_HEIGHT && x in lists[level]
    ensures x in lists[level - 1]
  {
    hide ChainOk;
  }

  lemma LowerAt(mem: Memory, lists: seq<seq<nat>>, level: nat, p: nat) returns (q: nat)
    requires Linked(mem, lists) && 0 < level < MAX_HEIGHT && p <= |lists[level]|
    ensures q <= |lists[level - 1]| && At(lists[level - 1], q) == At(lists[level], p) && (q > 0 <==> p > 0)
  {
    Sizes(mem, lists);
    hide Linked;
    q := 0;
    if p > 0 {
      var x := lists[level][p - 1];
      NodeBelow(mem, lists, level, x);
      q := PositionOf(lists[level - 1], x);
    }
  }

  /** The first `p` nodes come before the key. */
  ghost predicate AllBefore(mem: Memory, list: seq<nat>, key: int, p: nat)
    requires p <= |list|
  {
    forall i :: 0 <= i < p ==> list[i] < |mem.keys| && mem.keys[list[i]] < key
  }

  /** What the link at a position before the key shows. */
  lemma StepAt(mem: Memory, lists: seq<seq<nat>>, level: nat, p: nat, key: int)
    requires Linked(mem, lists) && level < MAX_HEIGHT && p <= |lists[level]| && AllBefore(mem, lists[level], key, p)
    ensures
      var list := lists[level];
      var x := At(list, p);
      && x < |mem.next| && level < |mem.next[x]|
      && var n := mem.next[x][level];
         if KeyIsAfterNode(mem.keys, key, n)
         then p < |list| && n == At(list, p + 1) && AllBefore(mem, list, key, p + 1)
         else LastBefore(mem, list, key, x, p) && FirstFrom(mem, list, key, n)
  {
    var list := lists[level];
    var x := At(list, p);
    assert ChainOk(mem, level, list);
    assert mem.next[x][level] == Succ(list, p);
    assert p > 0 ==> x in list;
    OneLoad(mem, level, list, key, x);
  }

  /** A node of a level stands on the level below as well. */
  lemma LowerPosition(mem: Memory, lists: seq<seq<nat>>, level: nat, p: nat, key: int) returns (q: nat)
    requires Linked(mem, lists) && 0 < level < MAX_HEIGHT && p <= |lists[level]| && AllBefore(mem, lists[level], key, p)
    ensures q <= |lists[level - 1]| && At(lists[level - 1], q) == At(lists[level], p)
    ensures AllBefore(mem, lists[level - 1], key, q)
  {
    q := LowerAt(mem, lists, level, p);
    assert ChainOk(mem, level - 1, lists[level - 1]) && ChainOk(mem, level, lists[level]);
    if p > 0 {
      AllBeforeAt(mem, level - 1, lists[level - 1], q, key);
    }
  }

  lemma AllBeforeAt(mem: Memory, level: nat, list: seq<nat>, q: nat, key: int)
    requires ChainOk(mem, level, list) && 0 < q <= |list| && mem.keys[list[q - 1]] < key
    ensures AllBefore(mem, list, key, q)
  {
  }
}
