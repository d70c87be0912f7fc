/**
 The two-level iterator: an index whose entries name blocks, shown as one run, the
 concatenation of the blocks (table/two_level_iterator.cc).
 */
module TwoLevel {
  import opened Entries
  import opened Cursors
  import opened Positions

  /** What the block function returns for a handle, the value of an index entry. */
  type BlockFunction = seq<int> -> seq<Entry>

  ghost function BlockAt(index: seq<Entry>, read: BlockFunction, i: nat): seq<Entry>
    requires i < |index|
  {
    read(index[i].value)
  }

  /** The first `n` blocks in a row. */
  ghost function Flat(index: seq<Entry>, read: BlockFunction, n: nat): seq<Entry>
    requires n <= |index|
  {
    if n == 0 then [] else Flat(index, read, n - 1) + BlockAt(index, read, n - 1)
  }

  /** How many entries stand before block `i`. */
  ghost function Before(index: seq<Entry>, read: BlockFunction, i: nat): nat
    requires i <= |index|
  {
    |Flat(index, read, i)|
  }

  /** Every entry of block `i` is at most its index key; every entry of a later block is past it. */
  ghost predicate Separated(index: seq<Entry>, read: BlockFunction) {
    && Sorted(index)
    && (forall i, e :: 0 <= i < |index| && e in BlockAt(index, read, i) ==> AtMost(e.key, index[i].key))
    && (forall i, j, e :: 0 <= i < j < |index| && e in BlockAt(index, read, j) ==> Less(index[i].key, e.key))
    && (forall i :: 0 <= i < |index| ==> Sorted(BlockAt(index, read, i)))
  }

  lemma {:induction false} FlatPrefix(index: seq<Entry>, read: BlockFunction, i: nat, n: nat)
    requires i <= n <= |index|
    ensures Flat(index, read, i) <= Flat(index, read, n)
  {
    if i < n {
      FlatPrefix(index, read, i, n - 1);
    }
  }

  /** Entry `k` of block `i` in the whole. */
  lemma FlatAt(index: seq<Entry>, read: BlockFunction, i: nat, k: nat)
    requires i < |index| && k < |BlockAt(index, read, i)|
    ensures Before(index, read, i) + k < Before(index, read, i + 1) <= Before(index, read, |index|)
    ensures Flat(index, read, |index|)[Before(index, read, i) + k] == BlockAt(index, read, i)[k]
  {
    FlatPrefix(index, read, i + 1, |index|);
  }

  lemma {:induction false} FlatHolds(index: seq<Entry>, read: BlockFunction, n: nat, e: Entry)
    requires n <= |index|
    ensures e in Flat(index, read, n) <==> exists i :: 0 <= i < n && e in BlockAt(index, read, i)
  {
    if n > 0 {
      FlatHolds(index, read, n - 1, e);
    }
  }

  lemma {:induction false} FlatSorted(index: seq<Entry>, read: BlockFunction, n: nat)
    requires Separated(index, read) && n <= |index|
    ensures Sorted(Flat(index, read, n))
  {
    if n > 0 {
      FlatSorted(index, read, n - 1);
      forall x, y | x in Flat(index, read, n - 1) && y in BlockAt(index, read, n - 1)
        ensures Less(x.key, y.key)
      {
        FlatHolds(index, read, n - 1, x);
        var i :| 0 <= i < n - 1 && x in BlockAt(index, read, i);
        assert AtMost(x.key, index[i].key) && Less(index[i].key, y.key);
      }
    }
  }

  /** Seeking the index, then the block, is seeking the whole. */
  lemma SeekFlat(index: seq<Entry>, read: BlockFunction, k: IKey)
    requires Separated(index, read)
    ensures SeekPos(Flat(index, read, |index|), k) == SoughtAt(index, read, k, SeekPos(index, k))
  {
    hide Less, Separated, SeekPos, SoughtAt;
    var i, flat := SeekPos(index, k), Flat(index, read, |index|);
    var p := SoughtAt(index, read, k, i);
    SoughtInRange(index, read, k, i);
    FlatSorted(index, read, |index|);
    forall q | 0 <= q < p
      ensures Less(flat[q].key, k)
    {
      EarlierIsLess(index, read, k, i, q);
    }
    if p < |flat| {
      SoughtIsAtMost(index, read, k, i, p);
    }
    SeekPosIs(flat, k, p);
  }

  ghost function SoughtAt(index: seq<Entry>, read: BlockFunction, k: IKey, i: nat): nat
    requires i <= |index|
  {
    Before(index, read, i) + if i == |index| then 0 else SeekPos(BlockAt(index, read, i), k)
  }

  lemma SoughtInRange(index: seq<Entry>, read: BlockFunction, k: IKey, i: nat)
    requires i <= |index|
    ensures SoughtAt(index, read, k, i) <= Before(index, read, |index|)
  {
    FlatPrefix(index, read, i, |index|);
    if i < |index| {
      FlatPrefix(index, read, i + 1, |index|);
    }
  }

  lemma EarlierIsLess(index: seq<Entry>, read: BlockFunction, k: IKey, i: nat, q: nat)
    requires Separated(index, read) && i == SeekPos(index, k) && q < SoughtAt(index, read, k, i)
    requires q < Before(index, read, |index|)
    ensures Less(Flat(index, read, |index|)[q].key, k)
  {
    hide Less, Separated, SeekPos, Flat;
    if q < Before(index, read, i) {
      FlatPrefix(index, read, i, |index|);
      EarlierBlock(index, read, k, i, Flat(index, read, i)[q]);
    } else {
      SameBlock(index, read, k, i, q - Before(index, read, i));
    }
  }

  lemma SameBlock(index: seq<Entry>, read: BlockFunction, k: IKey, i: nat, t: nat)
    requires i < |index| && t < SeekPos(BlockAt(index, read, i), k)
    ensures t + Before(index, read, i) < Before(index, read, |index|)
    ensures Less(Flat(index, read, |index|)[Before(index, read, i) + t].key, k)
  {
    hide Less;
    FlatAt(index, read, i, t);
  }

  lemma EarlierBlock(index: seq<Entry>, read: BlockFunction, k: IKey, i: nat, e: Entry)
    requires Separated(index, read) && i == SeekPos(index, k) && e in Flat(index, read, i)
    ensures Less(e.key, k)
  {
    FlatHolds(index, read, i, e);
    var j :| 0 <= j < i && e in BlockAt(index, read, j);
    assert AtMost(e.key, index[j].key) && Less(index[j].key, k);
  }

  lemma SoughtIsAtMost(index: seq<Entry>, read: BlockFunction, k: IKey, i: nat, p: nat)
    requires Separated(index, read) && i == SeekPos(index, k) && p == SoughtAt(index, read, k, i)
    requires p < Before(index, read, |index|)
    ensures AtMost(k, Flat(index, read, |index|)[p].key)
  {
    hide SeekPos, Less, Separated, Flat;
    var e := Flat(index, read, |index|)[p];
    assert i < |index|;
    var t := SeekPos(BlockAt(index, read, i), k);
    NextBlockStarts(index, read, i);
    if t < |BlockAt(index, read, i)| {
      FlatAt(index, read, i, t);
    } else {
      BlockOf(index, read, i + 1, |index|, p);
      LaterBlock(index, read, k, i, e);
    }
  }

  lemma LaterBlock(index: seq<Entry>, read: BlockFunction, k: IKey, i: nat, e: Entry)
    requires Separated(index, read) && i < |index| && AtMost(k, index[i].key)
    requires exists j :: i < j < |index| && e in BlockAt(index, read, j)
    ensures AtMost(k, e.key)
  {
    var j :| i < j < |index| && e in BlockAt(index, read, j);
    assert Less(index[i].key, e.key);
  }

  lemma NextBlockStarts(index: seq<Entry>, read: BlockFunction, i: nat)
    requires i < |index|
    ensures Before(index, read, i + 1) == Before(index, read, i) + |BlockAt(index, read, i)|
  {
  }

  /** A position past the first `m` blocks lies in a later block. */
  lemma {:induction false} BlockOf(index: seq<Entry>, read: BlockFunction, m: nat, n: nat, p: nat)
    requires m <= n <= |index| && Before(index, read, m) <= p < Before(index, read, n)
    ensures exists j :: m <= j < n && Flat(index, read, n)[p] in BlockAt(index, read, j)
  {
    if p >= Before(index, read, n - 1) {
      assert Flat(index, read, n)[p] in BlockAt(index, read, n - 1);
    } else {
      BlockOf(index, read, m, n - 1, p);
    }
  }

  class TwoLevelIterator {
    const indexIter: RunIterator
    const read: BlockFunction
    var dataIter: RunIterator?
    var handle: seq<int>
    /** The position in the concatenation of the blocks. */
    ghost var at: nat
    ghost var repr: set<object>

    ghost function Whole(): seq<Entry> {
      Flat(indexIter.run, read, |indexIter.run|)
    }

    ghost function Start(i: nat): nat
      requires i <= |indexIter.run|
    {
      Before(indexIter.run, read, i)
    }

    ghost predicate Shape()
      reads this, repr
    {
      && repr >= {this, indexIter} && indexIter.Ok() && Separated(indexIter.run, read)
      && (dataIter != null ==> dataIter in repr && dataIter != indexIter && dataIter.pos <= |dataIter.run|)
    }

    /** The data iterator reads the block the index stands at. */
    ghost predicate InStep()
      requires Shape()
      reads this, repr
    {
      if indexIter.pos < |indexIter.run|
      then dataIter != null && handle == indexIter.run[indexIter.pos].value && dataIter.run == read(handle)
      else dataIter == null
    }

    ghost predicate Valid()
      reads this, repr
    {
      && Shape()
      && if dataIter == null then at == |Whole()|
         else InStep() && dataIter.pos < |dataIter.run| && at == Start(indexIter.pos) + dataIter.pos
    }

    constructor (indexIter: RunIterator, read: BlockFunction)
      requires indexIter.Ok() && Separated(indexIter.run, read)
      ensures Valid() && this.indexIter == indexIter && this.read == read && repr == {this, indexIter}
      ensures at == |Whole()|
    {
      this.indexIter, this.read, dataIter, handle := indexIter, read, null, [];
      repr := {this, indexIter};
      at := |Flat(indexIter.run, read, |indexIter.run|)|;
    }

    predicate IsValid()
      reads this, dataIter
    {
      dataIter != null && dataIter.IsValid()
    }

    method Current() returns (e: Entry)
      requires Valid() && IsValid()
      ensures at < |Whole()| && e == Whole()[at]
    {
      FlatAt(indexIter.run, read, indexIter.pos, dataIter.pos);
      e := dataIter.run[dataIter.pos];
    }

    /** Open the block the index stands at, unless it is open already. */
    method InitDataBlock()
      requires Shape() && (dataIter != null ==> dataIter.run == read(handle))
      modifies this
      ensures Shape() && InStep() && fresh(repr - old(repr)) && old(repr) <= repr && at == old(at)
    {
      if !indexIter.IsValid() {
        dataIter := null;
      } else {
        var h := indexIter.run[indexIter.pos].value;
        if dataIter == null || h != handle {
          handle := h;
          dataIter := new RunIterator(read(h));
          repr := repr + {dataIter};
        }
      }
    }

    /** What a seek or a step leaves behind: the data iterator in place, or off its block. */
    ghost predicate Loose()
      reads this, repr
    {
      Shape() && InStep()
    }

    /** From the end of a block on to the next entry there is. */
    method SkipEmptyDataBlocksForward()
      requires Loose()
      requires at == if dataIter == null then |Whole()|
                     else if dataIter.IsValid() then Start(indexIter.pos) + dataIter.pos else Start(indexIter.pos + 1)
      modifies repr
      ensures Valid() && at == old(at) && fresh(repr - old(repr))
    {
      hide Separated, Less;
      while dataIter == null || !dataIter.IsValid()
        invariant Loose() && fresh(repr - old(repr)) && at == old(at)
        invariant at == if dataIter == null then |Whole()|
                        else if dataIter.IsValid() then Start(indexIter.pos) + dataIter.pos else Start(indexIter.pos + 1)
        decreases |indexIter.run| - indexIter.pos
      {
        if !indexIter.IsValid() {
          dataIter := null;
          return;
        }
        indexIter.Next();
        InitDataBlock();
        if dataIter != null {
          dataIter.SeekToFirst();
        }
      }
    }

    /** From the start of a block back to the last entry before it. */
    method SkipEmptyDataBlocksBackward(ghost b: nat)
      requires Loose() && b <= |Whole()|
      requires if dataIter == null then b == 0
               else if dataIter.IsValid() then b == Start(indexIter.pos) + dataIter.pos + 1 else b == Start(indexIter.pos)
      modifies repr
      ensures Valid() && at == PrevPos(|Whole()|, b) && fresh(repr - old(repr))
    {
      hide Separated, Less;
      while dataIter == null || !dataIter.IsValid()
        invariant Loose() && fresh(repr - old(repr))
        invariant if dataIter == null then b == 0
                  else if dataIter.IsValid() then b == Start(indexIter.pos) + dataIter.pos + 1 else b == Start(indexIter.pos)
        decreases dataIter != null, indexIter.pos
      {
        if !indexIter.IsValid() {
          dataIter, at := null, |Whole()|;
          return;
        }
        indexIter.Prev();
        InitDataBlock();
        if dataIter != null {
          dataIter.SeekToLast();
        }
      }
      at := b - 1;
    }

    method SeekToFirst()
      requires Valid()
      modifies repr
      ensures Valid() && at == 0 && fresh(repr - old(repr))
    {
      hide Separated, Less, Sorted;
      indexIter.SeekToFirst();
      InitDataBlock();
      if dataIter != null {
        dataIter.SeekToFirst();
      }
      at := 0;
      assert Start(0) == 0;
      SkipEmptyDataBlocksForward();
    }

    method SeekToLast()
      requires Valid()
      modifies repr
      ensures Valid() && at == LastPos(|Whole()|) && fresh(repr - old(repr))
    {
      hide Separated, Less, Sorted;
      indexIter.SeekToLast();
      InitDataBlock();
      if dataIter != null {
        dataIter.SeekToLast();
      }
      SkipEmptyDataBlocksBackward(|Whole()|);
    }

    method Seek(k: IKey)
      requires Valid()
      modifies repr
      ensures Valid() && at == SeekPos(Whole(), k) && fresh(repr - old(repr))
    {
      SeekFlat(indexIter.run, read, k);
      SeekBlock(k);
      SkipEmptyDataBlocksForward();
    }

    method SeekBlock(k: IKey)
      requires Valid()
      modifies repr
      ensures Loose() && fresh(repr - old(repr))
      ensures at == SoughtAt(indexIter.run, read, k, SeekPos(indexIter.run, k))
      ensures at == if dataIter == null then |Whole()|
                    else if dataIter.IsValid() then Start(indexIter.pos) + dataIter.pos else Start(indexIter.pos + 1)
    {
      hide Separated, Less, Sorted, SeekPos;
      indexIter.Seek(k);
      InitDataBlock();
      if dataIter != null {
        dataIter.Seek(k);
      }
      at := SoughtAt(indexIter.run, read, k, indexIter.pos);
    }

    method Next()
      requires Valid() && IsValid()
      modifies repr
      ensures Valid() && at == old(at) + 1 && fresh(repr - old(repr))
    {
      dataIter.Next();
      at := at + 1;
      SkipEmptyDataBlocksForward();
    }

    method Prev()
      requires Valid() && IsValid()
      modifies repr
      ensures Valid() && at == PrevPos(|Whole()|, old(at)) && fresh(repr - old(repr))
    {
      FlatAt(indexIter.run, read, indexIter.pos, dataIter.pos);
      dataIter.Prev();
      SkipEmptyDataBlocksBackward(at);
    }
  }
}
