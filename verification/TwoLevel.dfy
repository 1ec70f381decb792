/** TwoLevelIterator (table/two_level_iterator.cc): a cursor over blocks that are opened one at a time,
    through a cursor over their index.  Tables use it over their blocks, and levels over their files. */
module TwoLevel {
  import opened Dbformat
  import opened Merger

  // Where block i starts in the whole list.
  function Start(blocks: seq<seq<Entry>>, i: nat): nat
    requires i <= |blocks|
  {
    |Flat(blocks[..i])|
  }

  // The index has a key for every block: not before any key of the block, and before all later ones.
  ghost predicate Indexes(index: seq<Entry>, blocks: seq<seq<Entry>>) {
    && |index| == |blocks|
    && (forall i, e :: 0 <= i < |blocks| && e in blocks[i] ==> !index[i].key.Before(e.key))
    && forall i, j, e :: 0 <= i < j < |blocks| && e in blocks[j] ==> index[i].key.Before(e.key)
  }

  lemma StartNext(blocks: seq<seq<Entry>>, i: nat)
    requires i < |blocks|
    ensures Start(blocks, i + 1) == Start(blocks, i) + |blocks[i]|
  {
    assert blocks[..i + 1][..i] == blocks[..i];
  }

  lemma StartEnds(blocks: seq<seq<Entry>>)
    ensures Start(blocks, 0) == 0 && Start(blocks, |blocks|) == |Flat(blocks)|
  {
    assert blocks[..|blocks|] == blocks;
  }

  lemma {:induction false} FlatPrefix(blocks: seq<seq<Entry>>, i: nat)
    requires i <= |blocks|
    ensures Flat(blocks[..i]) <= Flat(blocks)
  {
    if i == |blocks| {
      assert blocks[..i] == blocks;
    } else {
      FlatPrefix(blocks[..|blocks| - 1], i);
      assert blocks[..|blocks| - 1][..i] == blocks[..i];
    }
  }

  lemma FlatAt(blocks: seq<seq<Entry>>, i: nat, j: nat)
    requires i < |blocks| && j < |blocks[i]|
    ensures Start(blocks, i) + j < |Flat(blocks)| && Flat(blocks)[Start(blocks, i) + j] == blocks[i][j]
  {
    FlatPrefix(blocks, i + 1);
    assert blocks[..i + 1][..i] == blocks[..i];
    assert Flat(blocks[..i + 1]) == Flat(blocks[..i]) + blocks[i];
  }

  // Every place of the whole list is in some block.
  lemma {:induction false} PlaceOf(blocks: seq<seq<Entry>>, p: nat) returns (i: nat, j: nat)
    requires p < |Flat(blocks)|
    ensures i < |blocks| && j < |blocks[i]| && p == Start(blocks, i) + j
    decreases |blocks|
  {
    var last := |blocks| - 1;
    if p < |Flat(blocks[..last])| {
      i, j := PlaceOf(blocks[..last], p);
      assert blocks[..last][..i] == blocks[..i];
    } else {
      i, j := last, p - |Flat(blocks[..last])|;
    }
  }

  // Starts ascend with the blocks.
  lemma {:induction false} StartsAscend(blocks: seq<seq<Entry>>, i: nat, k: nat)
    requires i <= k <= |blocks|
    ensures Start(blocks, i) <= Start(blocks, k)
    decreases k - i
  {
    if i < k {
      StartNext(blocks, k - 1);
      StartsAscend(blocks, i, k - 1);
    }
  }

  // Where the index leads: the first key at or after the target in its block, or the block's end.
  ghost function Landing(index: seq<Entry>, blocks: seq<seq<Entry>>, target: InternalKey): (q: nat)
    requires Indexes(index, blocks)
  {
    var i := Dbformat.Seek(index, target);
    if i < |blocks| then Start(blocks, i) + Dbformat.Seek(blocks[i], target) else |Flat(blocks)|
  }

  lemma SeekLands(index: seq<Entry>, blocks: seq<seq<Entry>>, target: InternalKey)
    requires Indexes(index, blocks)
    ensures Dbformat.Seek(Flat(blocks), target) == Landing(index, blocks, target)
  {
    hide InternalKey.Before, Flat, Landing, Indexes;
    var q := Landing(index, blocks, target);
    var r := Dbformat.Seek(Flat(blocks), target);
    LandingInRange(index, blocks, target);
    if r < q {
      BeforeLanding(index, blocks, target, r);
    }
    if q < |Flat(blocks)| {
      AtLanding(index, blocks, target);
    }
  }

  lemma LandingInRange(index: seq<Entry>, blocks: seq<seq<Entry>>, target: InternalKey)
    requires Indexes(index, blocks)
    ensures Landing(index, blocks, target) <= |Flat(blocks)|
  {
    hide InternalKey.Before, Flat;
    var i := Dbformat.Seek(index, target);
    StartEnds(blocks);
    if i < |blocks| {
      StartNext(blocks, i);
      StartsAscend(blocks, i + 1, |blocks|);
    }
  }

  lemma BeforeLanding(index: seq<Entry>, blocks: seq<seq<Entry>>, target: InternalKey, p: nat)
    requires Indexes(index, blocks) && p < |Flat(blocks)|
    ensures p < Landing(index, blocks, target) ==> Flat(blocks)[p].key.Before(target)
  {
    hide InternalKey.Before, Flat;
    var i := Dbformat.Seek(index, target);
    var k, j := PlaceOf(blocks, p);
    FlatAt(blocks, k, j);
    if k < i {
      BeforeIsTotal(blocks[k][j].key, index[k].key, target);
    } else if i < k {
      StartNext(blocks, i);
      StartsAscend(blocks, i + 1, k);
    }
  }

  lemma AtLanding(index: seq<Entry>, blocks: seq<seq<Entry>>, target: InternalKey)
    requires Indexes(index, blocks) && Landing(index, blocks, target) < |Flat(blocks)|
    ensures !Flat(blocks)[Landing(index, blocks, target)].key.Before(target)
  {
    hide InternalKey.Before, Flat;
    var i, q := Dbformat.Seek(index, target), Landing(index, blocks, target);
    var k, j := PlaceOf(blocks, q);
    FlatAt(blocks, k, j);
    if k < i {
      StartNext(blocks, k);
      StartsAscend(blocks, k + 1, i);
    } else if i < k {
      BeforeIsTotal(index[i].key, blocks[k][j].key, target);
    }
  }

  class TwoLevelIterator {
    const blocks: seq<seq<Entry>>
    var indexIter: Cursor
    var dataIter: Option<Cursor>
    var dataBlock: nat  // the block dataIter was made for

    ghost var pos: nat  // the place in the whole list; its length when not valid

    // The cursor is on block b.
    ghost predicate IsOpen(c: Cursor, b: nat) {
      b < |blocks| && c.entries == blocks[b] && c.pos <= |blocks[b]|
    }

    ghost predicate Linked()
      reads this
    {
      && Indexes(indexIter.entries, blocks) && indexIter.pos <= |blocks|
      && (dataIter.Some? ==> indexIter.Valid() && dataBlock == indexIter.pos && IsOpen(dataIter.value, dataBlock))
    }

    ghost predicate Valid()
      reads this
    {
      && Linked()
      && (match dataIter
          case None => pos == |Flat(blocks)|
          case Some(c) => c.Valid() && pos == Start(blocks, indexIter.pos) + c.pos < |Flat(blocks)|)
    }

    // A cursor over the whole list is what this iterator amounts to.
    ghost function Now(): Cursor
      reads this
    {
      Cursor(Flat(blocks), pos)
    }

    constructor (index: seq<Entry>, blocks: seq<seq<Entry>>)
      requires Indexes(index, blocks)
      ensures Valid() && this.blocks == blocks && Now() == Cursor(Flat(blocks), |Flat(blocks)|)
    {
      this.blocks := blocks;
      indexIter, dataIter, dataBlock := Cursor(index, |index|), None, 0;
      pos := |Flat(blocks)|;
    }

    predicate IsValid()
      reads this
    {
      dataIter.Some? && dataIter.value.Valid()
    }

    method Current() returns (e: Entry)
      requires Valid() && IsValid()
      ensures pos < |Flat(blocks)| && e == Flat(blocks)[pos]
    {
      hide Flat;
      e := dataIter.value.entries[dataIter.value.pos];
      FlatAt(blocks, indexIter.pos, dataIter.value.pos);
    }

    // Opens the block the index is on, unless it is open already.
    method InitDataBlock()
      requires Indexes(indexIter.entries, blocks) && indexIter.pos <= |blocks|
      requires dataIter.Some? ==> IsOpen(dataIter.value, dataBlock)
      modifies `dataIter, `dataBlock
      ensures Linked() && (dataIter.Some? <==> indexIter.Valid())
    {
      hide Indexes;
      IndexLength(indexIter.entries, blocks);
      if !indexIter.Valid() {
        dataIter := None;
      } else if dataIter.None? || dataBlock != indexIter.pos {
        dataIter := Some(Cursor(blocks[indexIter.pos], |blocks[indexIter.pos]|));
        dataBlock := indexIter.pos;
      }
    }

    // From where the iterator stands on to the next entry.
    method SkipEmptyDataBlocksForward(ghost at: nat)
      requires Linked() && (dataIter.None? ==> !indexIter.Valid())
      requires at == if dataIter.Some? then Start(blocks, indexIter.pos) + dataIter.value.pos else |Flat(blocks)|
      modifies `indexIter, `dataIter, `dataBlock, `pos
      ensures Valid() && pos == at
    {
      hide Indexes, Flat;
      IndexLength(indexIter.entries, blocks);
      StartEnds(blocks);
      while dataIter.None? || !dataIter.value.Valid()
        invariant Linked() && (dataIter.None? ==> !indexIter.Valid()) && |indexIter.entries| == |blocks|
        invariant at == if dataIter.Some? then Start(blocks, indexIter.pos) + dataIter.value.pos else |Flat(blocks)|
        decreases |blocks| - indexIter.pos
      {
        if !indexIter.Valid() {
          dataIter := None;
          break;
        }
        StartNext(blocks, indexIter.pos);
        indexIter := indexIter.Next();
        InitDataBlock();
        if dataIter.Some? {
          dataIter := Some(dataIter.value.SeekToFirst());
        }
      }
      pos := at;
      if dataIter.Some? {
        FlatAt(blocks, indexIter.pos, dataIter.value.pos);
      }
    }

    // From where the iterator stands, or else from the start of its block, back to the entry before hi.
    method SkipEmptyDataBlocksBackward(ghost hi: nat)
      requires Linked() && (dataIter.None? ==> !indexIter.Valid())
      requires hi == if dataIter.None? then 0
                     else if dataIter.value.Valid() then Start(blocks, indexIter.pos) + dataIter.value.pos + 1
                     else Start(blocks, indexIter.pos)
      modifies `indexIter, `dataIter, `dataBlock, `pos
      ensures Valid() && pos == if hi == 0 then |Flat(blocks)| else hi - 1
    {
      hide Indexes, Flat;
      IndexLength(indexIter.entries, blocks);
      StartEnds(blocks);
      while dataIter.None? || !dataIter.value.Valid()
        invariant Linked() && (dataIter.None? ==> !indexIter.Valid()) && |indexIter.entries| == |blocks|
        invariant hi == if dataIter.None? then 0
                        else if dataIter.value.Valid() then Start(blocks, indexIter.pos) + dataIter.value.pos + 1
                        else Start(blocks, indexIter.pos)
        decreases if indexIter.Valid() then indexIter.pos + 1 else 0
      {
        if !indexIter.Valid() {
          dataIter := None;
          break;
        }
        if indexIter.pos > 0 {
          StartNext(blocks, indexIter.pos - 1);
        }
        indexIter := indexIter.Prev();
        InitDataBlock();
        if dataIter.Some? {
          dataIter := Some(dataIter.value.SeekToLast());
        }
      }
      pos := if hi == 0 then |Flat(blocks)| else hi - 1;
      if dataIter.Some? {
        FlatAt(blocks, indexIter.pos, dataIter.value.pos);
      }
    }

    method Seek(target: InternalKey)
      requires Valid()
      modifies this
      ensures Valid() && Now() == old(Now()).Seek(target)
    {
      hide Indexes, Flat;
      IndexLength(indexIter.entries, blocks);
      SeekLands(indexIter.entries, blocks, target);
      indexIter := indexIter.Seek(target);
      InitDataBlock();
      if dataIter.Some? {
        dataIter := Some(dataIter.value.Seek(target));
      }
      SkipEmptyDataBlocksForward(Landing(indexIter.entries, blocks, target));
    }

    method SeekToFirst()
      requires Valid()
      modifies this
      ensures Valid() && Now() == old(Now()).SeekToFirst()
    {
      hide Indexes, Flat;
      IndexLength(indexIter.entries, blocks);
      StartEnds(blocks);
      indexIter := indexIter.SeekToFirst();
      InitDataBlock();
      if dataIter.Some? {
        dataIter := Some(dataIter.value.SeekToFirst());
      }
      SkipEmptyDataBlocksForward(0);
    }

    method SeekToLast()
      requires Valid()
      modifies this
      ensures Valid() && Now() == old(Now()).SeekToLast()
    {
      hide Indexes, Flat;
      IndexLength(indexIter.entries, blocks);
      StartEnds(blocks);
      indexIter := indexIter.SeekToLast();
      if indexIter.Valid() {
        StartNext(blocks, indexIter.pos);
      }
      InitDataBlock();
      if dataIter.Some? {
        dataIter := Some(dataIter.value.SeekToLast());
      }
      SkipEmptyDataBlocksBackward(|Flat(blocks)|);
    }

    method Next()
      requires Valid() && IsValid()
      modifies this
      ensures Valid() && old(Now()).Valid() && Now() == old(Now()).Next()
    {
      hide Indexes, Flat;
      dataIter := Some(dataIter.value.Next());
      SkipEmptyDataBlocksForward(pos + 1);
    }

    method Prev()
      requires Valid() && IsValid()
      modifies this
      ensures Valid() && old(Now()).Valid() && Now() == old(Now()).Prev()
    {
      hide Indexes, Flat;
      dataIter := Some(dataIter.value.Prev());
      SkipEmptyDataBlocksBackward(pos);
    }
  }

  lemma IndexLength(index: seq<Entry>, blocks: seq<seq<Entry>>)
    requires Indexes(index, blocks)
    ensures |index| == |blocks|
  {
  }
}
