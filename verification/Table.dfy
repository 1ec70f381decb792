/** Table files (table/table_builder.cc, table/table.cc): data blocks, an index of keys between them,
    and filters. */
module Table {
  import opened Dbformat
  import opened UserKeys
  import opened Comparator
  import opened Bloom
  import opened FilterBlock

  datatype Item = Item(key: Key, value: Bytes)

  // A data block and its offset in the file.
  datatype Placed = Placed(offset: nat, items: seq<Item>)

  datatype IndexEntry = IndexEntry(key: Key, offset: nat)

  // A finished table file.
  datatype TableFile = TableFile(blocks: map<nat, seq<Item>>, index: seq<IndexEntry>, filter: Option<FilterContents>)

  ghost predicate Ascending(items: seq<Item>) {
    forall i, j :: 0 <= i < j < |items| ==> items[i].key.Before(items[j].key)
  }

  // e is the first of the items at or after k.
  ghost predicate FirstFrom(items: seq<Item>, k: Key, e: Item) {
    && e in items && !e.key.Before(k)
    && forall x :: x in items && !x.key.Before(k) ==> x == e || e.key.Before(x.key)
  }

  // ---------- Blocks, and how index entries separate them ----------

  // s is at or after every key of the block.
  ghost predicate Covers(s: Key, items: seq<Item>) {
    forall x :: x in items ==> x.key == s || x.key.Before(s)
  }

  // s is before the later item; and it is before its user key, unless s is the last key of the block.
  ghost predicate Separates(s: Key, items: seq<Item>, later: Item) {
    && s.Before(later.key)
    && (BytewiseLess(s.user, later.key.user) || (items != [] && s == items[|items| - 1].key))
  }

  ghost predicate IndexOk(index: seq<IndexEntry>, blocks: seq<Placed>) {
    && |index| <= |blocks|
    && forall i :: 0 <= i < |index| ==>
         && index[i].offset == blocks[i].offset
         && Covers(index[i].key, blocks[i].items)
         && forall j, e :: i < j < |blocks| && e in blocks[j].items ==> Separates(index[i].key, blocks[i].items, e)
  }

  // Keys ascend within every block and from block to block.
  ghost predicate InOrder(blocks: seq<Placed>) {
    && (forall i :: 0 <= i < |blocks| ==> Ascending(blocks[i].items))
    && forall i, j, a, b ::
         0 <= i < j < |blocks| && a in blocks[i].items && b in blocks[j].items ==> a.key.Before(b.key)
  }

  // The blocks are in the file, below offset.
  ghost predicate Written(blocks: seq<Placed>, file: map<nat, seq<Item>>, offset: nat) {
    && (forall i :: 0 <= i < |blocks| ==>
          && blocks[i].items != [] && blocks[i].offset < offset
          && blocks[i].offset in file && file[blocks[i].offset] == blocks[i].items)
    && forall i, j :: 0 <= i < j < |blocks| ==> blocks[i].offset < blocks[j].offset
  }

  // All items of the blocks.
  ghost predicate Holds(blocks: seq<Placed>, items: seq<Item>) {
    forall e :: e in items <==> exists i :: 0 <= i < |blocks| && e in blocks[i].items
  }

  ghost predicate UpTo(items: seq<Item>, last: Key) {
    forall e :: e in items ==> e.key == last || e.key.Before(last)
  }

  // The user keys of the block are in the filter for its offset, or waiting for it to be made.
  ghost predicate Filtered(offset: nat, items: seq<Item>, covered: seq<seq<Bytes>>, pending: seq<Bytes>) {
    var share := offset / FILTER_BASE;
    && share <= |covered|
    && forall e :: e in items ==> e.key.user in (if share < |covered| then covered[share] else pending)
  }

  ghost predicate FiltersOk(blocks: seq<Placed>, offset: nat, covered: seq<seq<Bytes>>, pending: seq<Bytes>) {
    && (forall i :: 0 <= i < |blocks| ==> Filtered(blocks[i].offset, blocks[i].items, covered, pending))
    && offset / FILTER_BASE == |covered|
  }

  lemma SeparatesLater(s: Key, items: seq<Item>, e: Item, x: Item)
    requires Separates(s, items, e) && e.key.Before(x.key)
    ensures Separates(s, items, x)
  {
    KeysAreTotal(s, e.key, x.key);
    BytewiseIsTotal(s.user, e.key.user, x.key.user);
  }

  // Adding an item after all others to the last block.
  lemma ItemAdded(
      blocks: seq<Placed>, offset: nat, data: seq<Item>, items: seq<Item>, last: Key, index: seq<IndexEntry>, x: Item)
    requires InOrder(blocks + [Placed(offset, data)]) && Holds(blocks + [Placed(offset, data)], items)
    requires UpTo(items, last)
    requires items != [] ==> last.Before(x.key)
    requires IndexOk(index, blocks + [Placed(offset, data)]) && |index| == |blocks|
    requires data == [] && blocks != [] ==> Separates(index[|index| - 1].key, blocks[|blocks| - 1].items, x)
    requires forall i :: 0 <= i < |blocks| ==> blocks[i].items != []
    ensures var all := blocks + [Placed(offset, data + [x])];
            InOrder(all) && Holds(all, items + [x]) && IndexOk(index, all) && UpTo(items + [x], x.key)
  {
    hide Separates, Key.Before, InOrder, IndexOk, Holds;
    var before, all := blocks + [Placed(offset, data)], blocks + [Placed(offset, data + [x])];
    forall e | e in items ensures e.key.Before(x.key) {
      KeysAreTotal(e.key, last, x.key);
    }
    ItemsOf(before, items);
    AllInOrder(before, all, |blocks|, x);
    AllHeld(before, all, |blocks|, items, x);
    AllSeparated(before, all, |blocks|, index, x);
  }

  lemma ItemsOf(blocks: seq<Placed>, items: seq<Item>)
    requires Holds(blocks, items)
    ensures forall i, e :: 0 <= i < |blocks| && e in blocks[i].items ==> e in items
  {
  }

  // all is before with x added to block n, the last one.
  ghost predicate AddsTo(before: seq<Placed>, all: seq<Placed>, n: nat, x: Item) {
    && |before| == |all| == n + 1
    && (forall i :: 0 <= i < n ==> all[i] == before[i])
    && all[n].items == before[n].items + [x]
  }

  lemma AllInOrder(before: seq<Placed>, all: seq<Placed>, n: nat, x: Item)
    requires InOrder(before) && AddsTo(before, all, n, x)
    requires forall i, e :: 0 <= i <= n && e in before[i].items ==> e.key.Before(x.key)
    ensures InOrder(all)
  {
    hide Key.Before;
    forall i | 0 <= i <= n ensures Ascending(all[i].items) {
      assert Ascending(before[i].items);
      assert forall j :: 0 <= j < |before[n].items| ==> before[n].items[j] in before[n].items;
    }
  }

  lemma AllHeld(before: seq<Placed>, all: seq<Placed>, n: nat, items: seq<Item>, x: Item)
    requires Holds(before, items) && AddsTo(before, all, n, x)
    ensures Holds(all, items + [x])
  {
    forall e ensures e in items + [x] <==> exists i :: 0 <= i < |all| && e in all[i].items {
      if e in items {
        var i :| 0 <= i < |before| && e in before[i].items;
        assert e in all[i].items;
      }
      assert x in all[n].items;
    }
  }

  lemma AllSeparated(before: seq<Placed>, all: seq<Placed>, n: nat, index: seq<IndexEntry>, x: Item)
    requires IndexOk(index, before) && AddsTo(before, all, n, x) && |index| == n
    requires forall i, e :: 0 <= i <= n && e in before[i].items ==> e.key.Before(x.key)
    requires before[n].items == [] && n > 0 ==> Separates(index[n - 1].key, before[n - 1].items, x)
    requires forall i :: 0 <= i < n ==> before[i].items != []
    ensures IndexOk(index, all)
  {
    hide Separates, Key.Before;
    forall i, j, e | 0 <= i < n && i < j <= n && e in all[j].items ensures Separates(index[i].key, all[i].items, e) {
      if j < n || e in before[n].items {
        assert e in before[j].items;
      } else if i < n - 1 || before[n].items != [] {
        var m := if before[n].items != [] then n else n - 1;
        var e' := before[m].items[0];
        assert e' in before[m].items;
        SeparatesLater(index[i].key, before[i].items, e', x);
      }
    }
  }

  // The last block is closed and an empty one begun.
  lemma BlockClosed(
      blocks: seq<Placed>, offset: nat, data: seq<Item>, items: seq<Item>, index: seq<IndexEntry>, offset': nat)
    requires InOrder(blocks + [Placed(offset, data)]) && Holds(blocks + [Placed(offset, data)], items)
    requires IndexOk(index, blocks + [Placed(offset, data)])
    ensures var all := blocks + [Placed(offset, data)] + [Placed(offset', [])];
            InOrder(all) && Holds(all, items) && IndexOk(index, all)
  {
    hide Separates;
    var before := blocks + [Placed(offset, data)];
    var all := before + [Placed(offset', [])];
    assert forall i :: 0 <= i < |before| ==> all[i] == before[i];
    forall e | e in items ensures exists i :: 0 <= i < |all| && e in all[i].items {
      var i :| 0 <= i < |before| && e in before[i].items;
      assert e in all[i].items;
    }
  }

  // The index entry for the last block, before any later item.
  lemma EntryAdded(blocks: seq<Placed>, offset: nat, index: seq<IndexEntry>, s: Key)
    requires blocks != [] && IndexOk(index, blocks + [Placed(offset, [])]) && |index| + 1 == |blocks|
    requires Covers(s, blocks[|blocks| - 1].items)
    ensures IndexOk(index + [IndexEntry(s, blocks[|blocks| - 1].offset)], blocks + [Placed(offset, [])])
  {
    hide Separates, Covers;
  }

  class TableBuilder {
    const filterBlock: FilterBlockBuilder?
    var file: map<nat, seq<Item>>
    var offset: nat
    var dataBlock: seq<Item>
    var indexBlock: seq<IndexEntry>
    var lastKey: Key
    var numEntries: nat
    var closed: bool
    var pendingIndexEntry: bool
    var pendingHandle: nat
    ghost var items: seq<Item>     // everything added
    ghost var blocks: seq<Placed>  // the blocks written

    ghost predicate Valid()
      reads this, filterBlock
    {
      Consistent() && (blocks != [] && !pendingIndexEntry ==> dataBlock != [])
    }

    ghost predicate Consistent()
      reads this, filterBlock
    {
      && Contents()
      && numEntries == |items| && UpTo(items, lastKey)
      && |indexBlock| + (if pendingIndexEntry then 1 else 0) == |blocks|
      && (pendingIndexEntry ==>
            && dataBlock == [] && numEntries > 0 && pendingHandle == blocks[|blocks| - 1].offset
            && lastKey == blocks[|blocks| - 1].items[|blocks[|blocks| - 1].items| - 1].key)
      && (dataBlock != [] ==> lastKey == dataBlock[|dataBlock| - 1].key)
      && FilterLinked()
    }

    ghost predicate Contents()
      reads this
    {
      var all := blocks + [Placed(offset, dataBlock)];
      Written(blocks, file, offset) && InOrder(all) && Holds(all, items) && IndexOk(indexBlock, all)
    }

    ghost predicate FilterLinked()
      reads this, filterBlock
    {
      filterBlock != null ==>
        filterBlock.Valid() &&
            FiltersOk(blocks + [Placed(offset, dataBlock)], offset, filterBlock.covered, filterBlock.pending)
    }

    constructor (filter: FilterBlockBuilder?)
      requires filter != null ==> filter.Valid() && filter.covered == [] && filter.pending == []
      ensures Valid() && filterBlock == filter && items == [] && !closed
    {
      filterBlock := filter;
      file, offset, dataBlock, indexBlock, numEntries, closed := map[], 0, [], [], 0, false;
      lastKey, pendingIndexEntry, pendingHandle := Key([], 0), false, 0;
      items, blocks := [], [];
    }

    // Adds an item after all others.  `full` says when a block is to be closed; `size` is its size in the file.
    method Add(key: Key, value: Bytes, full: seq<Item> -> bool, size: seq<Item> -> nat)
      requires Valid() && !closed && (numEntries > 0 ==> lastKey.Before(key))
      modifies this, filterBlock
      ensures Valid() && !closed && items == old(items) + [Item(key, value)] && lastKey == key
    {
      hide Consistent, Separates, Key.Before;
      PendingMeansSome();
      if pendingIndexEntry {
        var limit := AddIndexEntry(Item(key, value));
      }
      AppendItem(Item(key, value));
      if full(dataBlock) {
        Flush(size);
      }
    }

    lemma PendingMeansSome()
      requires Valid()
      ensures pendingIndexEntry ==> numEntries > 0
    {
    }

    // The pending index entry, shortened now that the next block's first key is known.
    method AddIndexEntry(next: Item) returns (ghost s: Key)
      requires Valid() && pendingIndexEntry && lastKey.Before(next.key)
      modifies this
      ensures Consistent() && !pendingIndexEntry && items == old(items) && closed == old(closed)
      ensures blocks == old(blocks)
      ensures dataBlock == [] && numEntries == old(numEntries) && indexBlock != []
      ensures s == indexBlock[|indexBlock| - 1].key && Separates(s, blocks[|blocks| - 1].items, next)
      ensures lastKey.Before(next.key)
    {
      hide InOrder, Holds, IndexOk, Separates, FilterBlockBuilder.Valid, FiltersOk, Key.Before, UpTo, Covers;
      var separator := FindShortestInternalSeparator(lastKey, next.key);
      SeparatorSeparates(blocks, offset, items, lastKey, separator, next);
      EntryAdded(blocks, offset, indexBlock, separator);
      lastKey := separator;
      indexBlock := indexBlock + [IndexEntry(separator, pendingHandle)];
      pendingIndexEntry := false;
      s := separator;
    }

    method AppendItem(item: Item)
      requires Consistent() && !pendingIndexEntry && !closed && (numEntries > 0 ==> lastKey.Before(item.key))
      requires dataBlock == [] && blocks != [] ==>
                 Separates(indexBlock[|indexBlock| - 1].key, blocks[|blocks| - 1].items, item)
      modifies this, filterBlock
      ensures Valid() && !closed && items == old(items) + [item] && lastKey == item.key && dataBlock != []
    {
      hide InOrder, Holds, IndexOk, Separates, FilterBlockBuilder.Valid, FiltersOk, Key.Before, UpTo;
      ItemAdded(blocks, offset, dataBlock, items, lastKey, indexBlock, item);
      if filterBlock != null {
        KeyAdded(blocks, offset, dataBlock, filterBlock.covered, filterBlock.pending, item);
        filterBlock.AddKey(item.key.user);
      }
      lastKey := item.key;
      numEntries := numEntries + 1;
      dataBlock := dataBlock + [item];
      items := items + [item];
    }

    // Writes the data block, unless it is empty.
    method Flush(size: seq<Item> -> nat)
      requires Valid() && !closed
      modifies this, filterBlock
      ensures Valid() && !closed && items == old(items) && lastKey == old(lastKey) && dataBlock == []
    {
      hide InOrder, Holds, IndexOk, FilterBlockBuilder.Valid, FiltersOk, Key.Before, UpTo, Written;
      if dataBlock == [] {
        return;
      }
      ghost var before := blocks + [Placed(offset, dataBlock)];
      ItemsOf(before, items);
      assert dataBlock[0] in before[|blocks|].items && dataBlock[0] in items;
      var offset' := offset + size(dataBlock) + 5;
      BlockClosed(blocks, offset, dataBlock, items, indexBlock, offset');
      WrittenMore(blocks, file, offset, dataBlock, offset');
      if filterBlock != null {
        ghost var covered0, pending0 := filterBlock.covered, filterBlock.pending;
        NextShare(before, offset, offset', covered0, pending0);
        filterBlock.StartBlock(offset');
        FiltersAdvance(before, offset, offset', covered0, pending0, filterBlock.covered, filterBlock.pending);
      }
      file := file[offset := dataBlock];
      pendingHandle := offset;
      blocks := before;
      offset := offset';
      dataBlock := [];
      pendingIndexEntry := true;
    }

    // Closes the last block and gives it an index entry past its last key.
    method Finish(size: seq<Item> -> nat) returns (t: TableFile)
      requires Valid() && !closed
      modifies this, filterBlock
      ensures closed && items == old(items)
      ensures forall hash :: (filterBlock != null ==> hash == filterBlock.policy.hash) ==> IsTableOf(t, items, hash)
    {
      hide InOrder, Holds, IndexOk, FilterBlockBuilder.Valid, FiltersOk, Filters, InFilter, Key.Before, UpTo, Written,
           Covers;
      Flush(size);
      closed := true;
      var filter: Option<FilterContents> := None;
      if filterBlock != null {
        ghost var covered0, pending0 := filterBlock.covered, filterBlock.pending;
        var contents := filterBlock.Finish();
        FiltersEnd(blocks, offset, covered0, pending0, filterBlock.covered);
        assert FiltersFor(blocks, contents, filterBlock.covered, filterBlock.policy.hash);
        filter := Some(contents);
      }
      if pendingIndexEntry {
        var successor := FindShortInternalSuccessor(lastKey);
        LastCovers(blocks, offset, items, lastKey, successor);
        EntryAdded(blocks, offset, indexBlock, successor);
        indexBlock := indexBlock + [IndexEntry(successor, pendingHandle)];
        pendingIndexEntry := false;
      }
      WithoutEmptyLast(blocks, offset, items, indexBlock);
      t := TableFile(file, indexBlock, filter);
      forall hash: Bytes -> Word | filterBlock != null ==> hash == filterBlock.policy.hash
        ensures IsTableOf(t, items, hash)
      {
        assert IsTableWith(t, items, hash, blocks, offset);
      }
    }
  }

  lemma WrittenMore(blocks: seq<Placed>, file: map<nat, seq<Item>>, offset: nat, data: seq<Item>, offset': nat)
    requires Written(blocks, file, offset) && data != [] && offset < offset'
    ensures Written(blocks + [Placed(offset, data)], file[offset := data], offset')
  {
  }

  // The shortened key does what an index entry must.
  lemma SeparatorSeparates(blocks: seq<Placed>, offset: nat, items: seq<Item>, last: Key, s: Key, next: Item)
    requires blocks != [] && blocks[|blocks| - 1].items != []
    requires last == blocks[|blocks| - 1].items[|blocks[|blocks| - 1].items| - 1].key
    requires Holds(blocks + [Placed(offset, [])], items) && UpTo(items, last) && last.Before(next.key)
    requires s == last || (last.Before(s) && BytewiseLess(s.user, next.key.user))
    ensures Covers(s, blocks[|blocks| - 1].items) && Separates(s, blocks[|blocks| - 1].items, next) && UpTo(items, s)
  {
    forall e | e in items ensures e.key == s || e.key.Before(s) {
      KeysAreTotal(e.key, last, s);
    }
    forall e | e in blocks[|blocks| - 1].items ensures e in items {
      assert e in (blocks + [Placed(offset, [])])[|blocks| - 1].items;
    }
  }

  lemma KeyAdded(
      blocks: seq<Placed>, offset: nat, data: seq<Item>, covered: seq<seq<Bytes>>, pending: seq<Bytes>, x: Item)
    requires FiltersOk(blocks + [Placed(offset, data)], offset, covered, pending)
    ensures FiltersOk(blocks + [Placed(offset, data + [x])], offset, covered, pending + [x.key.user])
  {
    var before, all := blocks + [Placed(offset, data)], blocks + [Placed(offset, data + [x])];
    forall i | 0 <= i < |all| ensures Filtered(all[i].offset, all[i].items, covered, pending + [x.key.user]) {
      assert Filtered(before[i].offset, before[i].items, covered, pending);
    }
  }

  lemma NextShare(blocks: seq<Placed>, offset: nat, offset': nat, covered: seq<seq<Bytes>>, pending: seq<Bytes>)
    requires FiltersOk(blocks, offset, covered, pending) && offset <= offset'
    ensures offset' / FILTER_BASE >= |covered|
  {
    assert offset' / 2048 >= offset / 2048;
  }

  // Starting a block further on leaves every key with the filter of its block.
  lemma FiltersAdvance(
      blocks: seq<Placed>, offset: nat, offset': nat, covered: seq<seq<Bytes>>, pending: seq<Bytes>,
      covered': seq<seq<Bytes>>, pending': seq<Bytes>)
    requires FiltersOk(blocks, offset, covered, pending)
    requires covered <= covered' && |covered'| == offset' / FILTER_BASE
    requires |covered| == |covered'| ==> pending' == pending
    requires |covered| < |covered'| ==> covered'[|covered|] == pending
    ensures FiltersOk(blocks + [Placed(offset', [])], offset', covered', pending')
  {
    var all := blocks + [Placed(offset', [])];
    forall i | 0 <= i < |all| ensures Filtered(all[i].offset, all[i].items, covered', pending') {
      if i < |blocks| {
        assert Filtered(blocks[i].offset, blocks[i].items, covered, pending);
        assert forall j :: 0 <= j < |covered| ==> covered'[j] == covered[j];
      }
    }
  }

  // ---------- Finished tables, and lookup in them ----------

  ghost predicate FiltersFor(
      blocks: seq<Placed>, filter: FilterContents, covered: seq<seq<Bytes>>, hash: Bytes -> Word)
  {
    && Filters(filter.data, filter.offsets, covered, hash)
    && forall i :: 0 <= i < |blocks| ==> InFilter(blocks[i].offset, blocks[i].items, covered)
  }

  ghost predicate InFilter(offset: nat, items: seq<Item>, covered: seq<seq<Bytes>>) {
    var share := offset / FILTER_BASE;
    share < |covered| ==> forall e :: e in items ==> e.key.user in covered[share]
  }

  // The table holds exactly the items: blocks in order, an index entry between each and the next, and
  // their user keys in their filters.
  ghost predicate IsTableOf(t: TableFile, items: seq<Item>, hash: Bytes -> Word) {
    exists blocks, limit :: IsTableWith(t, items, hash, blocks, limit)
  }

  ghost predicate IsTableWith(t: TableFile, items: seq<Item>, hash: Bytes -> Word, blocks: seq<Placed>, limit: nat) {
    && Written(blocks, t.blocks, limit) && InOrder(blocks) && Holds(blocks, items)
    && IndexOk(t.index, blocks) && |t.index| == |blocks|
    && (t.filter.Some? ==> exists covered :: FiltersFor(blocks, t.filter.value, covered, hash))
  }

  // Every pending key gets into the last filter.
  lemma FiltersEnd(
      blocks: seq<Placed>, offset: nat, covered: seq<seq<Bytes>>, pending: seq<Bytes>, all: seq<seq<Bytes>>)
    requires FiltersOk(blocks + [Placed(offset, [])], offset, covered, pending)
    requires all == if pending == [] then covered else covered + [pending]
    ensures forall i :: 0 <= i < |blocks| ==> InFilter(blocks[i].offset, blocks[i].items, all)
  {
    forall i | 0 <= i < |blocks| ensures InFilter(blocks[i].offset, blocks[i].items, all) {
      assert (blocks + [Placed(offset, [])])[i] == blocks[i];
      assert Filtered(blocks[i].offset, blocks[i].items, covered, pending);
    }
  }

  lemma WithoutEmptyLast(blocks: seq<Placed>, offset: nat, items: seq<Item>, index: seq<IndexEntry>)
    requires var all := blocks + [Placed(offset, [])]; InOrder(all) && Holds(all, items) && IndexOk(index, all)
    requires |index| == |blocks|
    ensures InOrder(blocks) && Holds(blocks, items) && IndexOk(index, blocks)
  {
    hide Separates, Covers, Key.Before;
    var all := blocks + [Placed(offset, [])];
    assert forall i :: 0 <= i < |blocks| ==> all[i] == blocks[i];
    forall e | e in items ensures exists i :: 0 <= i < |blocks| && e in blocks[i].items {
      var i :| 0 <= i < |all| && e in all[i].items;
      assert i < |blocks|;
    }
  }

  // The last index entry: a short key after everything.
  lemma LastCovers(blocks: seq<Placed>, offset: nat, items: seq<Item>, last: Key, s: Key)
    requires Holds(blocks + [Placed(offset, [])], items) && blocks != [] && UpTo(items, last)
    requires s == last || last.Before(s)
    ensures Covers(s, blocks[|blocks| - 1].items)
  {
    forall e | e in blocks[|blocks| - 1].items ensures e.key == s || e.key.Before(s) {
      assert e in (blocks + [Placed(offset, [])])[|blocks| - 1].items;
      KeysAreTotal(e.key, last, s);
    }
  }

  // The first index entry at or after k.
  function SeekIndex(index: seq<IndexEntry>, k: Key): (i: nat)
    ensures i <= |index|
    ensures i < |index| ==> !index[i].key.Before(k)
    ensures forall j :: 0 <= j < i ==> index[j].key.Before(k)
  {
    if index == [] then 0 else if !index[0].key.Before(k) then 0 else 1 + SeekIndex(index[1..], k)
  }

  function SeekItems(items: seq<Item>, k: Key): (i: nat)
    ensures i <= |items|
    ensures i < |items| ==> !items[i].key.Before(k)
    ensures forall j :: 0 <= j < i ==> items[j].key.Before(k)
  {
    if items == [] then 0 else if !items[0].key.Before(k) then 0 else 1 + SeekItems(items[1..], k)
  }

  // InternalGet: what is handed to the caller, if anything, is the first item at or after k; and if that
  // is about k's user key, it is handed over, shortened index keys and filters notwithstanding.
  method InternalGet(t: TableFile, policy: BloomFilterPolicy, k: Key, ghost items: seq<Item>) returns (r: Option<Item>)
    requires IsTableOf(t, items, policy.hash)
    ensures r.Some? ==> FirstFrom(items, k, r.value)
    ensures forall e :: FirstFrom(items, k, e) && e.key.user == k.user ==> r == Some(e)
  {
    hide Written, InOrder, Holds, IndexOk, FiltersFor, FirstFrom, Key.Before, MayMatch;
    ghost var blocks, limit :| IsTableWith(t, items, policy.hash, blocks, limit);
    var b := SeekIndex(t.index, k);
    if b == |t.index| {
      forall e ensures !FirstFrom(items, k, e) {
        PastTheIndex(t.index, blocks, items, k, e);
      }
      return None;
    }
    BlockOfIndex(t.index, blocks, t.blocks, limit, b);
    var offset := t.index[b].offset;
    var data := t.blocks[offset];
    if t.filter.Some? {
      var reader := new FilterBlockReader(policy, t.filter.value);
      var may := reader.KeyMayMatch(offset, k.user);
      if !may {
        forall e | FirstFrom(items, k, e) ensures e.key.user != k.user {
          FilterMisses(t, policy.hash, blocks, items, k, b, e);
        }
        return None;
      }
    }
    var p := SeekItems(data, k);
    if p < |data| {
      r := Some(data[p]);
      FoundInBlock(t.index, blocks, items, k, b, p);
    } else {
      r := None;
      forall e | FirstFrom(items, k, e) ensures e.key.user != k.user {
        NotInBlock(t.index, blocks, items, k, b, e);
      }
    }
  }

  lemma BlockOfIndex(index: seq<IndexEntry>, blocks: seq<Placed>, file: map<nat, seq<Item>>, limit: nat, b: nat)
    requires Written(blocks, file, limit) && IndexOk(index, blocks) && b < |index|
    ensures b < |blocks| && index[b].offset == blocks[b].offset && index[b].offset in file
    ensures file[index[b].offset] == blocks[b].items && blocks[b].items != []
  {
    hide Separates, Covers;
  }

  // Items of earlier blocks are before k.
  lemma BeforeTheBlock(index: seq<IndexEntry>, blocks: seq<Placed>, k: Key, b: nat, e: Item, i: nat)
    requires IndexOk(index, blocks) && b <= |index| && forall j :: 0 <= j < b ==> index[j].key.Before(k)
    requires i < b && e in blocks[i].items
    ensures e.key.Before(k)
  {
    hide Separates;
    assert Covers(index[i].key, blocks[i].items);
    KeysAreTotal(e.key, index[i].key, k);
  }

  lemma PastTheIndex(index: seq<IndexEntry>, blocks: seq<Placed>, items: seq<Item>, k: Key, e: Item)
    requires IndexOk(index, blocks) && |index| == |blocks| && Holds(blocks, items)
    requires forall j :: 0 <= j < |index| ==> index[j].key.Before(k)
    ensures !FirstFrom(items, k, e)
  {
    hide IndexOk;
    if e in items {
      var i :| 0 <= i < |blocks| && e in blocks[i].items;
      BeforeTheBlock(index, blocks, k, |index|, e, i);
    }
  }

  // The first item at or after k is in the block the index leads to, or in a later one; in the latter case
  // the key the index has is past k's user key only if k is.
  lemma FirstIsLater(index: seq<IndexEntry>, blocks: seq<Placed>, items: seq<Item>, k: Key, b: nat, e: Item)
    returns (i: nat)
    requires IndexOk(index, blocks) && Holds(blocks, items) && b < |index|
    requires forall j :: 0 <= j < b ==> index[j].key.Before(k)
    requires e in items && !e.key.Before(k)
    ensures b <= i < |blocks| && e in blocks[i].items
  {
    hide IndexOk, Key.Before;
    i :| 0 <= i < |blocks| && e in blocks[i].items;
    if i < b {
      BeforeTheBlock(index, blocks, k, b, e, i);
    }
  }

  lemma FoundInBlock(index: seq<IndexEntry>, blocks: seq<Placed>, items: seq<Item>, k: Key, b: nat, p: nat)
    requires IndexOk(index, blocks) && InOrder(blocks) && Holds(blocks, items) && b < |index| && b < |blocks|
    requires forall j :: 0 <= j < b ==> index[j].key.Before(k)
    requires p < |blocks[b].items| && !blocks[b].items[p].key.Before(k)
    requires forall j :: 0 <= j < p ==> blocks[b].items[j].key.Before(k)
    ensures FirstFrom(items, k, blocks[b].items[p])
    ensures forall e :: FirstFrom(items, k, e) ==> e == blocks[b].items[p]
  {
    hide IndexOk, Key.Before;
    var data := blocks[b].items;
    var found := data[p];
    assert found in blocks[b].items;
    forall x | x in items && !x.key.Before(k) ensures x == found || found.key.Before(x.key) {
      var i := FirstIsLater(index, blocks, items, k, b, x);
      if i == b {
        var j :| 0 <= j < |data| && data[j] == x;
        assert Ascending(data);
      }
    }
    forall e | FirstFrom(items, k, e) ensures e == found {
      KeysAreTotal(e.key, found.key, e.key);
    }
  }

  // Nothing of the block is at or after k: what is, later on, is about another user key, since the index
  // key is between them and not the block's last key.
  lemma NotInBlock(index: seq<IndexEntry>, blocks: seq<Placed>, items: seq<Item>, k: Key, b: nat, e: Item)
    requires IndexOk(index, blocks) && Holds(blocks, items) && b < |index| && blocks[b].items != []
    requires forall j :: 0 <= j < b ==> index[j].key.Before(k)
    requires !index[b].key.Before(k)
    requires forall j :: 0 <= j < |blocks[b].items| ==> blocks[b].items[j].key.Before(k)
    requires FirstFrom(items, k, e)
    ensures e.key.user != k.user
  {
    var data := blocks[b].items;
    assert forall x :: x in data ==> x.key.Before(k);
    var i := FirstIsLater(index, blocks, items, k, b, e);
    if i > b {
      assert Separates(index[b].key, data, e);
      assert data[|data| - 1].key.Before(k);
      BytewiseIsTotal(k.user, index[b].key.user, e.key.user);
      KeysAreTotal(k, index[b].key, k);
    }
  }

  lemma FilterMisses(t: TableFile, hash: Bytes -> Word, blocks: seq<Placed>, items: seq<Item>, k: Key, b: nat, e: Item)
    requires t.filter.Some? && exists covered :: FiltersFor(blocks, t.filter.value, covered, hash)
    requires IndexOk(t.index, blocks) && Holds(blocks, items) && b < |t.index| && InOrder(blocks)
    requires blocks[b].items != [] && !t.index[b].key.Before(k)
    requires forall j :: 0 <= j < b ==> t.index[j].key.Before(k)
    requires FirstFrom(items, k, e) && !MayMatch(t.filter.value, hash, blocks[b].offset, k.user)
    ensures e.key.user != k.user
  {
    hide IndexOk, Key.Before, MayMatch, Filters, InOrder;
    var covered :| FiltersFor(blocks, t.filter.value, covered, hash);
    var i := FirstIsLater(t.index, blocks, items, k, b, e);
    if i == b {
      assert InFilter(blocks[b].offset, blocks[b].items, covered);
      if e.key.user == k.user {
        CoveredKeysMatch(t.filter.value, covered, hash, blocks[b].offset, k.user);
      }
    } else {
      AllBeforeLater(blocks, items, k, b, i, e);
      NotInBlock(t.index, blocks, items, k, b, e);
    }
  }

  // The first item at or after k is in block i: all of an earlier block is before k.
  lemma AllBeforeLater(blocks: seq<Placed>, items: seq<Item>, k: Key, b: nat, i: nat, e: Item)
    requires InOrder(blocks) && Holds(blocks, items) && b < i < |blocks| && e in blocks[i].items
    requires FirstFrom(items, k, e)
    ensures forall j :: 0 <= j < |blocks[b].items| ==> blocks[b].items[j].key.Before(k)
  {
    hide Key.Before;
    forall j | 0 <= j < |blocks[b].items| ensures blocks[b].items[j].key.Before(k) {
      var x := blocks[b].items[j];
      assert x in blocks[b].items && x in items && x.key.Before(e.key);
      KeysAreTotal(x.key, e.key, x.key);
    }
  }
}
