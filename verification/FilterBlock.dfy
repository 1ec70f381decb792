/** Filter blocks (table/filter_block.cc): one Bloom filter for the keys of all data blocks that start
    in the same 2 KiB of the table file. */
module FilterBlock {
  import opened Dbformat
  import opened Bloom

  const FILTER_BASE_LG: nat := 11
  const FILTER_BASE: nat := 2048

  // ---------- What a filter block says ----------

  // The filters in `data`, one starting at each offset, match the keys they are for.
  ghost predicate Filters(data: seq<bv8>, offsets: seq<nat>, covered: seq<seq<Bytes>>, hash: Bytes -> Word) {
    && |covered| == |offsets|
    && (forall i :: 0 <= i < |offsets| ==> offsets[i] <= FilterEnd(data, offsets, i) <= |data|)
    && forall i, key :: 0 <= i < |offsets| && key in covered[i] ==>
         Matches(data[offsets[i]..FilterEnd(data, offsets, i)], hash(key))
  }

  function FilterEnd(data: seq<bv8>, offsets: seq<nat>, i: nat): nat
    requires i < |offsets|
  {
    if i + 1 < |offsets| then offsets[i + 1] else |data|
  }

  // The finished block: the filters and the array of their offsets.
  datatype FilterContents = FilterContents(data: seq<bv8>, offsets: seq<nat>)

  class FilterBlockBuilder {
    const policy: BloomFilterPolicy
    var keys: Bytes               // flattened key contents
    var start: seq<nat>           // the starting position in keys of each key
    var result: seq<bv8>          // filters computed so far
    var filterOffsets: seq<nat>
    ghost var pending: seq<Bytes>           // the keys whose filter is still to be made
    ghost var covered: seq<seq<Bytes>>      // the keys of each filter made

    ghost predicate Valid()
      reads this
    {
      && policy.Valid()
      && Filters(result, filterOffsets, covered, policy.hash)
      && Flattened(keys, start, pending)
    }

    constructor (p: BloomFilterPolicy)
      requires p.Valid()
      ensures Valid() && policy == p && pending == [] && covered == []
    {
      policy := p;
      keys, start, result, filterOffsets, pending, covered := [], [], [], [], [], [];
    }

    // A data block starts at this offset of the file: filters are made up to its share of the file.
    method StartBlock(blockOffset: nat)
      requires Valid() && blockOffset / FILTER_BASE >= |covered|
      modifies this
      ensures Valid() && |covered| == blockOffset / FILTER_BASE
      ensures old(covered) <= covered
      ensures |old(covered)| == |covered| ==> pending == old(pending)
      ensures |old(covered)| < |covered| ==> pending == [] && covered[|old(covered)|] == old(pending)
    {
      var filterIndex := blockOffset / FILTER_BASE;
      while filterIndex > |filterOffsets|
        invariant Valid() && |old(covered)| <= |covered| <= filterIndex && old(covered) <= covered
        invariant |old(covered)| == |covered| ==> pending == old(pending)
        invariant |old(covered)| < |covered| ==> pending == [] && covered[|old(covered)|] == old(pending)
      {
        GenerateFilter();
      }
    }

    method AddKey(key: Bytes)
      requires Valid()
      modifies this
      ensures Valid() && covered == old(covered) && pending == old(pending) + [key]
    {
      FlattenedMore(keys, start, pending, key);
      start := start + [|keys|];
      keys := keys + key;
      pending := pending + [key];
    }

    // Makes the filter of the pending keys; nothing is stored if there are none.
    method GenerateFilter()
      requires Valid()
      modifies this
      ensures Valid() && pending == [] && covered == old(covered) + [old(pending)]
    {
      hide Matches, Filters, Flattened, OnlyProbes;
      SameNumber(keys, start, pending);
      ghost var result0, offsets0 := result, filterOffsets;
      filterOffsets := filterOffsets + [|result|];
      if |start| > 0 {
        var tmpKeys := KeyList();
        result := policy.CreateFilter(tmpKeys, result);
      }
      FiltersMore(result0, offsets0, covered, policy.hash, result, pending);
      covered := covered + [pending];
      keys, start, pending := [], [], [];
      FlattenedNone();
    }

    // The list of keys from the flattened key structure.
    method KeyList() returns (r: seq<Bytes>)
      requires Flattened(keys, start, pending)
      ensures r == pending
    {
      r := [];
      for i := 0 to |start|
        invariant r == pending[..i]
      {
        var limit := if i + 1 < |start| then start[i + 1] else |keys|;
        r := r + [keys[start[i]..limit]];
      }
    }

    method Finish() returns (contents: FilterContents)
      requires Valid()
      modifies this
      ensures Filters(contents.data, contents.offsets, covered, policy.hash)
      ensures covered == if old(pending) == [] then old(covered) else old(covered) + [old(pending)]
    {
      hide Filters;
      if |start| > 0 {
        GenerateFilter();
      }
      contents := FilterContents(result, filterOffsets);
    }
  }

  // keys is the concatenation of the pending keys, start their positions.
  ghost predicate Flattened(keys: Bytes, start: seq<nat>, pending: seq<Bytes>) {
    && |start| == |pending|
    && (forall i :: 0 <= i < |start| ==> start[i] + |pending[i]| == (if i + 1 < |start| then start[i + 1] else |keys|))
    && (forall i ::
         0 <= i < |start| ==>
         start[i] + |pending[i]| <= |keys| && keys[start[i]..start[i] + |pending[i]|] == pending[i])
  }

  lemma SameNumber(keys: Bytes, start: seq<nat>, pending: seq<Bytes>)
    requires Flattened(keys, start, pending)
    ensures |start| == |pending|
  {
  }

  lemma FlattenedNone()
    ensures Flattened([], [], [])
  {
  }

  lemma FlattenedMore(keys: Bytes, start: seq<nat>, pending: seq<Bytes>, key: Bytes)
    requires Flattened(keys, start, pending)
    ensures Flattened(keys + key, start + [|keys|], pending + [key])
  {
    var keys', start', pending' := keys + key, start + [|keys|], pending + [key];
    forall i | 0 <= i < |start'|
      ensures start'[i] + |pending'[i]| == (if i + 1 < |start'| then start'[i + 1] else |keys'|)
      ensures start'[i] + |pending'[i]| <= |keys'| && keys'[start'[i]..start'[i] + |pending'[i]|] == pending'[i]
    {
      if i < |start| {
        assert start'[i] == start[i] && pending'[i] == pending[i];
        assert start[i] + |pending[i]| == if i + 1 < |start| then start[i + 1] else |keys|;
        assert i + 1 < |start| ==> start'[i + 1] == start[i + 1];
        assert keys'[start[i]..start[i] + |pending[i]|] == keys[start[i]..start[i] + |pending[i]|];
      }
    }
  }

  // A further filter, at the end of the data, leaves the others as they are.
  lemma FiltersMore(
      data: seq<bv8>, offsets: seq<nat>, covered: seq<seq<Bytes>>, hash: Bytes -> Word, data': seq<bv8>,
      more: seq<Bytes>)
    requires Filters(data, offsets, covered, hash) && data <= data'
    requires forall i :: 0 <= i < |more| ==> Matches(data'[|data|..], hash(more[i]))
    ensures Filters(data', offsets + [|data|], covered + [more], hash)
  {
    hide Matches;
    var offsets', covered' := offsets + [|data|], covered + [more];
    forall i | 0 <= i < |offsets'| ensures offsets'[i] <= FilterEnd(data', offsets', i) <= |data'| {
      if i < |offsets| {
        assert FilterEnd(data', offsets', i) == FilterEnd(data, offsets, i);
      }
    }
    forall i, key | 0 <= i < |offsets'| && key in covered'[i]
      ensures Matches(data'[offsets'[i]..FilterEnd(data', offsets', i)], hash(key))
    {
      if i < |offsets| {
        assert FilterEnd(data', offsets', i) == FilterEnd(data, offsets, i);
        assert data'[offsets[i]..FilterEnd(data, offsets, i)] == data[offsets[i]..FilterEnd(data, offsets, i)];
      } else {
        var j :| 0 <= j < |more| && more[j] == key;
        assert data'[|data|..|data'|] == data'[|data|..];
      }
    }
  }

  class FilterBlockReader {
    const policy: BloomFilterPolicy
    const contents: FilterContents

    constructor (p: BloomFilterPolicy, c: FilterContents)
      ensures policy == p && contents == c
    {
      policy, contents := p, c;
    }

    // No key of a data block is missed: a key covered by the filter for the block's offset may match.
    method KeyMayMatch(blockOffset: nat, key: Bytes) returns (b: bool)
      ensures b <==> MayMatch(contents, policy.hash, blockOffset, key)
    {
      var index := blockOffset / FILTER_BASE;
      if index < |contents.offsets| {
        var start := contents.offsets[index];
        var limit := FilterEnd(contents.data, contents.offsets, index);
        if start <= limit && limit <= |contents.data| {
          b := policy.KeyMayMatch(key, contents.data[start..limit]);
          return;
        } else if start == limit {
          return false;  // empty filters do not match any keys
        }
      }
      return true;  // errors are treated as potential matches
    }
  }

  ghost predicate MayMatch(contents: FilterContents, hash: Bytes -> Word, blockOffset: nat, key: Bytes) {
    var index := blockOffset / FILTER_BASE;
    index < |contents.offsets| ==>
      var start, limit := contents.offsets[index], FilterEnd(contents.data, contents.offsets, index);
      if start <= limit && limit <= |contents.data| then Matches(contents.data[start..limit], hash(key))
        else start != limit
  }

  lemma CoveredKeysMatch(
      contents: FilterContents, covered: seq<seq<Bytes>>, hash: Bytes -> Word, blockOffset: nat, key: Bytes)
    requires Filters(contents.data, contents.offsets, covered, hash)
    requires blockOffset / FILTER_BASE < |covered| ==> key in covered[blockOffset / FILTER_BASE]
    ensures MayMatch(contents, hash, blockOffset, key)
  {
    hide Matches;
  }
}
