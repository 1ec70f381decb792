/** What write batches mean to later reads (db/write_batch.cc, MemTableInserter): the last operation about a
    key decides. */
module Updates {
  import opened Dbformat
  import opened History
  import opened Batch
  import opened Engine

  // The last of the operations that is about k.
  function LastAbout(ops: seq<Op>, k: UserKey): (r: Option<Op>)
    ensures r.Some? ==> r.value in ops && r.value.key == k
    ensures r.None? ==> forall op :: op in ops ==> op.key != k
  {
    if ops == [] then None
    else
      var last := ops[|ops| - 1];
      assert ops == ops[..|ops| - 1] + [last];
      if last.key == k then Some(last) else LastAbout(ops[..|ops| - 1], k)
  }

  // What a read gives after it.
  function Effect(op: Option<Op>, before: Lookup): Lookup {
    match op
    case None => before
    case Some(Put(_, value)) => Found(value)
    case Some(Delete(_)) => NotFound
  }

  // A store as a map, and the operations on it.
  function Updated(m: map<UserKey, Bytes>, ops: seq<Op>): map<UserKey, Bytes>
    decreases |ops|
  {
    if ops == [] then m
    else
      match ops[0]
      case Put(key, value) => Updated(m[key := value], ops[1..])
      case Delete(key) => Updated(m - {key}, ops[1..])
  }

  function ValueIn(m: map<UserKey, Bytes>, k: UserKey): Lookup { if k in m then Found(m[k]) else NotFound }

  lemma {:induction false} UpdatedIsEffect(m: map<UserKey, Bytes>, ops: seq<Op>, k: UserKey)
    ensures ValueIn(Updated(m, ops), k) == Effect(LastAbout(ops, k), ValueIn(m, k))
    decreases |ops|
  {
    if ops != [] {
      var n := match ops[0] case Put(key, value) => m[key := value] case Delete(key) => m - {key};
      UpdatedIsEffect(n, ops[1..], k);
      LastOfRest(ops, k);
    }
  }

  lemma {:induction false} LastOfRest(ops: seq<Op>, k: UserKey)
    requires ops != []
    ensures LastAbout(ops, k) ==
            if LastAbout(ops[1..], k).Some? then LastAbout(ops[1..], k)
            else if ops[0].key == k then Some(ops[0]) else None
  {
    var init := ops[..|ops| - 1];
    if init != [] {
      assert ops[1..][..|ops| - 2] == init[1..];
      LastOfRest(init, k);
    }
  }

  // One more write is what later reads of its key see, and all that they see anew.
  lemma ReadAfterOne(h: Writes, op: Op, k: UserKey)
    requires IsHistory(h)
    ensures IsHistory(h + [Some(EntryOf(op, |h| + 1))])
    ensures Read(h + [Some(EntryOf(op, |h| + 1))], k, |h| + 1) ==
            if op.key == k then Effect(Some(op), NotFound) else Read(h, k, |h|)
  {
    var all := h + [Some(EntryOf(op, |h| + 1))];
    NewestWriteInPrefix(all, |h|, k, |h|);
    assert all[..|h|] == h;
  }

  lemma LastIsOneMore(h: Writes, ops: seq<Op>)
    requires ops != []
    ensures var init := ops[..|ops| - 1];
            h + Somes(NumberedFrom(ops, |h|)) ==
            h + Somes(NumberedFrom(init, |h|)) + [Some(EntryOf(ops[|ops| - 1], |h| + |ops|))]
  {
    hide EntryOf;
  }

  // Writing the operations, numbered on from the history, has their effect on every read after them.
  lemma {:induction false} ReadAfterOps(h: Writes, ops: seq<Op>, k: UserKey)
    requires IsHistory(h)
    ensures Read(h + Somes(NumberedFrom(ops, |h|)), k, |h| + |ops|) == Effect(LastAbout(ops, k), Read(h, k, |h|))
    ensures IsHistory(h + Somes(NumberedFrom(ops, |h|)))
  {
    hide Read, IsHistory, EntryOf, Somes, NumberedFrom;
    if ops == [] {
      assert h + Somes(NumberedFrom(ops, |h|)) == h;
    } else {
      var init, last := ops[..|ops| - 1], ops[|ops| - 1];
      ReadAfterOps(h, init, k);
      ReadAfterOne(h + Somes(NumberedFrom(init, |h|)), last, k);
      LastIsOneMore(h, ops);
    }
  }
}
