/** Write batches and memtables (db/write_batch.cc, db/memtable.cc). */
module Batch {
  import opened Dbformat

  datatype Op = Put(key: UserKey, value: Bytes) | Delete(key: UserKey)

  type WriteBatch = seq<Op>

  // A thread in DB::Write; without a batch it only asks for a memtable compaction.
  datatype Writer = Writer(batch: Option<WriteBatch>, sync: bool)

  function EntryOf(op: Op, sequence: nat): Entry {
    match op
    case Put(key, value) => Entry(InternalKey(key, sequence, Value), value)
    case Delete(key) => Entry(InternalKey(key, sequence, Deletion), [])
  }

  // The entries the operations become when the first has sequence number n + 1.
  function NumberedFrom(ops: seq<Op>, n: nat): (es: seq<Entry>)
    ensures |es| == |ops|
    ensures forall i :: 0 <= i < |es| ==> es[i] == EntryOf(ops[i], n + 1 + i) && es[i].key.sequence == n + 1 + i
  {
    seq(|ops|, i requires 0 <= i < |ops| => EntryOf(ops[i], n + 1 + i))
  }

  lemma NumberedConcat(a: seq<Op>, b: seq<Op>, n: nat)
    ensures NumberedFrom(a + b, n) == NumberedFrom(a, n) + NumberedFrom(b, n + |a|)
  {
  }

  // Everything the writers write, in queue order.
  function Ops(writers: seq<Writer>): seq<Op> {
    if writers == [] then []
    else
      var w := writers[|writers| - 1];
      Ops(writers[..|writers| - 1]) + (if w.batch.Some? then w.batch.value else [])
  }

  lemma {:induction false} OpsConcat(a: seq<Writer>, b: seq<Writer>)
    ensures Ops(a + b) == Ops(a) + Ops(b)
  {
    if b == [] {
      assert a + b == a;
    } else {
      var init := b[..|b| - 1];
      OpsConcat(a, init);
      assert (a + b)[..|a + b| - 1] == a + init;
      assert (a + b)[|a + b| - 1] == b[|b| - 1];
    }
  }

  lemma OpsOfOne(w: Writer)
    ensures Ops([w]) == if w.batch.Some? then w.batch.value else []
  {
    assert [w][..0] == [];
  }

  // MemTable::Add: the entry goes to its place in key order.
  function Add(mem: seq<Entry>, e: Entry): (r: seq<Entry>)
    ensures forall x :: x in r <==> x in mem || x == e
  {
    if mem == [] then [e]
    else if e.key.Before(mem[0].key) then [e] + mem
    else
      assert mem == [mem[0]] + mem[1..];
      [mem[0]] + Add(mem[1..], e)
  }

  lemma {:induction false} AddKeepsSorted(mem: seq<Entry>, e: Entry)
    requires Sorted(mem) && forall x :: x in mem ==> x.key != e.key
    ensures Sorted(Add(mem, e))
    ensures ToSet(Add(mem, e)) == ToSet(mem) + {e}
  {
    hide InternalKey.Before;
    if mem != [] {
      BeforeIsTotal(e.key, mem[0].key, e.key);
      if e.key.Before(mem[0].key) {
        forall i | 0 <= i < |mem| ensures e.key.Before(mem[i].key) {
          BeforeIsTotal(e.key, mem[0].key, mem[i].key);
        }
      } else {
        AddKeepsSorted(mem[1..], e);
        var rest := Add(mem[1..], e);
        forall i | 0 <= i < |rest| ensures mem[0].key.Before(rest[i].key) {
          assert rest[i] in rest;
          if rest[i] != e {
            var j :| 1 <= j < |mem| && mem[j] == rest[i];
          }
        }
      }
    }
  }

  // ---------- Groups of batches ----------

  // A leader may write this many of the queue: no sync write if the leader's is not.
  ghost predicate GroupOk(writers: seq<Writer>, n: nat) {
    && 1 <= n <= |writers|
    && (!writers[0].sync ==> forall i :: 0 <= i < n ==> !writers[i].sync)
  }

  function TotalBytes(writers: seq<Writer>, byteSize: WriteBatch -> nat): nat {
    if writers == [] then 0
    else
      var w := writers[|writers| - 1];
      TotalBytes(writers[..|writers| - 1], byteSize) + (if w.batch.Some? then byteSize(w.batch.value) else 0)
  }

  lemma TotalBytesOfMore(writers: seq<Writer>, i: nat, byteSize: WriteBatch -> nat)
    requires i < |writers|
    ensures TotalBytes(writers[..i + 1], byteSize) ==
            TotalBytes(writers[..i], byteSize) +
                (if writers[i].batch.Some? then byteSize(writers[i].batch.value) else 0)
  {
    assert writers[..i + 1][..i] == writers[..i];
  }

  // The size up to which a group may grow: little more than a small first write.
  function MaxGroupBytes(first: nat): nat { if first <= 131072 then first + 131072 else 1048576 }

  // The first n writers fit the size, and the next one does not or may not join.
  ghost predicate IsLongestGroup(writers: seq<Writer>, n: nat, byteSize: WriteBatch -> nat)
    requires 1 <= n <= |writers| && writers[0].batch.Some?
  {
    var first := byteSize(writers[0].batch.value);
    && TotalBytes(writers[..n], byteSize) <= (if first < MaxGroupBytes(first) then MaxGroupBytes(first) else first)
    && (n < |writers| ==>
          || (writers[n].sync && !writers[0].sync)
          || TotalBytes(writers[..n + 1], byteSize) > MaxGroupBytes(first))
  }

  lemma GroupIsLongest(writers: seq<Writer>, n: nat, byteSize: WriteBatch -> nat)
    requires 1 <= n <= |writers| && writers[0].batch.Some?
    requires var first := byteSize(writers[0].batch.value);
             TotalBytes(writers[..n], byteSize) <= if first < MaxGroupBytes(first) then MaxGroupBytes(first) else first
    requires n < |writers| ==>
               || (writers[n].sync && !writers[0].sync)
               || TotalBytes(writers[..n + 1], byteSize) > MaxGroupBytes(byteSize(writers[0].batch.value))
    ensures IsLongestGroup(writers, n, byteSize)
  {
    hide TotalBytes, MaxGroupBytes;
  }

  // BuildBatchGroup: the batches of a front part of the queue as one, cut off before the first sync
  // write a non-sync leader would have to make durable, and by size.
  method BuildBatchGroup(writers: seq<Writer>, byteSize: WriteBatch -> nat)
    returns (result: WriteBatch, lastWriter: nat)
    requires writers != [] && writers[0].batch.Some?
    ensures lastWriter < |writers| && GroupOk(writers, lastWriter + 1)
    ensures result == Ops(writers[..lastWriter + 1])
    ensures IsLongestGroup(writers, lastWriter + 1, byteSize)
  {
    hide IsLongestGroup;
    var first := writers[0];
    result := first.batch.value;
    var size := byteSize(first.batch.value);
    // allow the group to grow, but not by much if the first write is small
    var maxSize := 1048576;
    if size <= 131072 {
      maxSize := size + 131072;
    }
    lastWriter := 0;
    OpsOfOne(first);
    assert writers[..1] == [first] && writers[..0] == [];
    TotalBytesOfMore(writers, 0, byteSize);
    for i := 1 to |writers|
      invariant lastWriter == i - 1 && GroupOk(writers, lastWriter + 1)
      invariant result == Ops(writers[..lastWriter + 1])
      invariant size == TotalBytes(writers[..lastWriter + 1], byteSize)
      invariant size <= maxSize || size == byteSize(first.batch.value)
    {
      var w := writers[i];
      if w.sync && !first.sync {
        // no sync write in a batch handled by a non-sync write
        break;
      }
      assert writers[..i + 1] == writers[..i] + [w];
      OpsConcat(writers[..i], [w]);
      OpsOfOne(w);
      TotalBytesOfMore(writers, i, byteSize);
      if w.batch.Some? {
        size := size + byteSize(w.batch.value);
        if size > maxSize {
          break;
        }
        result := result + w.batch.value;
      }
      lastWriter := i;
    }
    GroupIsLongest(writers, lastWriter + 1, byteSize);
  }
}
