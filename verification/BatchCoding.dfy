/** Write batches as the bytes that go to the log (db/write_batch.cc): a sequence number, a count, and
    the operations one after the other. */
module BatchCoding {
  import opened Dbformat
  import opened Coding
  import opened EditCoding

  const HEADER: nat := 12
  const TYPE_DELETION: byte := 0
  const TYPE_VALUE: byte := 1

  datatype Op = Put(key: Bytes, value: Bytes) | Delete(key: Bytes)

  // ---------- Operations ----------

  function OpBytes(op: Op): (r: Bytes)
    ensures |r| > 0
  {
    match op
    case Put(key, value) => [TYPE_VALUE] + (Prefixed(key) + Prefixed(value))
    case Delete(key) => [TYPE_DELETION] + Prefixed(key)
  }

  function OpsBytes(ops: seq<Op>): Bytes {
    if ops == [] then [] else OpBytes(ops[0]) + OpsBytes(ops[1..])
  }

  lemma {:induction false} OpsBytesConcat(a: seq<Op>, b: seq<Op>)
    ensures OpsBytes(a + b) == OpsBytes(a) + OpsBytes(b)
  {
    hide OpBytes;
    if a == [] {
      assert a + b == b;
    } else {
      assert (a + b)[1..] == a[1..] + b;
      OpsBytesConcat(a[1..], b);
    }
  }

  lemma OpsBytesOne(op: Op)
    ensures OpsBytes([op]) == OpBytes(op)
  {
    hide OpBytes;
    assert [op][1..] == [];
  }

  // What Slices hold: lengths are 32 bits wide.
  ghost predicate Fits(op: Op) { |op.key| < LIMIT32 && (op.Put? ==> |op.value| < LIMIT32) }

  ghost predicate AllFit(ops: seq<Op>) { forall i :: 0 <= i < |ops| ==> Fits(ops[i]) }

  // ---------- Reading ----------

  function OpAt(data: Bytes, p: nat): (r: Option<(Op, nat)>)
    requires p < |data|
    ensures r.Some? ==> p < r.value.1 <= |data|
  {
    if data[p] == TYPE_VALUE then
      var key := Slice(data, p + 1);
      if key.None? then None else
      var value := Slice(data, key.value.1);
      if value.None? then None else Some((Put(key.value.0, value.value.0), value.value.1))
    else if data[p] == TYPE_DELETION then
      var key := Slice(data, p + 1);
      if key.None? then None else Some((Delete(key.value.0), key.value.1))
    else None
  }

  // The operations from p on up to the first that is malformed, and whether there is none such.
  function OpsFrom(data: Bytes, p: nat): (seq<Op>, bool)
    requires p <= |data|
    decreases |data| - p
  {
    if p == |data| then ([], true)
    else
      var op := OpAt(data, p);
      if op.None? then ([], false)
      else
        var rest := OpsFrom(data, op.value.1);
        ([op.value.0] + rest.0, rest.1)
  }

  // A length that is cut off, or what it counts, is malformed.
  lemma CutSliceFails(data: Bytes, p: nat, s: Bytes, n: nat)
    requires p + n == |data| && |s| < LIMIT32 && n < |Prefixed(s)| && data[p..] == Prefixed(s)[..n]
    ensures Slice(data, p) == None
  {
    hide PutVarint32, GetVarint;
    var b := PutVarint32(|s|);
    if n < |b| {
      forall i | p <= i < |data| ensures data[i] >= 128 {
        assert data[i] == data[p..][i - p] == b[i - p];
        PutContinues(|s|, i - p);
      }
      GetVarintEnds(data, p, |data|, 5);
    } else {
      assert data[p..p + |b|] == data[p..][..|b|] == b;
      Varint32OfPut(data, p, |data|, |s|);
    }
  }

  // So is an operation that is cut off anywhere.
  lemma CutOpFails(data: Bytes, p: nat, op: Op, n: nat)
    requires p + n == |data| && Fits(op) && 0 < n < |OpBytes(op)| && data[p..] == OpBytes(op)[..n]
    ensures OpAt(data, p) == None
  {
    hide Slice, Prefixed;
    assert data[p] == data[p..][0] == OpBytes(op)[0];
    assert data[p + 1..] == data[p..][1..] == OpBytes(op)[1..n];
    match op
    case Put(key, value) =>
      var k, v := Prefixed(key), Prefixed(value);
      assert OpBytes(op)[1..] == k + v;
      assert data[p + 1..] == (k + v)[..n - 1];
      if n - 1 < |k| {
        assert data[p + 1..] == k[..n - 1];
        CutSliceFails(data, p + 1, key, n - 1);
      } else {
        assert data[p + 1..p + 1 + |k|] == data[p + 1..][..|k|] == k;
        SliceOfPrefixed(data, p + 1, key);
        assert data[p + 1 + |k|..] == data[p + 1..][|k|..] == v[..n - 1 - |k|];
        CutSliceFails(data, p + 1 + |k|, value, n - 1 - |k|);
      }
    case Delete(key) =>
      assert OpBytes(op)[1..] == Prefixed(key);
      CutSliceFails(data, p + 1, key, n - 1);
  }

  // Of operations cut off anywhere those that are whole are handed out; the rest is malformed.
  lemma {:induction false} CutOpsReadBack(data: Bytes, p: nat, ops: seq<Op>, n: nat) returns (k: nat)
    requires AllFit(ops) && n <= |OpsBytes(ops)| && p + n == |data| && data[p..] == OpsBytes(ops)[..n]
    ensures k <= |ops| && |OpsBytes(ops[..k])| <= n && (k < |ops| ==> n < |OpsBytes(ops[..k + 1])|)
    ensures OpsFrom(data, p) == (ops[..k], n == |OpsBytes(ops[..k])|)
    decreases |ops|
  {
    hide OpBytes, OpAt, Fits;
    assert ops[..0] == [];
    if ops == [] || n == 0 {
      k := 0;
      if ops != [] {
        FirstOps(ops, 0);
      }
    } else {
      var b := OpBytes(ops[0]);
      FirstOps(ops, 0);
      if n < |b| {
        k := 0;
        assert data[p..] == b[..n];
        CutOpFails(data, p, ops[0], n);
      } else {
        assert data[p..p + |b|] == data[p..][..|b|] == b;
        OpReadsBack(data, p, ops[0]);
        assert data[p + |b|..] == data[p..][|b|..] == OpsBytes(ops[1..])[..n - |b|];
        var j := CutOpsReadBack(data, p + |b|, ops[1..], n - |b|);
        k := j + 1;
        FirstOps(ops, j);
        if k < |ops| {
          FirstOps(ops, k);
        }
        assert [ops[0]] + ops[1..][..j] == ops[..k];
      }
    }
  }

  lemma FirstOps(ops: seq<Op>, j: nat)
    requires ops != [] && j < |ops|
    ensures OpsBytes(ops[..j + 1]) == OpBytes(ops[0]) + OpsBytes(ops[1..][..j])
  {
    hide OpBytes;
    assert ops[..j + 1][1..] == ops[1..][..j];
  }

  lemma OpReadsBack(data: Bytes, p: nat, op: Op)
    requires p < |data| && Fits(op) && Starts(data, p, |data|, OpBytes(op))
    ensures OpAt(data, p) == Some((op, p + |OpBytes(op)|))
  {
    hide Slice, Prefixed, Starts;
    match op
    case Put(key, value) =>
      StartsSplit(data, p, |data|, [TYPE_VALUE], Prefixed(key) + Prefixed(value));
      TagAt(data, p, TYPE_VALUE);
      StartsSplit(data, p + 1, |data|, Prefixed(key), Prefixed(value));
      SliceOfPrefixed(data, p + 1, key);
      SliceOfPrefixed(data, p + 1 + |Prefixed(key)|, value);
    case Delete(key) =>
      StartsSplit(data, p, |data|, [TYPE_DELETION], Prefixed(key));
      TagAt(data, p, TYPE_DELETION);
      SliceOfPrefixed(data, p + 1, key);
  }

  lemma TagAt(data: Bytes, p: nat, tag: byte)
    requires p < |data| && Starts(data, p, |data|, [tag])
    ensures data[p] == tag
  {
    assert data[p] == data[p..p + 1][0];
  }

  lemma {:induction false} OpsReadBack(data: Bytes, p: nat, ops: seq<Op>)
    requires p <= |data| && AllFit(ops) && data[p..] == OpsBytes(ops)
    ensures OpsFrom(data, p) == (ops, true)
    decreases |ops|
  {
    hide OpBytes, OpAt, Fits;
    if ops != [] {
      var b := OpBytes(ops[0]);
      assert data[p..p + |b|] == data[p..][..|b|] == b;
      OpReadsBack(data, p, ops[0]);
      assert data[p + |b|..] == data[p..][|b|..] == OpsBytes(ops[1..]);
      OpsReadBack(data, p + |b|, ops[1..]);
      assert [ops[0]] + ops[1..] == ops;
    }
  }

  // ---------- The class ----------

  // The bytes of the batch: its sequence number, how many operations, and they.
  ghost predicate IsBatch(rep: Bytes, sequence: nat, ops: seq<Op>) {
    && sequence < LIMIT64 && |ops| < LIMIT32 && AllFit(ops)
    && rep == EncodeFixed(sequence, 8) + EncodeFixed(|ops|, 4) + OpsBytes(ops)
  }

  lemma Parts(rep: Bytes, sequence: nat, ops: seq<Op>)
    requires IsBatch(rep, sequence, ops)
    ensures |rep| >= HEADER && rep[HEADER..] == OpsBytes(ops)
    ensures DecodeFixed(rep[..8]) == sequence && DecodeFixed(rep[8..HEADER]) == |ops|
  {
    hide OpsBytes, EncodeFixed, DecodeFixed;
    Widths();
    FixedReadsBack(sequence, 8);
    FixedReadsBack(|ops|, 4);
    assert rep[..8] == EncodeFixed(sequence, 8) && rep[8..HEADER] == EncodeFixed(|ops|, 4);
  }

  class WriteBatch {
    var rep: Bytes
    ghost var sequence: nat
    ghost var ops: seq<Op>

    ghost predicate Valid()
      reads this
    {
      IsBatch(rep, sequence, ops)
    }

    constructor ()
      ensures Valid() && ops == []
    {
      rep := EncodeFixed(0, 8) + EncodeFixed(0, 4);
      sequence, ops := 0, [];
    }

    // SetContents, as for a record of the log; any bytes will do.
    constructor SetContents(contents: Bytes)
      ensures rep == contents
    {
      rep := contents;
      sequence, ops := 0, [];
    }

    method Sequence() returns (s: nat)
      requires Valid()
      ensures s == sequence
    {
      Parts(rep, sequence, ops);
      s := DecodeFixed(rep[..8]);
    }

    method Count() returns (n: nat)
      requires Valid()
      ensures n == |ops|
    {
      Parts(rep, sequence, ops);
      n := DecodeFixed(rep[8..HEADER]);
    }

    method SetSequence(s: nat)
      requires Valid() && s < LIMIT64
      modifies this
      ensures Valid() && sequence == s && ops == old(ops)
    {
      hide OpsBytes, EncodeFixed, AllFit;
      Parts(rep, sequence, ops);
      assert rep[8..] == EncodeFixed(|ops|, 4) + OpsBytes(ops);
      rep := EncodeFixed(s, 8) + rep[8..];
      sequence := s;
    }

    method Put(key: Bytes, value: Bytes)
      requires Valid() && |key| < LIMIT32 && |value| < LIMIT32 && |ops| + 1 < LIMIT32
      modifies this
      ensures Valid() && sequence == old(sequence) && ops == old(ops) + [Op.Put(key, value)]
    {
      hide OpsBytes, OpBytes, EncodeFixed, Prefixed;
      Extend(Op.Put(key, value), OpBytes(Op.Put(key, value)));
    }

    method Delete(key: Bytes)
      requires Valid() && |key| < LIMIT32 && |ops| + 1 < LIMIT32
      modifies this
      ensures Valid() && sequence == old(sequence) && ops == old(ops) + [Op.Delete(key)]
    {
      hide OpsBytes, OpBytes, EncodeFixed, Prefixed;
      Extend(Op.Delete(key), OpBytes(Op.Delete(key)));
    }

    // One more operation: the count goes up and the record goes to the end.
    method Extend(ghost op: Op, record: Bytes)
      requires Valid() && Fits(op) && record == OpBytes(op) && |ops| + 1 < LIMIT32
      modifies this
      ensures Valid() && sequence == old(sequence) && ops == old(ops) + [op]
    {
      hide OpsBytes, OpBytes, EncodeFixed, Fits;
      Parts(rep, sequence, ops);
      OpsBytesConcat(ops, [op]);
      OpsBytesOne(op);
      assert rep[..8] == EncodeFixed(sequence, 8);
      var n := Count();
      rep := rep[..8] + EncodeFixed(n + 1, 4) + (rep[HEADER..] + record);
      ops := ops + [op];
    }

    method Append(src: WriteBatch)
      requires Valid() && src.Valid() && src != this && |ops| + |src.ops| < LIMIT32
      modifies this
      ensures Valid() && sequence == old(sequence) && ops == old(ops) + src.ops
    {
      hide OpsBytes, OpBytes, EncodeFixed, Fits;
      Parts(rep, sequence, ops);
      Parts(src.rep, src.sequence, src.ops);
      OpsBytesConcat(ops, src.ops);
      assert rep[..8] == EncodeFixed(sequence, 8);
      var n := Count();
      var m := src.Count();
      rep := rep[..8] + EncodeFixed(n + m, 4) + (rep[HEADER..] + src.rep[HEADER..]);
      ops := ops + src.ops;
    }

    // Hands the operations to a handler one by one: `handled` is what it has been given, even if the
    // bytes turn out to be corrupt further on or the count is wrong.
    method Iterate() returns (handled: seq<Op>, ok: bool)
      ensures |rep| < HEADER ==> handled == [] && !ok
      ensures |rep| >= HEADER ==>
                && handled == OpsFrom(rep, HEADER).0
                && (ok <==> OpsFrom(rep, HEADER).1 && DecodeFixed(rep[8..HEADER]) == |handled|)
      ensures Valid() ==> ok && handled == ops
    {
      hide OpsBytes, DecodeFixed, Slice, EncodeFixed;
      handled := [];
      ValidReadsBack(rep, sequence, ops);
      if |rep| < HEADER { return handled, false; }
      var p := HEADER;
      assert [] + OpsFrom(rep, HEADER).0 == OpsFrom(rep, HEADER).0;
      while p < |rep|
        invariant HEADER <= p <= |rep|
        invariant OpsFrom(rep, HEADER) == (handled + OpsFrom(rep, p).0, OpsFrom(rep, p).1)
      {
        var op := NextOp(p);
        if op.None? {
          assert handled + [] == handled;
          return handled, false;
        }
        assert handled + ([op.value.0] + OpsFrom(rep, op.value.1).0) ==
            handled + [op.value.0] + OpsFrom(rep, op.value.1).0;
        handled := handled + [op.value.0];
        p := op.value.1;
      }
      assert handled + [] == handled;
      ok := DecodeFixed(rep[8..HEADER]) == |handled|;
    }

    method NextOp(p: nat) returns (r: Option<(Op, nat)>)
      requires p < |rep|
      ensures r == OpAt(rep, p)
    {
      hide Slice;
      var tag := rep[p];
      if tag != TYPE_VALUE && tag != TYPE_DELETION { return None; }
      var key := GetLengthPrefixedSlice(rep, p + 1);
      if key.None? { return None; }
      if tag == TYPE_DELETION { return Some((Op.Delete(key.value.0), key.value.1)); }
      var value := GetLengthPrefixedSlice(rep, key.value.1);
      if value.None? { return None; }
      r := Some((Op.Put(key.value.0, value.value.0), value.value.1));
    }
  }

  lemma ValidReadsBack(rep: Bytes, sequence: nat, ops: seq<Op>)
    ensures IsBatch(rep, sequence, ops) ==>
              |rep| >= HEADER && OpsFrom(rep, HEADER) == (ops, true) && DecodeFixed(rep[8..HEADER]) == |ops|
  {
    hide OpsBytes, DecodeFixed, EncodeFixed, OpsFrom;
    if IsBatch(rep, sequence, ops) {
      Parts(rep, sequence, ops);
      OpsReadBack(rep, HEADER, ops);
    }
  }
}
