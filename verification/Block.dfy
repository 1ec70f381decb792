/** Blocks of key-value pairs (table/block_builder.cc, table/block.cc): keys share prefixes with their
    predecessors, except at restart points. */
module Block {
  import opened Dbformat
  import opened Coding

  datatype Pair = Pair(key: Bytes, value: Bytes)

  // A stored pair whose key shares its first `shared` bytes with the previous one.
  function PairBytes(shared: nat, e: Pair): (r: Bytes)
    requires shared <= |e.key|
    ensures |r| >= 3
  {
    PutVarint32(shared) + PutVarint32(|e.key| - shared) + PutVarint32(|e.value|) + e.key[shared..] + e.value
  }

  ghost predicate SharesPrefix(prev: Bytes, key: Bytes, n: nat) {
    n <= |prev| && n <= |key| && key[..n] == prev[..n]
  }

  // ---------- Well-formed blocks ----------

  // Pair i lies in data[offsets[i]..offsets[i + 1]]; restart r is at pair points[r], which shares nothing.
  ghost predicate IsBlock(data: Bytes, restarts: seq<nat>, pairs: seq<Pair>, offsets: seq<nat>, points: seq<nat>) {
    && |offsets| == |pairs| + 1 && offsets[0] == 0 && offsets[|pairs|] == |data|
    && (forall i, j :: 0 <= i < j < |offsets| ==> offsets[i] < offsets[j])
    && (forall i :: 0 <= i < |pairs| ==> IsStored(data, pairs, offsets, points, i))
    && RestartsOk(restarts, |pairs|, offsets, points)
  }

  ghost predicate RestartsOk(restarts: seq<nat>, n: nat, offsets: seq<nat>, points: seq<nat>) {
    && |offsets| == n + 1
    && |restarts| == |points| > 0 && points[0] == 0
    && (forall r :: 0 <= r < |points| ==> points[r] <= n && restarts[r] == offsets[points[r]])
    && (forall r, s :: 0 <= r < s < |points| ==> points[r] < points[s])
    && forall r :: 0 < r < |points| ==> points[r] < n
  }

  ghost predicate IsStored(data: Bytes, pairs: seq<Pair>, offsets: seq<nat>, points: seq<nat>, i: nat)
    requires i < |pairs| && |offsets| == |pairs| + 1
  {
    exists shared ::
      && SharesPrefix(if i == 0 then [] else pairs[i - 1].key, pairs[i].key, shared)
      && (i in points ==> shared == 0)
      && offsets[i + 1] == offsets[i] + |PairBytes(shared, pairs[i])|
      && Starts(data, offsets[i], |data|, PairBytes(shared, pairs[i]))
  }

  function LastKey(pairs: seq<Pair>): Bytes { if pairs == [] then [] else pairs[|pairs| - 1].key }

  // ---------- BlockBuilder ----------

  class BlockBuilder {
    const restartInterval: nat
    var buffer: Bytes
    var restarts: seq<nat>
    var counter: nat
    var lastKey: Bytes
    ghost var pairs: seq<Pair>
    ghost var offsets: seq<nat>
    ghost var points: seq<nat>

    ghost predicate Valid()
      reads this
    {
      && restartInterval >= 1 && counter <= restartInterval
      && IsBlock(buffer, restarts, pairs, offsets, points)
      && lastKey == LastKey(pairs)
      && (if pairs == [] then counter == 0 else points[|points| - 1] < |pairs|)
      && Spaced(points, restartInterval) && counter == |pairs| - points[|points| - 1]
    }

    constructor (interval: nat)
      requires interval >= 1
      ensures Valid() && pairs == [] && restartInterval == interval
    {
      restartInterval := interval;
      buffer, restarts, counter, lastKey := [], [0], 0, [];
      pairs, offsets, points := [], [0], [0];
    }

    method Reset()
      requires Valid()
      modifies this
      ensures Valid() && pairs == []
    {
      buffer, restarts, counter, lastKey := [], [0], 0, [];
      pairs, offsets, points := [], [0], [0];
    }

    // Adds a pair; a full run of the restart interval starts a new one, in which the first key is stored
    // whole.  Any other key is stored without what it has in common with the one before.
    method Add(key: Bytes, value: Bytes)
      requires Valid()
      modifies this
      ensures Valid() && pairs == old(pairs) + [Pair(key, value)]
      ensures exists shared: nat :: shared <= |key| && buffer == old(buffer) + PairBytes(shared, Pair(key, value)) &&
                               if |old(pairs)| % restartInterval == 0 then shared == 0
                                 else IsLongest(LastKey(old(pairs)), key, shared)
      ensures restarts == old(restarts) + if old(pairs) != [] && |old(pairs)| % restartInterval == 0
                                          then [|old(buffer)|] else []
    {
      hide IsBlock, PairBytes, PutVarint32, SharesPrefix, Restarted, Spaced;
      var shared: nat := 0;
      PlaceInRun(points, restartInterval, counter, |pairs|);
      SomePoint(restarts, |pairs|, offsets, points, buffer, pairs);
      ghost var points0 := points;
      if counter < restartInterval {
        shared := SharedLength(lastKey, key);
        NothingBefore(key, shared);
        GoesOn(restarts, points, |buffer|, |pairs|, lastKey, key, shared);
      } else {
        // restart compression
        SpacedMore(points, restartInterval, |pairs|);
        restarts := restarts + [|buffer|];
        points := points + [|pairs|];
        counter := 0;
        StartsAnew(old(restarts), points0, |buffer|, |pairs|, lastKey, key);
      }
      ghost var e := Pair(key, value);
      KeyRebuilt(lastKey, key, shared);
      PairAdded(buffer, old(restarts), pairs, offsets, points0, restarts, points, shared, e);
      AppendPair(shared, key, value);
      lastKey := lastKey[..shared] + key[shared..];
      counter := counter + 1;
      pairs := pairs + [e];
      offsets := offsets + [|buffer|];
    }

    method AppendPair(shared: nat, key: Bytes, value: Bytes)
      requires shared <= |key|
      modifies `buffer
      ensures buffer == old(buffer) + PairBytes(shared, Pair(key, value))
    {
      hide PutVarint32;
      buffer := buffer + PutVarint32(shared) + PutVarint32(|key| - shared) + PutVarint32(|value|);
      // string delta, then value
      buffer := buffer + key[shared..];
      buffer := buffer + value;
      BytesOfPair(old(buffer), shared, Pair(key, value));
    }
  }

  // The points are one restart interval apart.
  ghost predicate Spaced(points: seq<nat>, interval: nat) {
    points != [] && forall r :: 0 <= r < |points| ==> points[r] == r * interval
  }

  lemma SpacedMore(points: seq<nat>, interval: nat, n: nat)
    requires Spaced(points, interval) && n == points[|points| - 1] + interval
    ensures Spaced(points + [n], interval)
  {
    var r := |points|;
    OneMore(r - 1, interval);
  }

  lemma PlaceInRun(points: seq<nat>, interval: nat, counter: nat, n: nat)
    requires Spaced(points, interval) && counter <= interval && interval >= 1 && n == points[|points| - 1] + counter
    ensures n % interval == if counter == interval then 0 else counter
  {
    var r := |points| - 1;
    if counter == interval {
      OneMore(r, interval);
      Multiple(r + 1, interval, 0);
    } else {
      Multiple(r, interval, counter);
    }
  }

  lemma Multiple(r: nat, interval: nat, rest: nat)
    requires rest < interval
    ensures (r * interval + rest) % interval == rest
  {
    var n := r * interval + rest;
    var q, m := n / interval, n % interval;
    assert n == q * interval + m;
    if r > q {
      Larger(r, q, interval);
    } else if q > r {
      Larger(q, r, interval);
    }
  }

  lemma {:induction false} Larger(a: nat, b: nat, interval: nat)
    requires a > b
    ensures a * interval >= b * interval + interval
  {
    OneMore(a - 1, interval);
    if a - 1 > b {
      Larger(a - 1, b, interval);
    }
  }

  lemma OneMore(a: nat, interval: nat)
    ensures (a + 1) * interval == a * interval + interval
  {
  }

  lemma SomePoint(
      restarts: seq<nat>, n: nat, offsets: seq<nat>, points: seq<nat>, data: Bytes, pairs: seq<Pair>)
    requires IsBlock(data, restarts, pairs, offsets, points) && n == |pairs|
    ensures points != [] && (pairs == [] ==> points[|points| - 1] == 0)
  {
  }

  lemma NothingBefore(key: Bytes, shared: nat)
    ensures SharesPrefix([], key, shared) ==> shared == 0
  {
  }

  // All that two keys have in common.
  ghost predicate IsLongest(prev: Bytes, key: Bytes, n: nat) {
    SharesPrefix(prev, key, n) && forall m: nat :: SharesPrefix(prev, key, m) ==> m <= n
  }

  // How much of a key to share with the previous one: all they have in common.
  method SharedLength(prev: Bytes, key: Bytes) returns (shared: nat)
    ensures IsLongest(prev, key, shared)
  {
    var minLength := if |prev| < |key| then |prev| else |key|;
    shared := 0;
    while shared < minLength && prev[shared] == key[shared]
      invariant SharesPrefix(prev, key, shared) && shared <= minLength
    {
      shared := shared + 1;
    }
    if shared < minLength {
      forall n: nat | n > shared ensures !SharesPrefix(prev, key, n) {
        SharedAt(prev, key, n, shared);
      }
    }
  }

  lemma SharedAt(prev: Bytes, key: Bytes, n: nat, i: nat)
    requires i < n && i < |prev| && i < |key| && prev[i] != key[i]
    ensures !SharesPrefix(prev, key, n)
  {
    if n <= |prev| && n <= |key| {
      assert prev[..n][i] == prev[i] && key[..n][i] == key[i];
    }
  }

  lemma KeyRebuilt(prev: Bytes, key: Bytes, shared: nat)
    requires SharesPrefix(prev, key, shared) || shared == 0
    ensures shared <= |prev| && shared <= |key| && prev[..shared] + key[shared..] == key
  {
    assert key[..shared] + key[shared..] == key;
  }

  lemma BytesOfPair(buffer: Bytes, shared: nat, e: Pair)
    requires shared <= |e.key|
    ensures buffer + PairBytes(shared, e) ==
            buffer + PutVarint32(shared) + PutVarint32(|e.key| - shared) + PutVarint32(|e.value|) +
            e.key[shared..] + e.value
  {
  }

  // The restarts, or the restarts and a new one at the end.
  ghost predicate Restarted(
      restarts0: seq<nat>, points0: seq<nat>, restarts: seq<nat>, points: seq<nat>, size: nat, n: nat, prev: Bytes,
      key: Bytes, shared: nat)
  {
    || (restarts == restarts0 && points == points0 && SharesPrefix(prev, key, shared))
    || (restarts == restarts0 + [size] && points == points0 + [n] && shared == 0 && n > 0)
  }

  lemma GoesOn(restarts: seq<nat>, points: seq<nat>, size: nat, n: nat, prev: Bytes, key: Bytes, shared: nat)
    requires SharesPrefix(prev, key, shared)
    ensures Restarted(restarts, points, restarts, points, size, n, prev, key, shared)
  {
  }

  lemma StartsAnew(restarts: seq<nat>, points: seq<nat>, size: nat, n: nat, prev: Bytes, key: Bytes)
    requires n > 0
    ensures Restarted(restarts, points, restarts + [size], points + [n], size, n, prev, key, 0)
  {
  }

  lemma PairAdded(
      data: Bytes, restarts0: seq<nat>, pairs: seq<Pair>, offsets: seq<nat>, points0: seq<nat>, restarts: seq<nat>,
      points: seq<nat>, shared: nat, e: Pair)
    requires IsBlock(data, restarts0, pairs, offsets, points0)
    requires pairs != [] ==> points0[|points0| - 1] < |pairs|
    requires Restarted(restarts0, points0, restarts, points, |data|, |pairs|, LastKey(pairs), e.key, shared)
    ensures shared <= |e.key|
    ensures IsBlock(data + PairBytes(shared, e), restarts, pairs + [e], offsets + [|data| + |PairBytes(shared, e)|],
              points)
    ensures points[|points| - 1] < |pairs + [e]|
  {
    hide PairBytes, IsStored, RestartsOk;
    var bytes := PairBytes(shared, e);
    var data', pairs', end := data + bytes, pairs + [e], |data| + |bytes|;
    var offsets' := offsets + [end];
    RestartsMore(restarts0, |pairs|, offsets, points0, restarts, points, |data|,
                 LastKey(pairs), e.key, shared, end);
    forall i | 0 <= i < |pairs| ensures IsStored(data', pairs', offsets', points, i) {
      StoredStays(data, pairs, offsets, points0, points, i, bytes, e, end);
    }
    NewIsStored(data, restarts0, pairs, offsets, points0, restarts, points, shared, e);
  }

  lemma RestartsMore(
      restarts0: seq<nat>, n: nat, offsets: seq<nat>, points0: seq<nat>, restarts: seq<nat>, points: seq<nat>,
      size: nat, prev: Bytes, key: Bytes, shared: nat, end: nat)
    requires RestartsOk(restarts0, n, offsets, points0) && offsets[n] == size
    requires Restarted(restarts0, points0, restarts, points, size, n, prev, key, shared)
    requires n > 0 ==> points0[|points0| - 1] < n
    ensures RestartsOk(restarts, n + 1, offsets + [end], points)
    ensures points[|points| - 1] < n + 1 && shared <= |key|
    ensures forall i :: i in points <==> i in points0 || (points != points0 && i == n)
    ensures points != points0 ==> shared == 0
  {
    assert forall r :: 0 <= r < |points0| ==> points0[r] <= points0[|points0| - 1];
    assert forall r :: 0 <= r < |points0| ==> points[r] == points0[r];
  }

  lemma StoredStays(
      data: Bytes, pairs: seq<Pair>, offsets: seq<nat>, points0: seq<nat>, points: seq<nat>, i: nat, more: Bytes,
      e: Pair, end: nat)
    requires i < |pairs| && |offsets| == |pairs| + 1 && IsStored(data, pairs, offsets, points0, i)
    requires i in points <==> i in points0
    ensures IsStored(data + more, pairs + [e], offsets + [end], points, i)
  {
    hide PairBytes;
    var pairs', offsets' := pairs + [e], offsets + [end];
    var shared :|
      && SharesPrefix(if i == 0 then [] else pairs[i - 1].key, pairs[i].key, shared)
      && (i in points0 ==> shared == 0)
      && offsets[i + 1] == offsets[i] + |PairBytes(shared, pairs[i])|
      && Starts(data, offsets[i], |data|, PairBytes(shared, pairs[i]));
    StartsStays(data, offsets[i], PairBytes(shared, pairs[i]), more);
    assert pairs'[i] == pairs[i] && (i > 0 ==> pairs'[i - 1] == pairs[i - 1]);
    assert offsets'[i] == offsets[i] && offsets'[i + 1] == offsets[i + 1];
  }

  lemma StartsStays(data: Bytes, p: nat, b: Bytes, more: Bytes)
    requires Starts(data, p, |data|, b)
    ensures Starts(data + more, p, |data + more|, b)
  {
    assert (data + more)[p..p + |b|] == data[p..p + |b|];
  }

  lemma NewIsStored(
      data: Bytes, restarts0: seq<nat>, pairs: seq<Pair>, offsets: seq<nat>, points0: seq<nat>, restarts: seq<nat>,
      points: seq<nat>, shared: nat, e: Pair)
    requires |offsets| == |pairs| + 1 && offsets[|pairs|] == |data| && RestartsOk(restarts0, |pairs|, offsets, points0)
    requires pairs != [] ==> points0[|points0| - 1] < |pairs|
    requires Restarted(restarts0, points0, restarts, points, |data|, |pairs|, LastKey(pairs), e.key, shared)
    ensures shared <= |e.key|
    ensures IsStored(data + PairBytes(shared, e), pairs + [e], offsets + [|data| + |PairBytes(shared, e)|], points,
              |pairs|)
  {
    hide PairBytes;
    var n := |pairs|;
    var b := PairBytes(shared, e);
    assert (data + b)[|data|..|data| + |b|] == b;
    assert forall r :: 0 <= r < |points0| ==> points0[r] <= points0[|points0| - 1];
    var pairs', offsets' := pairs + [e], offsets + [|data| + |b|];
    assert pairs'[n] == e && (n > 0 ==> pairs'[n - 1] == pairs[n - 1]) && offsets'[n] == |data|;
  }

  // ---------- Reading ----------

  ghost predicate StoredAt(data: Bytes, p: nat, limit: nat, shared: nat, e: Pair) {
    Small(e) && shared <= |e.key| && Starts(data, p, limit, PairBytes(shared, e))
  }

  // The length of the three lengths.
  ghost function HeadLength(shared: nat, e: Pair): nat
    requires shared <= |e.key|
  {
    |PutVarint32(shared)| + |PutVarint32(|e.key| - shared)| + |PutVarint32(|e.value|)|
  }

  // The three lengths as varints, and the position after them.
  method DecodeLengths(data: Bytes, p0: nat, limit: nat, ghost shared: nat, ghost e: Pair)
    returns (r: Option<(nat, nat, nat, nat)>)
    requires p0 <= limit <= |data|
    ensures r.Some? ==> p0 < r.value.3 <= limit
    ensures StoredAt(data, p0, limit, shared, e) ==>
              r == Some((shared, |e.key| - shared, |e.value|, p0 + HeadLength(shared, e)))
  {
    hide PutVarint32, PairBytes, Starts, GetVarint;
    if StoredAt(data, p0, limit, shared, e) {
      PairParts(data, p0, limit, shared, e);
    }
    r := None;
    var a := GetVarint32Ptr(data, p0, limit);
    if a.None? { return; }
    var b := GetVarint32Ptr(data, a.value.1, limit);
    if b.None? { return; }
    var c := GetVarint32Ptr(data, b.value.1, limit);
    if c.None? { return; }
    r := Some((a.value.0, b.value.0, c.value.0, c.value.1));
  }

  // DecodeEntry: the three lengths, and where the key delta starts; nothing if they do not fit.
  method DecodeEntry(data: Bytes, p0: nat, limit: nat, ghost shared: nat, ghost e: Pair)
    returns (r: Option<(nat, nat, nat, nat)>)
    requires p0 <= limit <= |data|
    ensures r.Some? ==> p0 < r.value.3 && r.value.3 + r.value.1 + r.value.2 <= limit
    ensures StoredAt(data, p0, limit, shared, e) ==>
              r == Some((shared, |e.key| - shared, |e.value|, p0 + HeadLength(shared, e)))
  {
    hide PutVarint32, PairBytes, Starts;
    if StoredAt(data, p0, limit, shared, e) {
      PairParts(data, p0, limit, shared, e);
    }
    r := None;
    if limit - p0 < 3 {
      return;
    }
    if data[p0] < 128 && data[p0 + 1] < 128 && data[p0 + 2] < 128 {
      // fast path: all three values are encoded in one byte each
      if StoredAt(data, p0, limit, shared, e) {
        OneByte(data, p0, limit, shared);
        OneByte(data, p0 + 1, limit, |e.key| - shared);
        OneByte(data, p0 + 2, limit, |e.value|);
      }
      r := Some((data[p0] as nat, data[p0 + 1] as nat, data[p0 + 2] as nat, p0 + 3));
    } else {
      r := DecodeLengths(data, p0, limit, shared, e);
    }
    if r.Some? && limit - r.value.3 < r.value.1 + r.value.2 {
      r := None;
    }
  }

  lemma OneByte(data: Bytes, p: nat, limit: nat, n: nat)
    requires Starts(data, p, limit, PutVarint32(n)) && data[p] < 128
    ensures n == data[p] as nat && |PutVarint32(n)| == 1
  {
    assert data[p] == data[p..p + |PutVarint32(n)|][0];
  }

  // Where the parts of a stored pair are.
  lemma PairParts(data: Bytes, p: nat, limit: nat, shared: nat, e: Pair)
    requires shared <= |e.key| && Starts(data, p, limit, PairBytes(shared, e))
    ensures var a, b, c := PutVarint32(shared), PutVarint32(|e.key| - shared), PutVarint32(|e.value|);
            var q := p + |a| + |b| + |c|;
            && Starts(data, p, limit, a) && Starts(data, p + |a|, limit, b) && Starts(data, p + |a| + |b|, limit, c)
            && |PairBytes(shared, e)| == |a| + |b| + |c| + (|e.key| - shared) + |e.value| && |a| + |b| + |c| >= 3
            && p + |PairBytes(shared, e)| <= limit <= |data|
            && data[q..q + (|e.key| - shared)] == e.key[shared..]
            && data[q + (|e.key| - shared)..q + (|e.key| - shared) + |e.value|] == e.value
  {
    hide PutVarint32;
    var a, b, c := PutVarint32(shared), PutVarint32(|e.key| - shared), PutVarint32(|e.value|);
    StartsSplit(data, p, limit, a + b + c + e.key[shared..], e.value);
    StartsSplit(data, p, limit, a + b + c, e.key[shared..]);
    StartsSplit(data, p, limit, a + b, c);
    StartsSplit(data, p, limit, a, b);
  }

  // Lengths fit in 32 bits.
  ghost predicate Small(e: Pair) { |e.key| < LIMIT32 && |e.value| < LIMIT32 }
}
