/** The iterator over a block (table/block.cc, Block::Iter). */
module BlockIter {
  import opened Dbformat
  import opened Coding
  import opened Block

  // less is a strict order in which the keys of the pairs ascend.
  ghost predicate Ordered(less: (Bytes, Bytes) -> bool, pairs: seq<Pair>) {
    && (forall a, b, c :: less(a, b) && less(b, c) ==> less(a, c))
    && forall i, j :: 0 <= i < j < |pairs| ==> less(pairs[i].key, pairs[j].key)
  }

  class Iter {
    const less: (Bytes, Bytes) -> bool
    const data: Bytes
    const restarts: seq<nat>
    var current: nat        // the offset of the current entry; the data's size when not valid
    var restartIndex: nat   // the restart block in which current falls
    var key: Bytes
    var valueStart: nat
    var valueEnd: nat

    ghost const pairs: seq<Pair>
    ghost const offsets: seq<nat>
    ghost const points: seq<nat>
    ghost var pos: nat  // |pairs| when not valid

    ghost predicate WellFormed() {
      IsBlock(data, restarts, pairs, offsets, points) && forall i :: 0 <= i < |pairs| ==> Small(pairs[i])
    }

    // The next pair to be parsed is number `next`, and what it shares with its predecessor is in key.
    ghost predicate Poised(next: nat)
      requires WellFormed()
      reads this
    {
      && next <= |pairs| && valueEnd == offsets[next]
      && restartIndex < |restarts| && restarts[restartIndex] <= valueEnd
      && (next < |pairs| && next !in points ==> next > 0 && key == pairs[next - 1].key)
    }

    ghost predicate AtPair()
      requires WellFormed() && pos < |pairs|
      reads this
    {
      && current == offsets[pos]
      && key == pairs[pos].key
      && valueStart <= valueEnd == offsets[pos + 1] <= |data| && data[valueStart..valueEnd] == pairs[pos].value
      && restartIndex < |restarts| && restarts[restartIndex] <= current
      && (restartIndex + 1 < |restarts| ==> current <= restarts[restartIndex + 1])
    }

    ghost predicate Valid()
      reads this
    {
      && WellFormed()
      && if pos < |pairs| then AtPair() else pos == |pairs| && current == |data| && restartIndex == |restarts|
    }

    constructor (
        lessThan: (Bytes, Bytes) -> bool, bytes: Bytes, restartArray: seq<nat>, ghost ps: seq<Pair>, ghost os: seq<nat>,
        ghost qs: seq<nat>)
      requires IsBlock(bytes, restartArray, ps, os, qs) && forall i :: 0 <= i < |ps| ==> Small(ps[i])
      ensures Valid() && pos == |pairs| && pairs == ps && less == lessThan
    {
      less, data, restarts, pairs, offsets, points := lessThan, bytes, restartArray, ps, os, qs;
      current, restartIndex, key, valueStart, valueEnd, pos := |bytes|, |restartArray|, [], 0, 0, |ps|;
    }

    predicate IsValid()
      requires Valid()
      reads this
      ensures IsValid() <==> pos < |pairs|
    {
      OffsetsAscend(data, restarts, pairs, offsets, points, pos);
      current < |data|
    }

    function Key(): Bytes
      requires Valid() && pos < |pairs|
      reads this
      ensures Key() == pairs[pos].key
    {
      key
    }

    function Value(): Bytes
      requires Valid() && pos < |pairs|
      reads this
      ensures Value() == pairs[pos].value
    {
      data[valueStart..valueEnd]
    }

    method SeekToRestartPoint(index: nat)
      requires WellFormed() && index < |restarts|
      modifies this
      ensures Poised(points[index])
    {
      key := [];
      restartIndex := index;
      // ParseNextKey starts at the end of the value
      var offset := restarts[index];
      valueStart, valueEnd := offset, offset;
    }

    method ParseNextKey(ghost next: nat) returns (ok: bool)
      requires WellFormed() && Poised(next)
      modifies this
      ensures Valid() && pos == next && (ok <==> next < |pairs|)
    {
      hide IsBlock, IsStored, RestartsOk, PairBytes, Starts, PutVarint32, HeadLength, Small;
      OffsetsAscend(data, restarts, pairs, offsets, points, next);
      current := valueEnd;
      pos := next;
      if current >= |data| {
        // no more entries
        current := |data|;
        restartIndex := |restarts|;
        return false;
      }
      ghost var e := pairs[next];
      ghost var shared := SharedOf(data, restarts, pairs, offsets, points, next);
      var head := DecodeEntry(data, current, |data|, shared, e);
      var s, n, v, p := head.value.0, head.value.1, head.value.2, head.value.3;
      ParsedPair(data, current, shared, e, if next == 0 then [] else pairs[next - 1].key);
      key := key[..s] + data[p..p + n];
      valueStart, valueEnd := p + n, p + n + v;
      while restartIndex + 1 < |restarts| && restarts[restartIndex + 1] < current
        invariant restartIndex < |restarts| && restarts[restartIndex] <= current
        modifies `restartIndex
      {
        restartIndex := restartIndex + 1;
      }
      return true;
    }

    method Next()
      requires Valid() && pos < |pairs|
      modifies this
      ensures Valid() && pos == old(pos) + 1
    {
      hide IsBlock;
      NextIsPoised();
      var ok := ParseNextKey(pos + 1);
    }

    lemma NextIsPoised()
      requires Valid() && pos < |pairs|
      ensures Poised(pos + 1) && pos + 1 <= |pairs|
    {
      hide IsStored, RestartsOk;
    }

    // Back to a restart point before the current entry, then forward to the entry that ends where the
    // current one starts.
    method Prev()
      requires Valid() && pos < |pairs|
      modifies this
      ensures Valid() && pos == if old(pos) == 0 then |pairs| else old(pos) - 1
    {
      hide WellFormed, AtPair;
      Facts();
      var original := current;
      ghost var p0 := pos;
      var found := RestartBefore(original);
      if !found {
        // no more entries
        current := |data|;
        restartIndex := |restarts|;
        pos := |pairs|;
        return;
      }
      ghost var next := points[restartIndex];
      OffsetOrder(next, p0);
      SeekToRestartPoint(restartIndex);
      var ok := ParseNextKey(next);
      while ok && valueEnd < original
        invariant Valid() && pos < p0 && ok
        decreases p0 - pos
      {
        Facts();
        OffsetOrder(pos + 1, p0);
        NextIsPoised();
        ok := ParseNextKey(pos + 1);
      }
      Facts();
      OffsetOrder(pos + 1, p0);
    }

    lemma Facts()
      requires Valid()
      ensures WellFormed() && |restarts| == |points| && |offsets| == |pairs| + 1
      ensures pos < |pairs| ==>
                && current == offsets[pos] && valueEnd == offsets[pos + 1]
                && restartIndex < |restarts| && restarts[restartIndex] <= current && (current == 0 <==> pos == 0)
      ensures forall r :: 0 <= r < |restarts| ==> points[r] <= |pairs| && restarts[r] == offsets[points[r]]
    {
      BlockFacts(data, restarts, pairs, offsets, points);
    }

    lemma OffsetOrder(i: nat, j: nat)
      requires WellFormed() && |offsets| == |pairs| + 1 && i <= |pairs| && j <= |pairs|
      ensures offsets[i] < offsets[j] <==> i < j
    {
      BlockFacts(data, restarts, pairs, offsets, points);
    }

    // Moves restartIndex back to a restart point before the offset.
    method RestartBefore(original: nat) returns (found: bool)
      requires WellFormed() && restartIndex < |restarts| && restarts[restartIndex] <= original
      modifies `restartIndex
      ensures restartIndex < |restarts|
      ensures found ==> restarts[restartIndex] < original
      ensures !found <==> original == 0
    {
      hide IsBlock, Small;
      BlockFacts(data, restarts, pairs, offsets, points);
      while restarts[restartIndex] >= original
        invariant restartIndex < |restarts| && restarts[restartIndex] <= original
        decreases restartIndex
      {
        if restartIndex == 0 {
          return false;
        }
        restartIndex := restartIndex - 1;
      }
      found := true;
    }

    method SeekToFirst()
      requires Valid()
      modifies this
      ensures Valid() && pos == 0
    {
      hide IsBlock;
      BlockFacts(data, restarts, pairs, offsets, points);
      SeekToRestartPoint(0);
      var ok := ParseNextKey(0);
    }

    method SeekToLast()
      requires Valid()
      modifies this
      ensures Valid() && pos == if pairs == [] then 0 else |pairs| - 1
    {
      hide IsBlock;
      BlockFacts(data, restarts, pairs, offsets, points);
      SeekToRestartPoint(|restarts| - 1);
      var ok := ParseNextKey(points[|restarts| - 1]);
      while ok && valueEnd < |data|
        invariant Valid() && (ok <==> pos < |pairs|) && (!ok ==> pairs == [])
        decreases |pairs| - pos
      {
        NextIsPoised();
        ok := ParseNextKey(pos + 1);
      }
    }

    // Binary search for the last restart point whose key is before the target.
    method LastRestartBefore(target: Bytes) returns (left: nat)
      requires Valid() && Ordered(less, pairs)
      ensures left < |restarts| == |points|
      ensures forall i :: 0 <= i < points[left] && i < |pairs| ==> less(pairs[i].key, target)
      ensures forall r :: left < r < |points| && points[r] < |pairs| ==> !less(pairs[points[r]].key, target)
    {
      hide IsBlock, Ordered;
      BlockFacts(data, restarts, pairs, offsets, points);
      var right := |restarts| - 1;
      left := 0;
      while left < right
        invariant 0 <= left <= right < |restarts|
        invariant forall i :: 0 <= i < points[left] ==> less(pairs[i].key, target)
        invariant forall r :: right < r < |points| ==> !less(pairs[points[r]].key, target)
      {
        var mid := (left + right + 1) / 2;
        var midKey := RestartKey(mid);
        if less(midKey, target) {
          BeforeToo(less, pairs, points[mid], target);
          left := mid;
        } else {
          NotBeforeLater(mid, target);
          right := mid - 1;
        }
      }
    }

    lemma NotBeforeLater(mid: nat, target: Bytes)
      requires Valid() && Ordered(less, pairs) && 0 < mid < |points| && points[mid] < |pairs|
      requires !less(pairs[points[mid]].key, target)
      ensures forall r :: mid <= r < |points| && points[r] < |pairs| ==> !less(pairs[points[r]].key, target)
    {
      hide IsBlock;
      BlockFacts(data, restarts, pairs, offsets, points);
      forall r | mid < r < |points| && points[r] < |pairs| ensures !less(pairs[points[r]].key, target) {
        assert offsets[points[mid]] == restarts[mid] < restarts[r] == offsets[points[r]];
        assert points[mid] < points[r];
        BeforeToo(less, pairs, points[r], target);
      }
    }

    // The first pair whose key is not before the target: binary search over the restart points for the
    // last one with a key before it, then a linear search.
    method Seek(target: Bytes)
      requires Valid() && Ordered(less, pairs)
      modifies this
      ensures Valid()
      ensures pos < |pairs| ==> !less(pairs[pos].key, target)
      ensures forall i :: 0 <= i < pos ==> less(pairs[i].key, target)
    {
      hide IsBlock, Ordered;
      BlockFacts(data, restarts, pairs, offsets, points);
      var left := LastRestartBefore(target);
      SeekToRestartPoint(left);
      var ok := ParseNextKey(points[left]);
      while ok && less(key, target)
        invariant Valid() && (ok <==> pos < |pairs|)
        invariant forall i :: 0 <= i < pos ==> less(pairs[i].key, target)
        decreases |pairs| - pos
      {
        NextIsPoised();
        ok := ParseNextKey(pos + 1);
      }
    }

    // The key at a restart point other than the first.
    method RestartKey(index: nat) returns (k: Bytes)
      requires WellFormed() && 0 < index < |restarts|
      ensures index < |points| && points[index] < |pairs| && k == pairs[points[index]].key
    {
      hide IsBlock, PairBytes, Starts, PutVarint32, HeadLength, Small;
      BlockFacts(data, restarts, pairs, offsets, points);
      ghost var i := points[index];
      ghost var e := pairs[i];
      ghost var shared := SharedOf(data, restarts, pairs, offsets, points, i);
      var head := DecodeEntry(data, restarts[index], |data|, shared, e);
      ParsedPair(data, restarts[index], shared, e, if i == 0 then [] else pairs[i - 1].key);
      k := data[head.value.3..head.value.3 + head.value.1];
    }
  }

  lemma BlockFacts(data: Bytes, restarts: seq<nat>, pairs: seq<Pair>, offsets: seq<nat>, points: seq<nat>)
    requires IsBlock(data, restarts, pairs, offsets, points)
    ensures |restarts| == |points| > 0 && points[0] == 0
    ensures |offsets| == |pairs| + 1 && offsets[0] == 0 && offsets[|pairs|] == |data|
    ensures forall i, j :: 0 <= i < j < |offsets| ==> offsets[i] < offsets[j]
    ensures forall r ::
              0 <= r < |points| ==> points[r] <= |pairs| && restarts[r] == offsets[points[r]] && points[r] in points
    ensures forall r :: 0 < r < |points| ==> points[r] < |pairs|
    ensures forall r, s :: 0 <= r < s < |restarts| ==> restarts[r] < restarts[s]
    ensures pairs == [] ==> |points| == 1
  {
    hide IsStored;
    assert |points| > 1 ==> points[1] < |pairs|;
  }

  lemma BeforeToo(less: (Bytes, Bytes) -> bool, pairs: seq<Pair>, n: nat, target: Bytes)
    requires Ordered(less, pairs) && n < |pairs|
    ensures less(pairs[n].key, target) ==> forall i :: 0 <= i <= n ==> less(pairs[i].key, target)
  {
    forall i | 0 <= i < n && less(pairs[n].key, target) ensures less(pairs[i].key, target) {
      assert less(pairs[i].key, pairs[n].key);
    }
  }

  lemma OffsetsAscend(data: Bytes, restarts: seq<nat>, pairs: seq<Pair>, offsets: seq<nat>, points: seq<nat>, i: nat)
    requires IsBlock(data, restarts, pairs, offsets, points) && i <= |pairs|
    ensures |offsets| == |pairs| + 1 && offsets[i] <= |data| && (offsets[i] < |data| <==> i < |pairs|)
  {
  }

  ghost predicate SharedIs(data: Bytes, pairs: seq<Pair>, offsets: seq<nat>, points: seq<nat>, i: nat, shared: nat)
    requires i < |pairs| && |offsets| == |pairs| + 1
  {
    && SharesPrefix(if i == 0 then [] else pairs[i - 1].key, pairs[i].key, shared)
    && (i in points ==> shared == 0)
    && offsets[i + 1] == offsets[i] + |PairBytes(shared, pairs[i])|
    && Starts(data, offsets[i], |data|, PairBytes(shared, pairs[i]))
  }

  lemma SharedOf(data: Bytes, restarts: seq<nat>, pairs: seq<Pair>, offsets: seq<nat>, points: seq<nat>, i: nat)
    returns (shared: nat)
    requires IsBlock(data, restarts, pairs, offsets, points) && i < |pairs|
    ensures SharedIs(data, pairs, offsets, points, i, shared)
  {
    hide PairBytes, Starts;
    assert IsStored(data, pairs, offsets, points, i);
    shared :|
      && SharesPrefix(if i == 0 then [] else pairs[i - 1].key, pairs[i].key, shared)
      && (i in points ==> shared == 0)
      && offsets[i + 1] == offsets[i] + |PairBytes(shared, pairs[i])|
      && Starts(data, offsets[i], |data|, PairBytes(shared, pairs[i]));
  }

  // The decoded parts put the key together again.
  lemma ParsedPair(data: Bytes, p0: nat, shared: nat, e: Pair, prev: Bytes)
    requires SharesPrefix(prev, e.key, shared) && StoredAt(data, p0, |data|, shared, e)
    ensures var p, n := p0 + HeadLength(shared, e), |e.key| - shared;
            && p + n + |e.value| == p0 + |PairBytes(shared, e)| <= |data|
            && prev[..shared] + data[p..p + n] == e.key
            && data[p + n..p + n + |e.value|] == e.value
  {
    PairParts(data, p0, |data|, shared, e);
    assert e.key[..shared] + e.key[shared..] == e.key;
  }
}
