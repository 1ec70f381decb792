/** Short keys between keys (util/comparator.cc; db/dbformat.cc, InternalKeyComparator).

    Here user keys are the byte strings themselves, in bytewise order. */
module Comparator {
  import opened Dbformat
  import opened UserKeys

  // ---------- Bytewise order ----------

  lemma {:induction false} BytewiseIsTotal(a: Bytes, b: Bytes, c: Bytes)
    ensures !BytewiseLess(a, a)
    ensures BytewiseLess(a, b) && BytewiseLess(b, c) ==> BytewiseLess(a, c)
    ensures a == b || BytewiseLess(a, b) || BytewiseLess(b, a)
  {
    RankIsOrderEmbedding(a, a);
    RankIsOrderEmbedding(a, b);
    RankIsOrderEmbedding(b, a);
    RankIsOrderEmbedding(b, c);
    RankIsOrderEmbedding(a, c);
  }

  // Two strings that agree up to i and differ there are ordered by what they have there.
  lemma {:induction false} FirstDifference(a: Bytes, b: Bytes, i: nat)
    requires i < |a| && i < |b| && a[..i] == b[..i] && a[i] != b[i]
    ensures BytewiseLess(a, b) <==> a[i] < b[i]
  {
    if i > 0 {
      assert a[0] == a[..i][0] == b[..i][0] == b[0];
      assert a[1..][..i - 1] == a[..i][1..] && b[1..][..i - 1] == b[..i][1..];
      FirstDifference(a[1..], b[1..], i - 1);
    }
  }

  lemma {:induction false} PrefixIsLess(a: Bytes, n: nat)
    requires n < |a|
    ensures BytewiseLess(a[..n], a)
  {
    if n > 0 {
      assert a[..n][1..] == a[1..][..n - 1];
      PrefixIsLess(a[1..], n - 1);
    }
  }

  // ---------- BytewiseComparatorImpl ----------

  // Where start can be cut off and its last byte incremented without reaching limit.
  ghost predicate Shortens(start: Bytes, limit: Bytes, i: nat) {
    && i < |start| && i < |limit| && start[..i] == limit[..i]
    && start[i] < 255 && start[i] as int + 1 < limit[i] as int
  }

  // FindShortestSeparator: start itself, or a shorter string between start and limit.
  method FindShortestSeparator(start: Bytes, limit: Bytes) returns (r: Bytes)
    ensures r == start || (BytewiseLess(start, r) && BytewiseLess(r, limit) && |r| <= |start|)
    ensures r != start <==> exists i :: Shortens(start, limit, i)
  {
    var minLength := if |start| < |limit| then |start| else |limit|;
    var diffIndex := 0;
    while diffIndex < minLength && start[diffIndex] == limit[diffIndex]
      invariant diffIndex <= minLength && start[..diffIndex] == limit[..diffIndex]
    {
      diffIndex := diffIndex + 1;
    }
    r := start;
    if diffIndex >= minLength {
      // one string is a prefix of the other
      forall i: nat | i < minLength ensures !Shortens(start, limit, i) {
        PrefixAgrees(start, limit, minLength, i);
      }
    } else {
      var diffByte := start[diffIndex];
      if diffByte < 255 && diffByte as int + 1 < limit[diffIndex] as int {
        r := start[..diffIndex] + [diffByte + 1];
        assert Shortens(start, limit, diffIndex);
        FirstDifference(start, r, diffIndex);
        FirstDifference(r, limit, diffIndex);
        assert r[diffIndex] != start[diffIndex];
      } else {
        forall i: nat | i < minLength ensures !Shortens(start, limit, i) {
          OneDifference(start, limit, diffIndex, i);
        }
      }
    }
  }

  lemma PrefixAgrees(a: Bytes, b: Bytes, n: nat, i: nat)
    requires i < n <= |a| && n <= |b| && a[..n] == b[..n]
    ensures a[i] == b[i]
  {
    assert a[i] == a[..n][i] && b[i] == b[..n][i];
  }

  lemma OneDifference(a: Bytes, b: Bytes, d: nat, i: nat)
    requires d < |a| && d < |b| && i < |a| && i < |b|
    requires a[..d] == b[..d] && a[d] != b[d]
    ensures a[..i] == b[..i] && a[i] != b[i] ==> i == d
  {
    if i < d {
      PrefixAgrees(a, b, d, i);
    } else if d < i && a[..i] == b[..i] {
      var differ := a[d] != b[d];
      PrefixAgrees(a, b, i, d);
    }
  }

  // FindShortSuccessor: the string itself if it is a run of 0xff bytes, else a greater one no longer.
  method FindShortSuccessor(key: Bytes) returns (r: Bytes)
    ensures r == key || (BytewiseLess(key, r) && |r| <= |key|)
    ensures r == key <==> forall i :: 0 <= i < |key| ==> key[i] == 255
  {
    for i := 0 to |key|
      invariant forall j :: 0 <= j < i ==> key[j] == 255
    {
      if key[i] != 255 {
        r := key[..i] + [key[i] + 1];
        FirstDifference(key, r, i);
        assert r[i] != key[i];
        return;
      }
    }
    r := key;
  }

  // ---------- InternalKeyComparator ----------

  // An internal key: a user key and its tag of sequence number and type.
  datatype Key = Key(user: Bytes, tag: nat) {
    predicate Before(that: Key) { BytewiseLess(user, that.user) || (user == that.user && tag > that.tag) }
  }

  // The tag of kMaxSequenceNumber and kValueTypeForSeek: before all others of its user key.
  const SEEK_TAG: nat := MAX_SEQUENCE_NUMBER * 256 + 1

  lemma KeysAreTotal(a: Key, b: Key, c: Key)
    ensures !a.Before(a)
    ensures a.Before(b) && b.Before(c) ==> a.Before(c)
    ensures a == b || a.Before(b) || b.Before(a)
  {
    BytewiseIsTotal(a.user, b.user, c.user);
  }

  // The order is that of internal keys with ranks for user keys.
  lemma OrderIsInternalKeyOrder(a: Bytes, s: nat, t: ValueType, b: Bytes, s': nat, t': ValueType)
    ensures var x, y := InternalKey(Rank(a), s, t), InternalKey(Rank(b), s', t');
            Key(a, x.Tag()).Before(Key(b, y.Tag())) <==> x.Before(y)
  {
    RankIsOrderEmbedding(a, b);
  }

  // A key at or after start whose user key is strictly before limit's, or start itself.
  method FindShortestInternalSeparator(start: Key, limit: Key) returns (r: Key)
    ensures r == start || (start.Before(r) && BytewiseLess(r.user, limit.user))
  {
    var tmp := FindShortestSeparator(start.user, limit.user);
    r := start;
    if |tmp| < |start.user| && BytewiseLess(start.user, tmp) {
      r := Key(tmp, SEEK_TAG);
      BytewiseIsTotal(start.user, start.user, start.user);
    }
  }

  method FindShortInternalSuccessor(key: Key) returns (r: Key)
    ensures r == key || key.Before(r)
  {
    var tmp := FindShortSuccessor(key.user);
    r := key;
    if |tmp| < |key.user| && BytewiseLess(key.user, tmp) {
      r := Key(tmp, SEEK_TAG);
    }
  }
}
