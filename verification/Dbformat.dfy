/** Internal keys and table entries (db/dbformat.h, db/dbformat.cc).

    A user key is represented by its rank: a real number that orders keys the way the user
    comparator does.  Every comparator induces a total order on the countable set of byte
    strings, and such an order embeds in the reals, so nothing is lost; `UserKeys` below gives
    the embedding for the default (bytewise) comparator and proves it exact. */
module Dbformat {
  type byte = x: int | 0 <= x < 256
  type Bytes = seq<byte>

  datatype Option<+T> = None | Some(value: T)

  type UserKey = real

  const NUM_LEVELS: nat := 7

  const MAX_SEQUENCE_NUMBER: nat := 0xFF_FFFF_FFFF_FFFF

  datatype ValueType = Deletion | Value

  datatype InternalKey = InternalKey(user: UserKey, sequence: nat, kind: ValueType) {
    // A 64-bit tag: sequence number in the upper 56 bits, value type in the low byte.
    function Tag(): nat { sequence * 256 + (if kind.Deletion? then 0 else 1) }

    // Ascending user key, then descending tag.
    predicate Before(that: InternalKey) {
      user < that.user || (user == that.user && Tag() > that.Tag())
    }

    predicate AtMost(that: InternalKey) { this == that || Before(that) }
  }

  // Internal keys are totally ordered.
  lemma BeforeIsTotal(a: InternalKey, b: InternalKey, c: InternalKey)
    ensures !a.Before(a)
    ensures a.Before(b) && b.Before(c) ==> a.Before(c)
    ensures a == b || a.Before(b) || b.Before(a)
  {
  }

  // What a reader at sequence number s seeks to for user key k.
  function LookupKey(k: UserKey, s: nat): InternalKey { InternalKey(k, s, Value) }

  datatype Entry = Entry(key: InternalKey, value: Bytes)

  ghost predicate Sorted(es: seq<Entry>) {
    forall i, j :: 0 <= i < j < |es| ==> es[i].key.Before(es[j].key)
  }

  ghost function ToSet(es: seq<Entry>): set<Entry> { set e | e in es }

  lemma AddAssociates<T>(a: seq<T>, b: seq<T>, c: seq<T>)
    ensures (a + b) + c == a + (b + c)
  {
  }

  // Several lists as one.
  function Flat(lists: seq<seq<Entry>>): seq<Entry> {
    if lists == [] then [] else Flat(lists[..|lists| - 1]) + lists[|lists| - 1]
  }

  lemma FlatNone()
    ensures Flat([]) == []
  {
  }

  lemma FlatOneMore(records: seq<seq<Entry>>, es: seq<Entry>)
    ensures Flat(records + [es]) == Flat(records) + es
  {
    assert (records + [es])[..|records|] == records;
  }

  lemma {:induction false} FlatAppend(records: seq<seq<Entry>>, more: seq<seq<Entry>>)
    ensures Flat(records + more) == Flat(records) + Flat(more)
  {
    if more == [] {
      assert records + more == records;
    } else {
      var init := more[..|more| - 1];
      FlatAppend(records, init);
      assert (records + more)[..|records + more| - 1] == records + init;
      assert (records + more)[|records + more| - 1] == more[|more| - 1];
    }
  }

  lemma UsersAscend(es: seq<Entry>, i: nat, j: nat)
    requires Sorted(es) && i <= j < |es|
    ensures es[i].key.user <= es[j].key.user
  {
    assert i < j ==> es[i].key.Before(es[j].key);
  }

  // Among entries of one user key, position order is newest first.
  lemma NewerComesFirst(es: seq<Entry>, i: nat, j: nat)
    requires Sorted(es) && i < |es| && j < |es|
    ensures i < j && es[i].key.user == es[j].key.user ==> es[i].key.sequence >= es[j].key.sequence
    ensures i < j ==> es[i].key != es[j].key
  {
    assert i < j ==> es[i].key.Before(es[j].key);
  }

  // The entry a cursor over `es` stands on after Seek(target): the first one not before target.
  function Seek(es: seq<Entry>, target: InternalKey): (i: nat)
    ensures i <= |es|
    ensures i < |es| ==> !es[i].key.Before(target)
    ensures forall j :: 0 <= j < i ==> es[j].key.Before(target)
  {
    if es == [] then 0
    else if !es[0].key.Before(target) then 0
    else 1 + Seek(es[1..], target)
  }
}

/** Byte strings under memcmp order, and their embedding in the reals. */
module UserKeys {
  import opened Dbformat

  // BytewiseComparatorImpl::Compare(a, b) < 0, that is Slice::compare.
  predicate BytewiseLess(a: Bytes, b: Bytes) {
    if b == [] then false
    else if a == [] then true
    else a[0] < b[0] || (a[0] == b[0] && BytewiseLess(a[1..], b[1..]))
  }

  function Rank(a: Bytes): (r: UserKey)
    ensures 0.0 <= r < 1.0
    ensures a != [] ==> 0.0 < r
  {
    if a == [] then 0.0 else (a[0] as real + 1.0 + Rank(a[1..])) / 257.0
  }

  // The rank orders byte strings exactly as the bytewise comparator does, and keeps distinct
  // byte strings apart: working with ranks instead of byte strings loses nothing.
  lemma {:induction false} RankIsOrderEmbedding(a: Bytes, b: Bytes)
    ensures BytewiseLess(a, b) <==> Rank(a) < Rank(b)
    ensures a == b <==> Rank(a) == Rank(b)
  {
    if a != [] && b != [] {
      RankIsOrderEmbedding(a[1..], b[1..]);
      assert a == [a[0]] + a[1..] && b == [b[0]] + b[1..];
      if a[0] < b[0] {
        assert a[0] as real + 1.0 <= b[0] as real;
      } else if b[0] < a[0] {
        assert b[0] as real + 1.0 <= a[0] as real;
      }
    }
  }
}
