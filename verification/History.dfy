/** The specification: a multi-version map.

    Every write ever applied gets the next sequence number, so the whole content of a database
    is the list of its writes: the entry with sequence number n is history[n - 1].  Where a crash
    lost a write whose number was already used up, the list has None.  A read of user key k at
    sequence number s must see the newest of the first s writes that is about k. */
module History {
  import opened Dbformat

  type Writes = seq<Option<Entry>>

  datatype Lookup = NotFound | Found(value: Bytes)

  ghost predicate IsHistory(h: Writes) {
    forall i :: 0 <= i < |h| && h[i].Some? ==> h[i].value.key.sequence == i + 1
  }

  // The writes in h.
  ghost function Written(h: Writes): set<Entry> { set o | o in h && o.Some? :: o.value }

  // The newest write about k among the first s writes.
  function NewestWrite(h: Writes, k: UserKey, s: nat): (r: Option<Entry>)
    requires s <= |h|
    ensures r.Some? ==> r.value.key.user == k && r in h[..s]
  {
    if s == 0 then None
    else if h[s - 1].Some? && h[s - 1].value.key.user == k then h[s - 1]
    else NewestWrite(h, k, s - 1)
  }

  function Outcome(e: Option<Entry>): Lookup {
    if e.Some? && e.value.key.kind.Value? then Found(e.value.value) else NotFound
  }

  // The promise of DB::Get.
  function Read(h: Writes, k: UserKey, s: nat): Lookup
    requires s <= |h|
  {
    Outcome(NewestWrite(h, k, s))
  }

  // `e` is the newest entry about k with sequence number at most s in the set S.
  ghost predicate IsNewest(S: set<Entry>, k: UserKey, s: nat, e: Entry) {
    && e in S && e.key.user == k && e.key.sequence <= s
    && forall x :: x in S && x.key.user == k && x.key.sequence <= s ==> x.key.sequence <= e.key.sequence
  }

  ghost predicate NothingVisible(S: set<Entry>, k: UserKey, s: nat) {
    forall x :: x in S && x.key.user == k ==> x.key.sequence > s
  }

  // The result of looking k up at s in the set S of stored entries.
  ghost predicate Answers(S: set<Entry>, k: UserKey, s: nat, r: Lookup) {
    match r
    case NotFound => NothingVisible(S, k, s) || exists e :: IsNewest(S, k, s, e) && e.key.kind.Deletion?
    case Found(v) => exists e :: IsNewest(S, k, s, e) && e.key.kind.Value? && e.value == v
  }

  ghost predicate DistinctSequences(S: set<Entry>) {
    forall a, b :: a in S && b in S && a.key.sequence == b.key.sequence ==> a == b
  }

  ghost predicate PartOf(S: set<Entry>, h: Writes) {
    forall e :: e in S ==> 1 <= e.key.sequence <= |h| && h[e.key.sequence - 1] == Some(e)
  }

  // What the stored set S must retain of the history for reads of k at s to come out right: the
  // newest write itself, unless it is a deletion with nothing older of k left to hide.
  ghost predicate Retains(S: set<Entry>, h: Writes, k: UserKey, s: nat)
    requires s <= |h|
  {
    var e := NewestWrite(h, k, s);
    e.Some? ==>
      || e.value in S
      || (e.value.key.kind.Deletion? && forall x :: x in S && x.key.user == k ==> x.key.sequence > e.value.key.sequence)
  }

  ghost predicate RetainsFrom(S: set<Entry>, h: Writes, floor: nat) {
    forall k, s | floor <= s <= |h| :: Retains(S, h, k, s)
  }

  // NewestWrite is what its name says.
  lemma {:induction false} NewestWriteIsNewest(h: Writes, k: UserKey, s: nat, x: Entry)
    requires IsHistory(h) && s <= |h|
    requires Some(x) in h && x.key.user == k && x.key.sequence <= s
    ensures var e := NewestWrite(h, k, s); e.Some? && x.key.sequence <= e.value.key.sequence <= s
  {
    var i :| 0 <= i < |h| && h[i] == Some(x);
    if !(h[s - 1].Some? && h[s - 1].value.key.user == k) {
      NewestWriteIsNewest(h, k, s - 1, x);
    }
  }

  // Reads of a stored set that retains enough of the history agree with the history.
  lemma RetainedReadsAreRight(S: set<Entry>, h: Writes, k: UserKey, s: nat, r: Lookup)
    requires IsHistory(h) && PartOf(S, h) && s <= |h|
    requires Retains(S, h, k, s)
    requires Answers(S, k, s, r)
    ensures r == Read(h, k, s)
  {
    forall x | x in S && x.key.user == k && x.key.sequence <= s
      ensures NewestWrite(h, k, s).Some? && x.key.sequence <= NewestWrite(h, k, s).value.key.sequence <= s
    {
      NewestWriteIsNewest(h, k, s, x);
    }
    var e := NewestWrite(h, k, s);
    if e.Some? {
      NewestWriteIsNewest(h, k, s, e.value);
    }
  }

  // Later writes do not change what a reader at s sees.
  lemma {:induction false} NewestWriteInPrefix(h: Writes, n: nat, k: UserKey, s: nat)
    requires s <= n <= |h|
    ensures NewestWrite(h[..n], k, s) == NewestWrite(h, k, s)
  {
    if s > 0 && !(h[s - 1].Some? && h[s - 1].value.key.user == k) {
      NewestWriteInPrefix(h, n, k, s - 1);
    }
  }
}
