/** DBIter (db/db_iter.cc): a cursor over the user-visible keys at a sequence number, built on a
    cursor over internal entries. */
module DbIter {
  import opened Dbformat
  import opened History
  import opened Merger

  // ---------- Specification ----------

  // es[i] is what a reader at s sees of its user key: a value, with no newer visible entry of the
  // key before it.
  ghost predicate VisibleAt(es: seq<Entry>, s: nat, i: nat)
    requires i < |es|
  {
    && es[i].key.sequence <= s && es[i].key.kind.Value?
    && forall j :: 0 <= j < i && es[j].key.user == es[i].key.user ==> es[j].key.sequence > s
  }

  // A reader at s sees value v under user key k.
  ghost predicate Shows(es: seq<Entry>, s: nat, k: UserKey, v: Bytes) {
    exists i :: 0 <= i < |es| && VisibleAt(es, s, i) && es[i].key.user == k && es[i].value == v
  }

  type Row = (UserKey, Bytes)

  // r is the least shown row at or after k (after k, if strict), or None if there is none.
  ghost predicate FirstFrom(es: seq<Entry>, s: nat, k: UserKey, strict: bool, r: Option<Row>) {
    && (r.Some? ==> Shows(es, s, r.value.0, r.value.1) && k <= r.value.0 && (strict ==> k < r.value.0))
    && forall x, v :: Shows(es, s, x, v) && k <= x && (strict ==> k < x) ==> r.Some? && r.value.0 <= x
  }

  // r is the greatest shown row before k, or None if there is none.
  ghost predicate LastBefore(es: seq<Entry>, s: nat, k: UserKey, r: Option<Row>) {
    && (r.Some? ==> Shows(es, s, r.value.0, r.value.1) && r.value.0 < k)
    && forall x, v :: Shows(es, s, x, v) && x < k ==> r.Some? && x <= r.value.0
  }

  // What is shown at s is what the history reads at s, for sorted entries that retain enough of it.
  lemma ShowsIffRead(es: seq<Entry>, h: Writes, s: nat, k: UserKey, v: Bytes)
    requires Sorted(es) && IsHistory(h) && s <= |h|
    requires PartOf(ToSet(es), h) && Retains(ToSet(es), h, k, s)
    ensures Shows(es, s, k, v) <==> Read(h, k, s) == Found(v)
  {
    if Shows(es, s, k, v) {
      var i :| 0 <= i < |es| && VisibleAt(es, s, i) && es[i].key.user == k && es[i].value == v;
      VisibleIsNewest(es, h, s, i);
    }
    if Read(h, k, s) == Found(v) {
      NewestIsVisible(es, h, s, k);
    }
  }

  lemma VisibleIsNewest(es: seq<Entry>, h: Writes, s: nat, i: nat)
    requires Sorted(es) && IsHistory(h) && s <= |h| && i < |es|
    requires PartOf(ToSet(es), h) && Retains(ToSet(es), h, es[i].key.user, s)
    requires VisibleAt(es, s, i)
    ensures NewestWrite(h, es[i].key.user, s) == Some(es[i])
  {
    assert es[i] in ToSet(es);
    var e := NewestWrite(h, es[i].key.user, s);
    NewestWriteIsNewest(h, es[i].key.user, s, es[i]);
    if e.value in es {
      var j :| 0 <= j < |es| && es[j] == e.value;
      NewerComesFirst(es, i, j);
    }
  }

  lemma NewestIsVisible(es: seq<Entry>, h: Writes, s: nat, k: UserKey)
    requires Sorted(es) && IsHistory(h) && s <= |h|
    requires PartOf(ToSet(es), h) && Retains(ToSet(es), h, k, s)
    requires NewestWrite(h, k, s).Some? && NewestWrite(h, k, s).value.key.kind.Value?
    ensures Shows(es, s, k, NewestWrite(h, k, s).value.value)
  {
    var e := NewestWrite(h, k, s).value;
    assert e in es;
    var i :| 0 <= i < |es| && es[i] == e;
    NewestWriteIsNewest(h, k, s, e);
    forall j | 0 <= j < i && es[j].key.user == k ensures es[j].key.sequence > s {
      assert es[j] in ToSet(es);
      NewerComesFirst(es, j, i);
      if es[j].key.sequence <= s {
        NewestWriteIsNewest(h, k, s, es[j]);
      }
    }
    assert VisibleAt(es, s, i);
  }

  // ---------- The same in terms of positions ----------

  // r is the first visible position at or after lo.
  ghost predicate IsNext(es: seq<Entry>, s: nat, lo: nat, r: nat) {
    && lo <= r <= |es|
    && (r < |es| ==> VisibleAt(es, s, r))
    && forall i :: lo <= i < r ==> !VisibleAt(es, s, i)
  }

  // r is the last visible position before hi; |es| if there is none.
  ghost predicate IsPrev(es: seq<Entry>, s: nat, hi: nat, r: nat)
    requires hi <= |es|
  {
    if r < |es| then r < hi && VisibleAt(es, s, r) && forall i :: r < i < hi ==> !VisibleAt(es, s, i)
    else r == |es| && forall i :: 0 <= i < hi ==> !VisibleAt(es, s, i)
  }

  ghost function RowAt(es: seq<Entry>, i: nat): Option<Row> {
    if i < |es| then Some((es[i].key.user, es[i].value)) else None
  }

  // Everything at or after position lo is at or after k, everything visible before it is before k.
  lemma NextIsFirstFrom(es: seq<Entry>, s: nat, lo: nat, r: nat, k: UserKey, strict: bool)
    requires Sorted(es) && IsNext(es, s, lo, r)
    requires forall i ::
               0 <= i < lo && i < |es| && VisibleAt(es, s, i) ==> es[i].key.user < k || (strict && es[i].key.user == k)
    requires forall i ::
               lo <= i < |es| && VisibleAt(es, s, i) ==> k <= es[i].key.user && (strict ==> k < es[i].key.user)
    ensures FirstFrom(es, s, k, strict, RowAt(es, r))
  {
    forall x, v | Shows(es, s, x, v) && k <= x && (strict ==> k < x)
      ensures r < |es| && es[r].key.user <= x
    {
      var i :| 0 <= i < |es| && VisibleAt(es, s, i) && es[i].key.user == x && es[i].value == v;
      assert i >= lo;
      assert i >= r;
      UsersAscend(es, r, i);
    }
  }

  lemma PrevIsLastBefore(es: seq<Entry>, s: nat, hi: nat, r: nat, k: UserKey)
    requires Sorted(es) && hi <= |es| && IsPrev(es, s, hi, r)
    requires forall i :: 0 <= i < hi && VisibleAt(es, s, i) ==> es[i].key.user < k
    requires forall i :: hi <= i < |es| && VisibleAt(es, s, i) ==> k <= es[i].key.user
    ensures LastBefore(es, s, k, RowAt(es, r))
  {
    forall x, v | Shows(es, s, x, v) && x < k
      ensures r < |es| && x <= es[r].key.user
    {
      var i :| 0 <= i < |es| && VisibleAt(es, s, i) && es[i].key.user == x && es[i].value == v;
      assert i < hi;
      UsersAscend(es, i, r);
    }
  }

  // Two visible positions hold different user keys, in order.
  lemma VisibleAscend(es: seq<Entry>, s: nat, i: nat, j: nat)
    requires Sorted(es) && i < j < |es| && VisibleAt(es, s, i) && VisibleAt(es, s, j)
    ensures es[i].key.user < es[j].key.user
  {
    UsersAscend(es, i, j);
  }

  // ---------- Scanning forward ----------

  // Positions at or past lo are wanted: those past key skip0, if skipping was asked for.
  ghost predicate Wanted(es: seq<Entry>, s: nat, start: nat, lo: nat, skipping0: bool, skip0: UserKey) {
    && start <= lo <= |es|
    && forall j :: start <= j < |es| && VisibleAt(es, s, j) ==> (j >= lo <==> (skipping0 ==> es[j].key.user > skip0))
  }

  // The state of FindNextUserEntry's loop at position p: entries up to p that s can see hide what
  // follows under the keys up to `skip`.
  ghost predicate Scanned(es: seq<Entry>, s: nat, start: nat, lo: nat, p: nat, skipping: bool, skip: UserKey)
    requires p < |es|
  {
    && start <= p
    && (forall i :: start <= i < p && VisibleAt(es, s, i) ==> i < lo)
    && (forall j :: 0 <= j < p && es[j].key.sequence <= s ==>
          if skipping then es[j].key.user <= skip else es[j].key.user < es[p].key.user)
    && (skipping ==> forall i :: p <= i < |es| && es[i].key.user <= skip && VisibleAt(es, s, i) ==> i < lo)
  }

  lemma ScanHits(
      es: seq<Entry>, s: nat, start: nat, lo: nat, p: nat, skipping0: bool, skip0: UserKey, skipping: bool,
      skip: UserKey)
    requires Sorted(es) && p < |es| && Wanted(es, s, start, lo, skipping0, skip0)
    requires Scanned(es, s, start, lo, p, skipping, skip)
    requires skipping0 ==> skipping && skip0 <= skip
    requires es[p].key.sequence <= s && es[p].key.kind.Value? && !(skipping && es[p].key.user <= skip)
    ensures IsNext(es, s, lo, p)
  {
    assert VisibleAt(es, s, p);
  }

  lemma ScanSkips(
      es: seq<Entry>, s: nat, start: nat, lo: nat, p: nat, skipping: bool, skip: UserKey, skipping': bool,
      skip': UserKey)
    requires Sorted(es) && p < |es| && Scanned(es, s, start, lo, p, skipping, skip)
    requires
      || (es[p].key.sequence > s && skipping' == skipping && skip' == skip)
      || (es[p].key.kind.Value? && skipping' && skipping && skip' == skip && es[p].key.user <= skip)
      || (es[p].key.sequence <= s && es[p].key.kind.Deletion? && skipping' && skip' == es[p].key.user)
    ensures forall i :: start <= i < p + 1 && VisibleAt(es, s, i) ==> i < lo
    ensures p + 1 < |es| ==> Scanned(es, s, start, lo, p + 1, skipping', skip')
  {
    if p + 1 < |es| {
      UsersAscend(es, p, p + 1);
      forall j | 0 <= j < p ensures es[j].key.user <= es[p].key.user {
        UsersAscend(es, j, p);
      }
      if es[p].key.sequence <= s && es[p].key.kind.Deletion? {
        // hides all upcoming entries of its key
        forall i | p < i < |es| && es[i].key.user <= es[p].key.user ensures !VisibleAt(es, s, i) {
          UsersAscend(es, p, i);
        }
      }
    }
  }

  // ---------- Scanning backward ----------

  // The state of FindPrevUserEntry's loop when positions [e, hi) are behind it: c is the saved one.
  ghost predicate ScannedBack(es: seq<Entry>, s: nat, hi: nat, e: nat, valueType: ValueType, c: nat) {
    && e <= hi <= |es|
    && match valueType
       case Deletion => forall i :: e <= i < hi ==> !VisibleAt(es, s, i)
       case Value =>
         && e <= c < hi && es[c].key.kind.Value? && es[c].key.sequence <= s
         && (forall i :: e <= i < c ==> es[i].key.sequence > s)
         && forall i :: c < i < hi ==> !VisibleAt(es, s, i)
  }

  lemma BackSkips(es: seq<Entry>, s: nat, hi: nat, p: nat, valueType: ValueType, c: nat)
    requires Sorted(es) && ScannedBack(es, s, hi, p + 1, valueType, c)
    ensures es[p].key.sequence > s ==> ScannedBack(es, s, hi, p, valueType, c)
    ensures es[p].key.sequence <= s && (valueType.Value? ==> es[c].key.user <= es[p].key.user) ==>
              ScannedBack(es, s, hi, p, es[p].key.kind, p)
  {
    if es[p].key.sequence <= s && valueType.Value? && es[c].key.user <= es[p].key.user {
      UsersAscend(es, p, c);
      assert !VisibleAt(es, s, c);
    }
  }

  // The scan stops at an entry of an earlier key, or at the front: the saved entry is the one.
  lemma BackStops(es: seq<Entry>, s: nat, hi: nat, e: nat, c: nat)
    requires Sorted(es) && ScannedBack(es, s, hi, e, Value, c)
    requires e > 0 ==> es[e - 1].key.user < es[c].key.user
    ensures IsPrev(es, s, hi, c)
  {
    forall j | 0 <= j < c && es[j].key.user == es[c].key.user ensures es[j].key.sequence > s {
      if j < e {
        UsersAscend(es, j, e - 1);
      }
    }
    assert VisibleAt(es, s, c);
  }

  class DBIter {
    const iter: MergingIterator
    const sequence: nat
    var savedKey: UserKey    // the current key when direction is Reverse
    var savedValue: Bytes    // the current value when direction is Reverse
    var direction: Direction
    var valid: bool

    ghost var at: nat  // the position of the current entry; |iter.merged| when not valid

    ghost predicate Valid()
      reads this, iter
    {
      && iter.Valid()
      && at <= |iter.merged|
      && (valid <==> at < |iter.merged|)
      && (valid ==> VisibleAt(iter.merged, sequence, at))
      && (valid && direction.Forward? ==> iter.pos == at)
      && (valid && direction.Reverse? ==>
            && savedKey == iter.merged[at].key.user && savedValue == iter.merged[at].value
            && Resume() <= at
            && (Resume() > 0 ==> iter.merged[Resume() - 1].key.user < savedKey)
            && forall i :: Resume() <= i < at ==> iter.merged[i].key.sequence > sequence)
    }

    // Where moving the internal iterator forward would take it.
    ghost function Resume(): (r: nat)
      requires iter.Valid()
      reads this, iter
      ensures r <= |iter.merged|
    {
      if iter.pos == |iter.merged| then 0 else iter.pos + 1
    }

    ghost function Now(): Option<Row>
      reads this
    {
      RowAt(iter.merged, at)
    }

    constructor (it: MergingIterator, s: nat)
      requires it.Valid()
      ensures Valid() && iter == it && sequence == s && Now() == None
    {
      iter, sequence := it, s;
      savedKey, savedValue := 0.0, [];
      direction, valid := Forward, false;
      at := |it.merged|;
    }

    method Key() returns (k: UserKey)
      requires Valid() && valid
      ensures Now().Some? && k == Now().value.0
    {
      k := if direction == Forward then iter.Current().key.user else savedKey;
    }

    method Value() returns (v: Bytes)
      requires Valid() && valid
      ensures Now().Some? && v == Now().value.1
    {
      v := if direction == Forward then iter.Current().value else savedValue;
    }

    // Advances to the first visible entry whose user key is past `skip` (if skipping).
    method FindNextUserEntry(skipping0: bool, skip0: UserKey, ghost lo: nat)
      requires iter.Valid() && iter.pos < |iter.merged| && direction.Forward?
      requires Wanted(iter.merged, sequence, iter.pos, lo, skipping0, skip0)
      requires Scanned(iter.merged, sequence, iter.pos, lo, iter.pos, skipping0, skip0)
      requires skipping0 ==> forall j ::
                 iter.pos <= j < |iter.merged| && iter.merged[j].key.sequence <= sequence ==>
                 skip0 <= iter.merged[j].key.user
      modifies this, iter
      ensures Valid() && direction.Forward? && IsNext(iter.merged, sequence, lo, at)
    {
      hide MergingIterator.Valid;
      ghost var es, start := iter.merged, iter.pos;
      iter.ValidFacts();
      var skipping, skip := skipping0, skip0;
      while true
        invariant iter.Valid() && start <= iter.pos < |es| && direction.Forward?
        invariant Scanned(es, sequence, start, lo, iter.pos, skipping, skip)
        invariant skipping0 ==> skipping && skip0 <= skip
        decreases |es| - iter.pos
      {
        hide Scanned, VisibleAt;
        var e := iter.Current();
        ghost var p, skipping', skip' := iter.pos, skipping, skip;
        if e.key.sequence <= sequence {
          if e.key.kind.Deletion? {
            // hides all upcoming entries of this key
            skip := e.key.user;
            skipping := true;
          } else if skipping && e.key.user <= skip {
            // hidden
          } else {
            ScanHits(es, sequence, start, lo, p, skipping0, skip0, skipping, skip);
            valid := true;
            savedKey := 0.0;
            at := p;
            return;
          }
        }
        ScanSkips(es, sequence, start, lo, p, skipping', skip', skipping, skip);
        iter.Next();
        iter.ValidFacts();
        if !iter.IsValid() {
          break;
        }
      }
      savedKey := 0.0;
      valid := false;
      at := |es|;
    }

    method Seek(target: UserKey)
      requires Valid()
      modifies this, iter
      ensures Valid() && FirstFrom(iter.merged, sequence, target, false, Now())
    {
      hide MergingIterator.Valid;
      iter.ValidFacts();
      direction := Forward;
      savedValue := [];
      iter.Seek(LookupKey(target, sequence));
      ghost var es, lo := iter.merged, iter.pos;
      forall j | 0 <= j < lo && es[j].key.sequence <= sequence ensures es[j].key.user < target {}
      forall j | lo <= j < |es| ensures target <= es[j].key.user {
        UsersAscend(es, lo, j);
      }
      if iter.IsValid() {
        FindNextUserEntry(false, savedKey, lo);
      } else {
        valid := false;
        at := |es|;
      }
      NextIsFirstFrom(es, sequence, lo, at, target, false);
    }

    method SeekToFirst()
      requires Valid()
      modifies this, iter
      ensures Valid()
      ensures Now() == None ==> forall x, v :: !Shows(iter.merged, sequence, x, v)
      ensures Now().Some? ==> FirstFrom(iter.merged, sequence, Now().value.0, false, Now())
      ensures forall x, v :: Shows(iter.merged, sequence, x, v) ==> Now().Some? && Now().value.0 <= x
    {
      hide MergingIterator.Valid;
      iter.ValidFacts();
      direction := Forward;
      savedValue := [];
      iter.SeekToFirst();
      ghost var es := iter.merged;
      if iter.IsValid() {
        FindNextUserEntry(false, savedKey, 0);
      } else {
        valid := false;
        at := |es|;
      }
      forall x, v | Shows(es, sequence, x, v) ensures at < |es| && es[at].key.user <= x {
        var i :| 0 <= i < |es| && VisibleAt(es, sequence, i) && es[i].key.user == x && es[i].value == v;
        UsersAscend(es, at, i);
      }
    }

    method Next()
      requires Valid() && valid
      modifies this, iter
      ensures Valid() && FirstFrom(iter.merged, sequence, old(Now().value.0), true, Now())
    {
      hide MergingIterator.Valid;
      iter.ValidFacts();
      ghost var es, was := iter.merged, at;
      if direction == Reverse {
        direction := Forward;
        // iter is just before the entries of the current key: move into them
        if !iter.IsValid() {
          iter.SeekToFirst();
        } else {
          iter.Next();
        }
        assert iter.pos <= was < |es|;
      } else {
        savedKey := iter.Current().key.user;
      }
      assert savedKey == es[was].key.user;
      forall j | 0 <= j < |es|
        ensures j < iter.pos && es[j].key.sequence <= sequence ==> es[j].key.user <= savedKey
        ensures j >= iter.pos && es[j].key.sequence <= sequence ==> savedKey <= es[j].key.user
        ensures VisibleAt(es, sequence, j) ==> (j >= was + 1 <==> es[j].key.user > savedKey)
      {
        if j < was { UsersAscend(es, j, was); } else { UsersAscend(es, was, j); }
      }
      FindNextUserEntry(true, savedKey, was + 1);
      NextIsFirstFrom(es, sequence, was + 1, at, es[was].key.user, true);
    }

    // Steps back to the last visible entry before the internal iterator's position.
    method FindPrevUserEntry()
      requires iter.Valid() && direction.Reverse?
      modifies this, iter
      ensures Valid() && IsPrev(iter.merged, sequence, old(Resume()), at)
    {
      hide MergingIterator.Valid;
      ghost var es, hi := iter.merged, Resume();
      ghost var c: nat := 0;  // the position of the saved entry
      iter.ValidFacts();
      var valueType := Deletion;
      while iter.IsValid()
        invariant iter.Valid() && direction.Reverse?
        invariant ScannedBack(es, sequence, hi, Resume(), valueType, c)
        invariant valueType.Value? ==> savedKey == es[c].key.user && savedValue == es[c].value
        decreases Resume()
      {
        var e := iter.Current();
        BackSkips(es, sequence, hi, iter.pos, valueType, c);
        if e.key.sequence <= sequence {
          if valueType != Deletion && e.key.user < savedKey {
            // an entry of an earlier key: the saved one stands
            break;
          }
          valueType := e.key.kind;
          c := iter.pos;
          if valueType == Deletion {
            savedKey := 0.0;
            savedValue := [];
          } else {
            savedKey := e.key.user;
            savedValue := e.value;
          }
        }
        iter.Prev();
        iter.ValidFacts();
      }
      if valueType == Deletion {
        valid := false;
        savedKey := 0.0;
        savedValue := [];
        direction := Forward;
        at := |es|;
      } else {
        BackStops(es, sequence, hi, Resume(), c);
        valid := true;
        at := c;
      }
    }

    method Prev()
      requires Valid() && valid
      modifies this, iter
      ensures Valid() && LastBefore(iter.merged, sequence, old(Now().value.0), Now())
    {
      hide MergingIterator.Valid;
      iter.ValidFacts();
      ghost var es, was := iter.merged, at;
      if direction == Forward {
        savedKey := iter.Current().key.user;
        // scan back until the key changes
        while true
          invariant iter.Valid() && iter.pos <= was && savedKey == es[was].key.user
          invariant es[iter.pos].key.user == savedKey
          decreases iter.pos
        {
          iter.Prev();
          if !iter.IsValid() {
            valid := false;
            savedKey := 0.0;
            savedValue := [];
            at := |es|;
            NoneBefore(es, sequence, was);
            return;
          }
          if iter.Current().key.user < savedKey {
            break;
          }
          UsersAscend(es, iter.pos, was);
        }
        direction := Reverse;
      }
      ghost var hi := Resume();
      FindPrevUserEntry();
      forall i | 0 <= i < |es| && VisibleAt(es, sequence, i)
        ensures i < hi ==> es[i].key.user < es[was].key.user
        ensures i >= hi ==> es[was].key.user <= es[i].key.user
      {
        if i < was { VisibleAscend(es, sequence, i, was); } else { UsersAscend(es, was, i); }
      }
      PrevIsLastBefore(es, sequence, hi, at, es[was].key.user);
    }

    method SeekToLast()
      requires Valid()
      modifies this, iter
      ensures Valid()
      ensures Now().Some? ==> Shows(iter.merged, sequence, Now().value.0, Now().value.1)
      ensures forall x, v :: Shows(iter.merged, sequence, x, v) ==> Now().Some? && x <= Now().value.0
    {
      hide MergingIterator.Valid;
      iter.ValidFacts();
      direction := Reverse;
      savedValue := [];
      iter.SeekToLast();
      ghost var es := iter.merged;
      assert Resume() == |es|;
      FindPrevUserEntry();
      forall x, v | Shows(es, sequence, x, v) ensures at < |es| && x <= es[at].key.user {
        var i :| 0 <= i < |es| && VisibleAt(es, sequence, i) && es[i].key.user == x && es[i].value == v;
        UsersAscend(es, i, at);
      }
    }
  }

  lemma NoneBefore(es: seq<Entry>, s: nat, was: nat)
    requires Sorted(es) && was < |es| && VisibleAt(es, s, was)
    requires es != [] && es[0].key.user == es[was].key.user
    ensures LastBefore(es, s, es[was].key.user, None)
  {
    forall x, v | Shows(es, s, x, v) ensures es[was].key.user <= x {
      var i :| 0 <= i < |es| && VisibleAt(es, s, i) && es[i].key.user == x && es[i].value == v;
      UsersAscend(es, 0, i);
    }
  }
}
