/** What dropping entries in a compaction does to reads (db/db_impl.cc, the comments and branches
    of DoCompactionWork). */
module DropRule {
  import opened Dbformat
  import opened History
  import opened Version
  import opened CompactionWork
  import opened Jobs

  ghost function DroppedOf(v: Levels, level: nat, I: set<Entry>, smallest: nat): set<Entry> {
    set e | e in I && Dropped(v, level, I, smallest, e)
  }

  // Dropping keeps what every snapshot from `floor` on needs, if everything older than an obsolete
  // deletion of the inputs is dropped along with it.
  lemma DroppingRetains(job: Job, S: set<Entry>, h: Writes, floor: nat)
    requires IsHistory(h) && PartOf(S, h)
    requires Inputs(job.inputs0, job.inputs1) <= S && OlderTaken(job, S)
    requires floor <= |h| && (job.smallest <= floor || floor == |h|)
    requires RetainsFrom(S, h, floor)
    ensures RetainsFrom(S - DroppedOf(job.base, job.level, Inputs(job.inputs0, job.inputs1), job.smallest), h, floor)
  {
    hide Inputs, DroppedOf, Retains, OlderTaken, PartOf, IsHistory;
    var T := S - DroppedOf(job.base, job.level, Inputs(job.inputs0, job.inputs1), job.smallest);
    forall k, s | floor <= s <= |h| ensures Retains(T, h, k, s) {
      assert Retains(S, h, k, s);
      DroppingRetainsAt(job, S, Inputs(job.inputs0, job.inputs1), h, k, s);
    }
  }

  lemma DroppingRetainsAt(job: Job, S: set<Entry>, I: set<Entry>, h: Writes, k: UserKey, s: nat)
    requires IsHistory(h) && PartOf(S, h) && s <= |h|
    requires I == Inputs(job.inputs0, job.inputs1) && I <= S && OlderTaken(job, S)
    requires job.smallest <= s || s == |h|
    requires Retains(S, h, k, s)
    ensures Retains(S - DroppedOf(job.base, job.level, I, job.smallest), h, k, s)
  {
    hide Inputs, Obsolete, Hidden, IsBaseLevel;
    var T := S - DroppedOf(job.base, job.level, I, job.smallest);
    var e := NewestWrite(h, k, s);
    if e.Some? && e.value in S && e.value !in T {
      NewestIsNotHidden(I, h, job.smallest, k, s);
      ObsoleteIsDeletion(job, e.value);
      OlderAreHidden(I, job.smallest, e.value);
      forall x | x in T && x.key.user == k ensures x.key.sequence >= e.value.key.sequence {
        assert x in S;
      }
      forall x | x in T && x.key.user == k ensures x != e.value && x.key.sequence != e.value.key.sequence {
        assert x in S;
      }
    }
  }

  lemma ObsoleteIsDeletion(job: Job, e: Entry)
    requires Obsolete(job.base, job.level, job.smallest, e)
    ensures e.key.kind.Deletion? && e.key.sequence <= job.smallest
  {
  }

  lemma OlderAreHidden(I: set<Entry>, smallest: nat, n: Entry)
    requires n in I && n.key.sequence <= smallest
    ensures forall x :: x in I && x.key.user == n.key.user && x.key.sequence < n.key.sequence ==> Hidden(I, smallest, x)
  {
  }

  lemma NewestIsNotHidden(I: set<Entry>, h: Writes, smallest: nat, k: UserKey, s: nat)
    requires IsHistory(h) && PartOf(I, h) && s <= |h|
    requires smallest <= s || s == |h|
    requires NewestWrite(h, k, s).Some?
    ensures !Hidden(I, smallest, NewestWrite(h, k, s).value)
  {
    var e := NewestWrite(h, k, s).value;
    if Hidden(I, smallest, e) {
      var n :| n in I && n.key.user == e.key.user && e.key.sequence < n.key.sequence <= smallest;
      assert Some(n) in h;
      NewestWriteIsNewest(h, k, s, n);
    }
  }

  // ---------- Nothing is kept or dropped needlessly ----------

  lemma HiddenIffNeverRead(I: set<Entry>, smallest: nat, e: Entry)
    requires e in I
    ensures Hidden(I, smallest, e) <==> forall s :: s >= smallest ==> !IsNewest(I, e.key.user, s, e)
  {
    var s := if e.key.sequence < smallest then smallest else e.key.sequence;
    if !Hidden(I, smallest, e) {
      assert IsNewest(I, e.key.user, s, e);
    }
  }

  // Of its inputs a compaction drops what no read at or after the smallest snapshot can come to among them,
  // and of the deletions all these reads see, those whose key no file of a deeper level spans; nothing else.
  lemma DroppedIffUseless(v: Levels, level: nat, I: set<Entry>, smallest: nat, e: Entry)
    requires e in I
    ensures Dropped(v, level, I, smallest, e) <==>
            || (forall s :: s >= smallest ==> !IsNewest(I, e.key.user, s, e))
            || (&& e.key.kind.Deletion? && e.key.sequence <= smallest
                && forall l, f :: level + 2 <= l < |v| && f in v[l] ==> !Contains(f, e.key.user))
  {
    hide IsNewest, Hidden, Contains;
    HiddenIffNeverRead(I, smallest, e);
  }

  // ---------- Exactly when reads survive ----------

  // Dropping the deletion t uncovers the value u, which is not among the inputs.
  ghost predicate Uncovers(S: set<Entry>, I: set<Entry>, v: Levels, level: nat, smallest: nat, t: Entry, u: Entry) {
    && t in I && Obsolete(v, level, smallest, t) && IsNewest(S, t.key.user, smallest, t)
    && u in S - I && u.key.kind.Value? && u.key.user == t.key.user && u.key.sequence < t.key.sequence
    && forall x ::
         x in S - I && x.key.user == t.key.user && x.key.sequence < t.key.sequence ==> x.key.sequence <= u.key.sequence
  }

  ghost predicate SameAnswers(S: set<Entry>, T: set<Entry>, k: UserKey, s: nat) {
    forall r :: Answers(S, k, s, r) <==> Answers(T, k, s, r)
  }

  lemma {:induction false} NewestExists(S: set<Entry>, k: UserKey, s: nat)
    ensures NothingVisible(S, k, s) || exists e :: IsNewest(S, k, s, e)
  {
    if x :| x in S && x.key.user == k && x.key.sequence <= s {
      var rest := S - {x};
      NewestExists(rest, k, s);
      if NothingVisible(rest, k, s) {
        assert IsNewest(S, k, s, x);
      } else {
        var e :| IsNewest(rest, k, s, e);
        assert IsNewest(S, k, s, if x.key.sequence >= e.key.sequence then x else e);
      }
    }
  }

  lemma NewestIsUnique(S: set<Entry>, k: UserKey, s: nat, a: Entry, b: Entry)
    requires DistinctSequences(S) && IsNewest(S, k, s, a) && IsNewest(S, k, s, b)
    ensures a == b
  {
  }

  // For any input set taken from any stored set: the drop rule changes no answer at or after the
  // oldest snapshot if and only if it uncovers nothing.
  lemma AnswersKeptIffNothingUncovered(S: set<Entry>, I: set<Entry>, v: Levels, level: nat, smallest: nat)
    requires DistinctSequences(S) && I <= S
    ensures (forall k, s :: s >= smallest ==> SameAnswers(S, S - DroppedOf(v, level, I, smallest), k, s))
            <==> !exists t, u :: Uncovers(S, I, v, level, smallest, t, u)
  {
    var T := S - DroppedOf(v, level, I, smallest);
    if t, u :| Uncovers(S, I, v, level, smallest, t, u) {
      UncoveringChangesAnswer(S, I, v, level, smallest, t, u);
    } else {
      forall k, s | s >= smallest ensures SameAnswers(S, T, k, s) {
        NothingUncoveredKeeps(S, I, v, level, smallest, k, s);
      }
    }
  }

  lemma UncoveringChangesAnswer(S: set<Entry>, I: set<Entry>, v: Levels, level: nat, smallest: nat, t: Entry, u: Entry)
    requires DistinctSequences(S) && I <= S && Uncovers(S, I, v, level, smallest, t, u)
    ensures !SameAnswers(S, S - DroppedOf(v, level, I, smallest), t.key.user, smallest)
    ensures Answers(S, t.key.user, smallest, NotFound)
    ensures Answers(S - DroppedOf(v, level, I, smallest), t.key.user, smallest, Found(u.value))
  {
    var T := S - DroppedOf(v, level, I, smallest);
    var k := t.key.user;
    assert u in T && t !in T;
    OlderAreHidden(I, smallest, t);
    forall x | x in T && x.key.user == k && x.key.sequence <= smallest ensures x.key.sequence <= u.key.sequence {
      assert x.key.sequence <= t.key.sequence;
    }
    assert IsNewest(T, k, smallest, u);
    forall d | IsNewest(T, k, smallest, d) ensures d == u {
      NewestIsUnique(T, k, smallest, u, d);
    }
    assert Answers(S, k, smallest, NotFound) && !Answers(T, k, smallest, NotFound);
  }

  lemma NothingUncoveredKeeps(S: set<Entry>, I: set<Entry>, v: Levels, level: nat, smallest: nat, k: UserKey, s: nat)
    requires DistinctSequences(S) && I <= S && s >= smallest
    requires !exists t, u :: Uncovers(S, I, v, level, smallest, t, u)
    ensures SameAnswers(S, S - DroppedOf(v, level, I, smallest), k, s)
  {
    var T := S - DroppedOf(v, level, I, smallest);
    NewestExists(S, k, s);
    NewestExists(T, k, s);
    if !NothingVisible(S, k, s) {
      var e :| IsNewest(S, k, s, e);
      if e in T {
        assert IsNewest(T, k, s, e);
        SameNewestSameAnswers(S, T, k, s, e);
      } else {
        // e is an obsolete deletion: the answer was NotFound, and stays so
        assert Obsolete(v, level, smallest, e);
        assert IsNewest(S, k, smallest, e);
        if !NothingVisible(T, k, s) {
          var u :| IsNewest(T, k, s, u);
          OlderAreHidden(I, smallest, e);
          assert u !in I;
          assert !Uncovers(S, I, v, level, smallest, e, u);
          assert u.key.kind.Deletion?;
          BothDeleted(S, T, k, s, e, u);
        } else {
          OneDeleted(S, T, k, s, e);
        }
      }
    } else {
      assert NothingVisible(T, k, s);
    }
  }

  lemma SameNewestSameAnswers(S: set<Entry>, T: set<Entry>, k: UserKey, s: nat, e: Entry)
    requires DistinctSequences(S) && T <= S && IsNewest(S, k, s, e) && IsNewest(T, k, s, e)
    ensures SameAnswers(S, T, k, s)
  {
    forall x | IsNewest(S, k, s, x) ensures x == e { NewestIsUnique(S, k, s, e, x); }
    forall x | IsNewest(T, k, s, x) ensures x == e { NewestIsUnique(T, k, s, e, x); }
  }

  lemma BothDeleted(S: set<Entry>, T: set<Entry>, k: UserKey, s: nat, e: Entry, u: Entry)
    requires DistinctSequences(S) && T <= S && IsNewest(S, k, s, e) && IsNewest(T, k, s, u)
    requires e.key.kind.Deletion? && u.key.kind.Deletion?
    ensures SameAnswers(S, T, k, s)
  {
    forall x | IsNewest(S, k, s, x) ensures x == e { NewestIsUnique(S, k, s, e, x); }
    forall x | IsNewest(T, k, s, x) ensures x == u { NewestIsUnique(T, k, s, u, x); }
  }

  lemma OneDeleted(S: set<Entry>, T: set<Entry>, k: UserKey, s: nat, e: Entry)
    requires DistinctSequences(S) && T <= S && IsNewest(S, k, s, e) && NothingVisible(T, k, s)
    requires e.key.kind.Deletion?
    ensures SameAnswers(S, T, k, s)
  {
    forall x | IsNewest(S, k, s, x) ensures x == e { NewestIsUnique(S, k, s, e, x); }
  }
}
