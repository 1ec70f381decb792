/** The compaction loop: which entries are dropped, and the files the rest goes to
    (db/db_impl.cc, DoCompactionWork; db/version_set.cc, Compaction). */
module CompactionWork {
  import opened Dbformat
  import opened History
  import opened Version
  import opened CompactionInputs
  import opened Merger

  // ---------- What may be dropped ----------

  // No level below the compaction's output has a file around k.
  ghost predicate IsBaseLevel(v: Levels, level: nat, k: UserKey) {
    forall l, f :: level + 2 <= l < |v| && f in v[l] ==> !Contains(f, k)
  }

  // A newer entry of the key that every snapshot sees is also being compacted.
  ghost predicate Hidden(I: set<Entry>, smallest: nat, e: Entry) {
    exists n :: n in I && n.key.user == e.key.user && e.key.sequence < n.key.sequence <= smallest
  }

  // A deletion every snapshot sees, with nothing below that it could hide.
  ghost predicate Obsolete(v: Levels, level: nat, smallest: nat, e: Entry) {
    e.key.kind.Deletion? && e.key.sequence <= smallest && IsBaseLevel(v, level, e.key.user)
  }

  ghost predicate Dropped(v: Levels, level: nat, I: set<Entry>, smallest: nat, e: Entry) {
    Hidden(I, smallest, e) || Obsolete(v, level, smallest, e)
  }

  ghost function Inputs(inputs0: Level, inputs1: Level): set<Entry> {
    Entries(inputs0) + Entries(inputs1)
  }

  // ---------- IsBaseLevelForKey ----------

  class Compaction {
    const level: nat
    const inputVersion: Levels
    const levelPtrs: array<nat>  // a cursor per level, only ever advanced

    ghost predicate Valid()
      reads levelPtrs
    {
      && ValidVersion(inputVersion)
      && level + 1 < NUM_LEVELS
      && levelPtrs.Length == NUM_LEVELS
      && forall l :: 0 <= l < NUM_LEVELS ==> levelPtrs[l] <= |inputVersion[l]|
    }

    // Every file a cursor has passed ends before k.
    ghost predicate Behind(k: UserKey)
      requires Valid()
      reads levelPtrs
    {
      forall l, i :: level + 2 <= l < NUM_LEVELS && 0 <= i < levelPtrs[l] ==> inputVersion[l][i].largest.user < k
    }

    constructor (v: Levels, lvl: nat)
      requires ValidVersion(v) && lvl + 1 < NUM_LEVELS
      ensures Valid() && fresh(levelPtrs) && inputVersion == v && level == lvl
      ensures forall k :: Behind(k)
    {
      inputVersion, level := v, lvl;
      levelPtrs := new nat[NUM_LEVELS](_ => 0);
    }

    lemma BehindLater(k: UserKey, k': UserKey)
      requires Valid() && Behind(k) && k <= k'
      ensures Behind(k')
    {
    }

    // Exact, as long as keys are asked about in ascending order.
    method IsBaseLevelForKey(k: UserKey) returns (base: bool)
      requires Valid() && Behind(k)
      modifies levelPtrs
      ensures Valid() && Behind(k)
      ensures base <==> IsBaseLevel(inputVersion, level, k)
    {
      for lvl := level + 2 to NUM_LEVELS
        invariant Valid() && Behind(k)
        invariant forall l, f :: level + 2 <= l < lvl && f in inputVersion[l] ==> !Contains(f, k)
      {
        var files := inputVersion[lvl];
        assert ValidFiles(files) && Disjoint(files);
        while levelPtrs[lvl] < |files|
          invariant Valid() && Behind(k)
        {
          var f := files[levelPtrs[lvl]];
          if k <= f.largest.user {
            // advanced far enough
            if k >= f.smallest.user {
              assert f in inputVersion[lvl] && Contains(f, k);
              return false;
            }
            FileEndsAfterStart(f);
            forall j | levelPtrs[lvl] < j < |files| ensures k < files[j].smallest.user {
              assert f.largest.Before(files[j].smallest);
            }
            break;
          }
          levelPtrs[lvl] := levelPtrs[lvl] + 1;
        }
        forall g | g in files ensures !Contains(g, k) {
          var j :| 0 <= j < |files| && files[j] == g;
        }
      }
      base := true;
    }
  }

  // ---------- The loop ----------

  // kept is what remains, in order, of the first n entries of merged.
  ghost predicate Kept(kept: seq<Entry>, merged: seq<Entry>, n: nat, v: Levels, level: nat, smallest: nat)
    requires n <= |merged|
  {
    && Sorted(kept)
    && (forall e :: e in kept <==> e in merged[..n] && !Dropped(v, level, ToSet(merged), smallest, e))
  }

  // Rule (A) looks at the preceding entry only, and that is enough.
  lemma HiddenByPredecessor(merged: seq<Entry>, p: nat, smallest: nat)
    requires Sorted(merged) && DistinctSequences(ToSet(merged)) && p < |merged|
    ensures Hidden(ToSet(merged), smallest, merged[p]) <==>
              p > 0 && merged[p - 1].key.user == merged[p].key.user && merged[p - 1].key.sequence <= smallest
  {
    assert merged[p] in ToSet(merged);
    if p > 0 {
      assert merged[p - 1] in ToSet(merged);
      NewerComesFirst(merged, p - 1, p);
    }
    if Hidden(ToSet(merged), smallest, merged[p]) {
      var n :| n in ToSet(merged) && n.key.user == merged[p].key.user &&
          merged[p].key.sequence < n.key.sequence <= smallest;
      var j :| 0 <= j < |merged| && merged[j] == n;
      NewerComesFirst(merged, p, j);
      assert j < p;
      UsersAscend(merged, j, p - 1);
      UsersAscend(merged, p - 1, p);
      NewerComesFirst(merged, j, p - 1);
    }
  }

  lemma KeptNone(merged: seq<Entry>, v: Levels, level: nat, smallest: nat)
    ensures Kept([], merged, 0, v, level, smallest)
  {
  }

  lemma KeptNext(kept: seq<Entry>, merged: seq<Entry>, n: nat, v: Levels, level: nat, smallest: nat, drop: bool)
    requires Sorted(merged) && n < |merged| && Kept(kept, merged, n, v, level, smallest)
    requires drop <==> Dropped(v, level, ToSet(merged), smallest, merged[n])
    ensures Kept(if drop then kept else kept + [merged[n]], merged, n + 1, v, level, smallest)
  {
    hide InternalKey.Before;
    hide Dropped;
    assert merged[..n + 1] == merged[..n] + [merged[n]];
    forall e | e in kept ensures e.key.Before(merged[n].key) {
      assert e in merged[..n];
      var j :| 0 <= j < n && merged[j] == e;
    }
  }

  // Compacts the merged input entries.  stopBefore and full stand for the decisions, taken from
  // sizes, to start a new output file before an entry or to end the file after it.
  method DoCompactionWork(
      c: Compaction, input: MergingIterator, smallest: nat, stopBefore: nat -> bool, full: nat -> bool)
    returns (outputs: seq<seq<Entry>>)
    requires c.Valid() && (forall k :: c.Behind(k)) && input.Valid()
    requires DistinctSequences(ToSet(input.merged))
    requires smallest < MAX_SEQUENCE_NUMBER
    modifies c.levelPtrs, input
    ensures forall o :: o in outputs ==> o != []
    ensures Kept(Flat(outputs), input.merged, |input.merged|, c.inputVersion, c.level, smallest)
  {
    hide MergingIterator.Valid, Compaction.Valid, Compaction.Behind, Kept, Hidden, IsBaseLevel, Flat,
         InternalKey.Before, Sorted, DistinctSequences;
    outputs := [];
    ghost var merged := input.merged;
    var builder: Option<seq<Entry>> := None;
    var currentUserKey: Option<UserKey> := None;
    var lastSequenceForKey := MAX_SEQUENCE_NUMBER;
    var n := 0;  // entries read
    ghost var kept := [];
    assert Flat(outputs) == [] by {
      FlatNone();
    }
    assert Kept(kept, merged, 0, c.inputVersion, c.level, smallest) by {
      KeptNone(merged, c.inputVersion, c.level, smallest);
    }
    input.ValidFacts();
    input.SeekToFirst();
    input.ValidFacts();
    while input.IsValid()
      invariant input.Valid() && c.Valid() && n == input.pos <= |merged|
      invariant input.pos < |merged| ==> c.Behind(merged[input.pos].key.user)
      invariant forall o :: o in outputs ==> o != []
      invariant builder.Some? ==> builder.value != []
      invariant kept == Flat(outputs) + (if builder.Some? then builder.value else [])
      invariant Kept(kept, merged, input.pos, c.inputVersion, c.level, smallest)
      invariant input.pos == 0 ==> currentUserKey == None
      invariant input.pos > 0 ==>
                  && currentUserKey == Some(merged[input.pos - 1].key.user)
                  && lastSequenceForKey == merged[input.pos - 1].key.sequence
      decreases |merged| - input.pos
    {
      var e := input.Current();
      if stopBefore(n) && builder.Some? {
        FlatOneMore(outputs, builder.value);
        outputs := outputs + [builder.value];
        builder := None;
      }
      var drop := false;
      if currentUserKey != Some(e.key.user) {
        // first occurrence of this user key
        currentUserKey := Some(e.key.user);
        lastSequenceForKey := MAX_SEQUENCE_NUMBER;
      }
      HiddenByPredecessor(merged, n, smallest);
      if lastSequenceForKey <= smallest {
        drop := true;  // hidden by a newer entry for the same user key
      } else if e.key.kind.Deletion? && e.key.sequence <= smallest {
        drop := c.IsBaseLevelForKey(e.key.user);
      }
      lastSequenceForKey := e.key.sequence;
      KeptNext(kept, merged, n, c.inputVersion, c.level, smallest, drop);
      if !drop {
        kept := kept + [e];
        builder := Some((if builder.Some? then builder.value else []) + [e]);
        if full(n) {
          FlatOneMore(outputs, builder.value);
          outputs := outputs + [builder.value];
          builder := None;
        }
      }
      n := n + 1;
      input.Next();
      if n < |merged| {
        UsersAscend(merged, n - 1, n);
        c.BehindLater(merged[n - 1].key.user, merged[n].key.user);
      }
    }
    if builder.Some? {
      FlatOneMore(outputs, builder.value);
      outputs := outputs + [builder.value];
    }
    assert Flat(outputs) == kept && n == |merged|;
  }
}
