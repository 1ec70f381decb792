/** The next level's boundary file (db/version_set.cc, SetupOtherInputs): what exactly can go wrong when
    a compaction starts although a file of the next level goes on with the user key at which the inputs
    from that level end. */
module Boundary {
  import opened Dbformat
  import opened History
  import opened Version
  import opened CompactionInputs
  import opened CompactionWork
  import opened Lsm
  import opened Jobs
  import opened DropRule

  // f is left behind in the next level and starts with the user key at which its inputs end.
  ghost predicate IsBoundaryFile(job: Job, f: FileMetaData) {
    && job.level + 1 < |job.base| && f in job.base[job.level + 1] && f !in job.inputs1
    && exists key :: IsLargestKey(job.inputs1, key) && IsBoundary(f, key)
  }

  // The compaction drops the deletion t, the newest entry of its key that every snapshot sees, and
  // leaves the older value u in the boundary file.
  ghost predicate UncoversInBoundary(job: Job, f: FileMetaData, t: Entry, u: Entry) {
    && IsBoundaryFile(job, f) && u in f.entries
    && Uncovers(AllEntries(job.base), Inputs(job.inputs0, job.inputs1), job.base, job.level, job.smallest, t, u)
  }

  // Right after a compaction of the version it started from, every read at or after the smallest
  // snapshot is as before if and only if it uncovers nothing in a boundary file.
  lemma AnswersKeptIffBoundaryIsSafe(job: Job)
    requires ValidJob(job)
    ensures var S, I := AllEntries(job.base), Inputs(job.inputs0, job.inputs1);
            (forall k, s ::
                s >= job.smallest ==> SameAnswers(S, S - DroppedOf(job.base, job.level, I, job.smallest), k, s))
            <==> !exists f, t, u :: UncoversInBoundary(job, f, t, u)
  {
    hide ValidJob, Uncovers, SameAnswers, IsBoundaryFile, Inputs, AllEntries;
    var S, I := AllEntries(job.base), Inputs(job.inputs0, job.inputs1);
    InputsAreStored(job);
    AnswersKeptIffNothingUncovered(S, I, job.base, job.level, job.smallest);
    forall t, u | Uncovers(S, I, job.base, job.level, job.smallest, t, u)
      ensures exists f :: UncoversInBoundary(job, f, t, u)
    {
      var f := UncoveredIsInBoundary(job, t, u);
      assert UncoversInBoundary(job, f, t, u);
    }
  }

  lemma InputsAreStored(job: Job)
    requires ValidJob(job)
    ensures DistinctSequences(AllEntries(job.base)) && Inputs(job.inputs0, job.inputs1) <= AllEntries(job.base)
  {
    forall e | e in Inputs(job.inputs0, job.inputs1) ensures e in AllEntries(job.base) {
      InputIsOld(job, e);
    }
  }

  // Nothing else than a boundary file can hold what is uncovered.
  lemma UncoveredIsInBoundary(job: Job, t: Entry, u: Entry) returns (f: FileMetaData)
    requires ValidJob(job)
    requires Uncovers(AllEntries(job.base), Inputs(job.inputs0, job.inputs1), job.base, job.level, job.smallest, t, u)
    ensures IsBoundaryFile(job, f) && u in f.entries
  {
    hide ValidJob, ValidVersion;
    var base, level := job.base, job.level;
    var low, high := JobRange(job);
    JobTracksItsBase(job);
    JobIsReplaceable(job, base);
    var l :| 0 <= l < |base| && u in Entries(base[l]);
    f :| f in base[l] && u in f.entries;
    FileIsValid(base, l, f);
    EntryOfInputs(job, f, u);
    if l >= level + 2 {
      HolderContains(f, u);
    } else if l <= level {
      NewerStays(base, level, job.inputs0, job.inputs1, l, f, u, t);
    } else if t in Entries(job.inputs1) {
      OlderBesideIsBoundary(job, f, u, t, low, high);
    } else {
      NotReached(job, f, u, t);
    }
  }

  lemma EntryOfInputs(job: Job, f: FileMetaData, u: Entry)
    ensures u in f.entries && (f in job.inputs0 || f in job.inputs1) ==> u in Inputs(job.inputs0, job.inputs1)
  {
  }

  lemma FileIsValid(v: Levels, l: nat, f: FileMetaData)
    requires ValidVersion(v) && l < |v| && f in v[l]
    ensures ValidFile(f)
  {
  }

  lemma OlderBesideIsBoundary(job: Job, f: FileMetaData, x: Entry, e: Entry, low: UserKey, high: UserKey)
    requires job.level + 1 < |job.base|
    requires var files := job.base[job.level + 1];
             && ValidFiles(files) && Disjoint(files) && f in files && f !in job.inputs1
             && job.inputs1 == Overlapping(files, Some(low), Some(high))
    requires x in f.entries && e in Entries(job.inputs1) && x.key.user == e.key.user && x.key.sequence < e.key.sequence
    ensures IsBoundaryFile(job, f)
  {
    hide Disjoint, ValidFile;
    var files := job.base[job.level + 1];
    var g :| g in job.inputs1 && e in g.entries;
    var key := LargestExists(job.inputs1);
    EntryInRange(f, x);
    EntryInRange(g, e);
    DisjointApart(files, f, g);
    assert g.largest.Before(f.smallest);
    forall h | h in job.inputs1 ensures h.largest.Before(f.smallest) {
      OverlapSide(files, f, h, low, high);
      OverlapSide(files, f, g, low, high);
    }
    assert IsBoundary(f, key);
  }

  lemma {:induction false} LargestExists(files: Level) returns (key: InternalKey)
    requires files != []
    ensures IsLargestKey(files, key)
  {
    hide InternalKey.Before;
    var f, rest := files[0], files[1..];
    if rest == [] {
      key := f.largest;
    } else {
      var other := LargestExists(rest);
      BeforeIsTotal(other, f.largest, other);
      key := if other.Before(f.largest) then f.largest else other;
      forall g | g in files ensures g.largest.AtMost(key) {
        if g in rest {
          BeforeIsTotal(g.largest, other, f.largest);
        }
      }
      var h :| h in rest && h.largest == other;
      assert h in files;
    }
  }
}
