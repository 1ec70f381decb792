/** A compaction in progress: chosen from one version, installed into a later one. */
module Jobs {
  import opened Dbformat
  import opened History
  import opened Version
  import opened CompactionInputs
  import opened CompactionWork
  import opened Lsm

  // What a compaction remembers from its start: the inputs, the oldest snapshot, the version they
  // were chosen from, and how much of the history had been flushed to tables by then.
  datatype Job = Job(level: nat, inputs0: Level, inputs1: Level, smallest: nat, base: Levels, flushed: nat)

  // No file of level + 1 outside inputs1 starts with the last user key of inputs1.  The source
  // closes inputs0 this way but not inputs1, so this is a premise.
  ghost predicate NextLevelClosed(v: Levels, level: nat, inputs1: Level)
    requires level + 1 < |v|
  {
    inputs1 != [] ==> NoBoundaryLeft(v[level + 1], inputs1)
  }

  ghost predicate ValidJob(job: Job) {
    && ValidVersion(job.base)
    && DistinctSequences(AllEntries(job.base))
    && ClosedInputs(job.base, job.level, job.inputs0, job.inputs1)
    && (forall e :: e in AllEntries(job.base) ==> e.key.sequence <= job.flushed)
  }

  ghost predicate LaterThan(f: FileMetaData, flushed: nat) {
    forall e :: e in f.entries ==> e.key.sequence > flushed
  }

  // v has the files the job was chosen from, and besides only tables flushed since; those in the
  // output level lie outside the job's key span.
  ghost predicate Tracks(job: Job, v: Levels) {
    && |v| == |job.base|
    && (forall l, f :: 0 <= l < |v| && f in job.base[l] ==> f in v[l])
    && (forall l, f :: 0 <= l < |v| && f in v[l] ==> f in job.base[l] || LaterThan(f, job.flushed))
    && (job.level + 1 < |v| ==>
          forall f :: f in v[job.level + 1] && f !in job.base[job.level + 1] ==> Apart(f, job.inputs0 + job.inputs1))
  }

  // Inputs without gaps leave no room between them for a table that meets no file down to their levels.
  lemma TableMissesGapless(job: Job, v: Levels, f: FileMetaData)
    requires ValidJob(job) && Tracks(job, v) && NoGaps(job.inputs0 + job.inputs1)
    requires ValidFile(f) && job.level + 1 < |v| && ClearDownTo(v, f, job.level + 1)
    ensures Apart(f, job.inputs0 + job.inputs1)
  {
    hide ValidJob, Tracks, ClearDownTo, ValidFile, Has;
    var inputs := job.inputs0 + job.inputs1;
    FileEndsAfterStart(f);
    forall g | g in inputs
      ensures g.smallest.user <= g.largest.user
      ensures g.largest.user < f.smallest.user || f.largest.user < g.smallest.user
    {
      InputMisses(job, v, f, g);
    }
    StartsOutside(inputs, f);
    if g, h :| g in inputs && h in inputs && g.largest.user < f.smallest.user && f.largest.user < h.smallest.user {
      assert false;
    }
  }

  lemma StartsOutside(files: Level, f: FileMetaData)
    requires f.smallest.user <= f.largest.user
    requires forall g :: g in files ==> g.largest.user < f.smallest.user || f.largest.user < g.smallest.user
    ensures !Has(files, f.smallest.user)
  {
  }

  lemma InputMisses(job: Job, v: Levels, f: FileMetaData, g: FileMetaData)
    requires ValidJob(job) && Tracks(job, v) && job.level + 1 < |v| && ClearDownTo(v, f, job.level + 1)
    requires g in job.inputs0 + job.inputs1
    ensures g.smallest.user <= g.largest.user
    ensures g.largest.user < f.smallest.user || f.largest.user < g.smallest.user
  {
    hide ValidJob, Tracks;
    JobFileIsTracked(job, g);
    var l := if g in job.inputs0 then job.level else job.level + 1;
    TrackedIsHeld(job, v, l, g);
    assert g in v[l] && !Overlaps(g, Some(f.smallest.user), Some(f.largest.user));
    FileEndsAfterStart(g);
  }

  lemma TrackedIsHeld(job: Job, v: Levels, l: nat, g: FileMetaData)
    requires Tracks(job, v) && l < |v| && (l < |job.base| ==> g in job.base[l])
    ensures g in v[l]
  {
  }

  // A file the next level keeps lies before or after everything that moves.
  lemma LeftBehindApart(base: Levels, level: nat, inputs0: Level, inputs1: Level, f: FileMetaData)
    requires ValidVersion(base) && ClosedInputs(base, level, inputs0, inputs1)
    requires f in base[level + 1] && f !in inputs1
    ensures Apart(f, inputs0 + inputs1)
  {
    var low, high :| IsKeyRange(inputs0, low, high) && CoversRange(base[level + 1], inputs1, low.user, high.user);
    assert ValidFiles(base[level]) && ValidFiles(base[level + 1]) && Disjoint(base[level + 1]);
    assert !Overlaps(f, Some(low.user), Some(high.user));
    forall g | g in inputs0 + inputs1
      ensures f.largest.user < low.user ==> f.largest.Before(g.smallest)
      ensures f.smallest.user > high.user ==> g.largest.Before(f.smallest)
    {
      if g in inputs1 {
        OverlapSide(base[level + 1], f, g, low.user, high.user);
      } else {
        KeyRangeUsers(inputs0, low, high, g);
      }
    }
  }

  lemma KeyRangeUsers(files: Level, low: InternalKey, high: InternalKey, g: FileMetaData)
    requires IsKeyRange(files, low, high) && g in files
    ensures low.user <= g.smallest.user && g.largest.user <= high.user
  {
    assert low.AtMost(g.smallest) && g.largest.AtMost(high);
  }

  // f misses the range, g meets it, and they do not meet each other: f is on the same side of g.
  lemma OverlapSide(files: Level, f: FileMetaData, g: FileMetaData, low: UserKey, high: UserKey)
    requires Disjoint(files) && ValidFiles(files) && f in files && g in files
    requires !Overlaps(f, Some(low), Some(high)) && Overlaps(g, Some(low), Some(high))
    ensures f.largest.user < low ==> f.largest.Before(g.smallest)
    ensures f.smallest.user > high ==> g.largest.Before(f.smallest)
  {
    DisjointApart(files, f, g);
    FileEndsAfterStart(f);
    FileEndsAfterStart(g);
  }

  lemma JobFileIsTracked(job: Job, g: FileMetaData)
    requires ValidJob(job)
    ensures g in job.inputs0 ==> g in job.base[job.level]
    ensures g in job.inputs1 ==> g in job.base[job.level + 1]
    ensures g in job.inputs0 || g in job.inputs1 ==> ValidFile(g)
    ensures g in job.inputs0 || g in job.inputs1 ==> forall e :: e in g.entries ==> e in AllEntries(job.base)
  {
    assert ValidFiles(job.base[job.level]) && ValidFiles(job.base[job.level + 1]);
    if g in job.inputs0 {
      LevelHasFile(job.base, job.level, g);
      assert forall e :: e in g.entries ==> e in FileEntries(g);
    } else if g in job.inputs1 {
      LevelHasFile(job.base, job.level + 1, g);
      assert forall e :: e in g.entries ==> e in FileEntries(g);
    }
  }

  // The job can still be installed in the version it has come to.
  lemma JobIsReplaceable(job: Job, v: Levels)
    requires ValidJob(job) && Tracks(job, v)
    ensures Replaceable(v, job.level, job.inputs0, job.inputs1)
  {
    forall f, g | f in v[job.level] && f !in job.inputs0 && g in job.inputs0
      ensures Newer(FileEntries(f), FileEntries(g))
    {
      JobFileIsTracked(job, g);
      if f !in job.base[job.level] {
        assert LaterThan(f, job.flushed);
      }
    }
    forall g | g in job.inputs0 ensures g in v[job.level] {
      JobFileIsTracked(job, g);
    }
    forall g | g in job.inputs1 ensures g in v[job.level + 1] {
      JobFileIsTracked(job, g);
    }
    forall f | f in v[job.level + 1] && f !in job.inputs1 ensures Apart(f, job.inputs0 + job.inputs1) {
      if f in job.base[job.level + 1] {
        LeftBehindApart(job.base, job.level, job.inputs0, job.inputs1, f);
      }
    }
  }

  // Everything older than an obsolete deletion of the inputs is an input too.
  ghost predicate OlderTaken(job: Job, S: set<Entry>) {
    forall e, x :: e in Inputs(job.inputs0, job.inputs1) && Obsolete(job.base, job.level, job.smallest, e)
                   && x in S && x.key.user == e.key.user && x.key.sequence < e.key.sequence
                   ==> x in Inputs(job.inputs0, job.inputs1)
  }

  // The facts about a job's levels that the lemmas below share.
  lemma JobRange(job: Job) returns (low: UserKey, high: UserKey)
    requires ValidJob(job)
    ensures job.level + 1 < |job.base| == NUM_LEVELS
    ensures ValidFiles(job.base[job.level]) && ValidFiles(job.base[job.level + 1]) && Disjoint(job.base[job.level + 1])
    ensures job.inputs1 == Overlapping(job.base[job.level + 1], Some(low), Some(high))
    ensures forall g :: g in job.inputs0 ==> low <= g.smallest.user && g.largest.user <= high
  {
    var lo, hi :|
      IsKeyRange(job.inputs0, lo, hi) && CoversRange(job.base[job.level + 1], job.inputs1, lo.user, hi.user);
    low, high := lo.user, hi.user;
    forall g | g in job.inputs0 ensures low <= g.smallest.user && g.largest.user <= high {
      KeyRangeUsers(job.inputs0, lo, hi, g);
    }
  }

  // With the premise, what the next level keeps is newer than what it gives.
  lemma NextLevelKeepsNewer(job: Job, f: FileMetaData, x: Entry, e: Entry)
    requires ValidJob(job) && NextLevelClosed(job.base, job.level, job.inputs1)
    requires f in job.base[job.level + 1] && f !in job.inputs1 && x in f.entries
    requires e in Entries(job.inputs1) && x.key.user == e.key.user
    ensures x.key.sequence > e.key.sequence
  {
    var files := job.base[job.level + 1];
    var low, high := JobRange(job);
    OverlappingIsConvex(files, Some(low), Some(high));
    assert forall a :: a in Entries(files) ==> a in AllEntries(job.base);
    ConvexLeavesNewer(files, job.inputs1);
    var g :| g in job.inputs1 && e in g.entries;
    NewerFiles(files, job.inputs1, f, g, x, e);
  }

  lemma NewerFiles(files: Level, sub: Level, f: FileMetaData, g: FileMetaData, x: Entry, e: Entry)
    requires NewerLeftBehind(files, sub) && f in files && f !in sub && g in sub
    requires x in f.entries && e in g.entries && x.key.user == e.key.user
    ensures x.key.sequence > e.key.sequence
  {
    assert x in FileEntries(f) && e in FileEntries(g);
  }

  // Keys of inputs0 are in no file that the next level keeps.
  lemma NotReached(job: Job, f: FileMetaData, x: Entry, e: Entry)
    requires ValidJob(job) && job.level + 1 < |job.base| && f in job.base[job.level + 1] && f !in job.inputs1
    requires x in f.entries
    requires e in Entries(job.inputs0)
    ensures x.key.user != e.key.user
  {
    hide ValidJob, ValidVersion, Disjoint;
    var low, high := JobRange(job);
    var g :| g in job.inputs0 && e in g.entries;
    JobFileIsTracked(job, g);
    UserRange(g, e);
    UserRange(f, x);
    assert !Overlaps(f, Some(low), Some(high));
  }

  lemma HolderContains(f: FileMetaData, x: Entry)
    requires ValidFile(f) && x in f.entries
    ensures Contains(f, x.key.user)
  {
    UserRange(f, x);
  }

  // In the base version itself.
  lemma OlderTakenInBase(job: Job, e: Entry, l: nat, f: FileMetaData, x: Entry)
    requires ValidJob(job) && NextLevelClosed(job.base, job.level, job.inputs1)
    requires e in Inputs(job.inputs0, job.inputs1) && Obsolete(job.base, job.level, job.smallest, e)
    requires l < |job.base| && f in job.base[l] && x in f.entries && ValidFile(f)
    requires x.key.user == e.key.user && x.key.sequence < e.key.sequence
    ensures x in Inputs(job.inputs0, job.inputs1)
  {
    hide ValidJob, ValidVersion, NextLevelClosed;
    var base, level := job.base, job.level;
    var low, high := JobRange(job);
    JobTracksItsBase(job);
    JobIsReplaceable(job, base);
    if l >= level + 2 {
      HolderContains(f, x);
    } else if (l == level && f in job.inputs0) || (l == level + 1 && f in job.inputs1) {
      assert x in Entries(if l == level then job.inputs0 else job.inputs1);
    } else if l <= level {
      NewerStays(base, level, job.inputs0, job.inputs1, l, f, x, e);
    } else if e in Entries(job.inputs1) {
      NextLevelKeepsNewer(job, f, x, e);
    } else {
      NotReached(job, f, x, e);
    }
  }

  lemma JobTracksItsBase(job: Job)
    requires ValidJob(job)
    ensures Tracks(job, job.base) && ValidVersion(job.base)
  {
  }

  // ...and in the version the job is installed into, given the premise on the next level.
  lemma JobTakesOlder(job: Job, v: Levels)
    requires ValidJob(job) && NextLevelClosed(job.base, job.level, job.inputs1)
    requires ValidVersion(v) && Tracks(job, v)
    ensures OlderTaken(job, AllEntries(v))
  {
    hide ValidJob, NextLevelClosed, ValidVersion, Tracks, Obsolete;
    forall e, x | e in Inputs(job.inputs0, job.inputs1) && Obsolete(job.base, job.level, job.smallest, e)
                  && x in AllEntries(v) && x.key.user == e.key.user && x.key.sequence < e.key.sequence
      ensures x in Inputs(job.inputs0, job.inputs1)
    {
      var l :| 0 <= l < |v| && x in Entries(v[l]);
      var f :| f in v[l] && x in f.entries;
      InputIsOld(job, e);
      OldFileIsInBase(job, v, l, f, x);
      OlderTakenInBase(job, e, l, f, x);
    }
  }

  lemma OldFileIsInBase(job: Job, v: Levels, l: nat, f: FileMetaData, x: Entry)
    requires ValidVersion(v) && Tracks(job, v) && l < |v| && f in v[l] && x in f.entries
    requires x.key.sequence <= job.flushed
    ensures ValidFile(f) && l < |job.base| && f in job.base[l]
  {
    assert ValidFiles(v[l]);
    assert !LaterThan(f, job.flushed);
  }

  lemma InputIsOld(job: Job, e: Entry)
    requires ValidJob(job) && e in Inputs(job.inputs0, job.inputs1)
    ensures e.key.sequence <= job.flushed && e in AllEntries(job.base)
  {
    if e in Entries(job.inputs0) {
      var g :| g in job.inputs0 && e in g.entries;
      JobFileIsTracked(job, g);
    } else {
      var g :| g in job.inputs1 && e in g.entries;
      JobFileIsTracked(job, g);
    }
  }
}
