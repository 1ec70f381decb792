/** Every step of the engine keeps its invariant; hence, over every run, reads are right. */
module EngineSafety {
  import opened Dbformat
  import opened History
  import opened Version
  import opened CompactionInputs
  import opened CompactionWork
  import opened Lsm
  import opened Jobs
  import opened DropRule
  import opened Engine

  // ---------- Sets, slices and logs ----------

  lemma SliceSet(h: Writes, lo: nat, mid: nat, hi: nat)
    requires lo <= mid <= hi <= |h|
    ensures Written(h[lo..hi]) == Written(h[lo..mid]) + Written(h[mid..hi])
  {
    assert h[lo..hi] == h[lo..mid] + h[mid..hi];
  }

  // Membership in a slice of the history is a matter of the sequence number.
  lemma InSlice(h: Writes, lo: nat, hi: nat, e: Entry)
    requires IsHistory(h) && lo <= hi <= |h|
    ensures e in Written(h[lo..hi]) <==> lo < e.key.sequence <= hi && h[e.key.sequence - 1] == Some(e)
  {
    if Some(e) in h[lo..hi] {
      var i :| 0 <= i < hi - lo && h[lo..hi][i] == Some(e);
      assert h[lo + i] == Some(e);
    }
    if lo < e.key.sequence <= hi && h[e.key.sequence - 1] == Some(e) {
      assert h[lo..hi][e.key.sequence - 1 - lo] == Some(e);
    }
  }

  lemma {:induction false} LogRecordsFrame(a: map<nat, seq<seq<Entry>>>, b: map<nat, seq<seq<Entry>>>, lo: nat, hi: nat)
    requires forall n :: lo <= n < hi ==> ((n in a <==> n in b) && (n in a ==> a[n] == b[n]))
    ensures LogRecords(a, lo, hi) == LogRecords(b, lo, hi)
  {
    if lo < hi {
      LogRecordsFrame(a, b, lo, hi - 1);
    }
  }

  lemma {:induction false} LogRecordsGap(logs: map<nat, seq<seq<Entry>>>, lo: nat, mid: nat, hi: nat)
    requires lo <= mid <= hi && forall n :: mid <= n < hi ==> n !in logs
    ensures LogRecords(logs, lo, hi) == LogRecords(logs, lo, mid)
  {
    if mid < hi {
      LogRecordsGap(logs, lo, mid, hi - 1);
    }
  }

  // ---------- Retention ----------

  lemma RaiseFloor(S: set<Entry>, h: Writes, floor: nat, floor': nat)
    requires RetainsFrom(S, h, floor) && floor <= floor'
    ensures RetainsFrom(S, h, floor')
  {
  }

  // Storing all of the newer part of the history extends retention to the whole of it.
  lemma ExtendRetention(S: set<Entry>, h: Writes, n: nat, floor: nat, N: set<Entry>)
    requires IsHistory(h) && floor <= n <= |h| && N == Written(h[n..])
    requires RetainsFrom(S, h[..n], floor)
    ensures RetainsFrom(S + N, h, floor)
  {
    hide Retains;
    forall k, s | floor <= s <= |h| ensures Retains(S + N, h, k, s) {
      var m := if s < n then s else n;
      assert Retains(S, h[..n], k, m);
      ExtendRetentionAt(S, h, n, N, k, s);
    }
  }

  lemma ExtendRetentionAt(S: set<Entry>, h: Writes, n: nat, N: set<Entry>, k: UserKey, s: nat)
    requires IsHistory(h) && n <= |h| && N == Written(h[n..]) && s <= |h|
    requires Retains(S, h[..n], k, if s < n then s else n)
    ensures Retains(S + N, h, k, s)
  {
    var m := if s < n then s else n;
    NewestWriteInPrefix(h, n, k, m);
    var e := NewestWrite(h, k, s);
    if e.Some? {
      assert e in h;
      NewestWriteIsNewest(h, k, s, e.value);
      InSlice(h, n, |h|, e.value);
      assert h[n..|h|] == h[n..];
      if e.value.key.sequence <= n {
        NewestWriteBelow(h, k, m, s);
        forall x | x in N ensures x.key.sequence > n {
          InSlice(h, n, |h|, x);
        }
      }
    }
  }

  lemma {:induction false} NewestWriteBelow(h: Writes, k: UserKey, m: nat, s: nat)
    requires IsHistory(h) && m <= s <= |h|
    requires NewestWrite(h, k, s).Some? && NewestWrite(h, k, s).value.key.sequence <= m
    ensures NewestWrite(h, k, m) == NewestWrite(h, k, s)
  {
    if m < s {
      NewestWriteBelow(h, k, m, s - 1);
    }
  }

  lemma PartOfLonger(S: set<Entry>, h: Writes, n: nat)
    requires n <= |h| && PartOf(S, h[..n])
    ensures PartOf(S, h)
    ensures forall e :: e in S ==> e.key.sequence <= n
  {
  }

  lemma PartOfIsDistinct(S: set<Entry>, h: Writes)
    requires PartOf(S, h)
    ensures DistinctSequences(S)
  {
  }

  // ---------- Reads ----------

  lemma ShapeOf(s: State)
    requires Inv(s)
    ensures ValidVersion(s.version) && |s.version| == NUM_LEVELS && s.flushed <= |s.history|
    ensures Sorted(s.mem) && (s.imm.Some? ==> Sorted(s.imm.value))
  {
  }

  lemma StoredIsPartOfHistory(s: State)
    requires MemOk(s) && PartOf(AllEntries(s.version), s.history[..s.flushed])
    ensures PartOf(Stored(s), s.history)
    ensures Stored(s) == AllEntries(s.version) + Written(s.history[s.flushed..])
  {
    var h := s.history;
    PartOfLonger(AllEntries(s.version), h, s.flushed);
    SliceSet(h, s.flushed, s.memStart, |h|);
    assert h[s.flushed..] == h[s.flushed..|h|];
    if s.imm.None? {
      assert h[s.flushed..s.memStart] == [];
    }
    forall e | e in Stored(s) ensures 1 <= e.key.sequence <= |h| && h[e.key.sequence - 1] == Some(e) {
      if e !in AllEntries(s.version) {
        InSlice(h, s.flushed, |h|, e);
      }
    }
  }

  // In every state that satisfies the invariant, what is stored determines every read at or after
  // the floor, and it is the read the history promises.
  lemma ReadsAreRight(s: State, k: UserKey, n: nat, r: Lookup)
    requires Inv(s) && Floor(s) <= n <= |s.history|
    requires Answers(Stored(s), k, n, r)
    ensures r == Read(s.history, k, n)
  {
    StoredIsPartOfHistory(s);
    ExtendRetention(AllEntries(s.version), s.history, s.flushed, Floor(s), Written(s.history[s.flushed..]));
    assert Retains(Stored(s), s.history, k, n);
    RetainedReadsAreRight(Stored(s), s.history, k, n, r);
  }

  // ---------- Steps keep the invariant ----------

  lemma WriteKeepsMem(s: State, t: State, es: seq<Entry>, sync: bool)
    requires MemOk(s) && WriteStep(s, t, es, sync)
    ensures MemOk(t)
  {
    var h, g := s.history, t.history;
    assert forall i :: 0 <= i < |h| ==> g[i] == h[i];
    SliceSet(g, s.memStart, |h|, |g|);
    assert g[s.memStart..|h|] == h[s.memStart..|h|];
    assert g[|h|..|g|] == Somes(es);
    assert Written(Somes(es)) == ToSet(es);
    if s.imm.Some? {
      assert g[s.flushed..s.memStart] == h[s.flushed..s.memStart];
    }
  }

  lemma WriteKeepsLogs(s: State, t: State, es: seq<Entry>, sync: bool)
    requires LogsOk(s) && WriteStep(s, t, es, sync)
    ensures LogsOk(t)
  {
    hide Flat, Listed, LogRecords;
    var h, g := s.history, t.history;
    LogRecordsFrame(s.logs, t.logs, s.logNumber, s.logFile);
    FlatOneMore(s.logs[s.logFile], es);
    assert g[s.memStart..] == h[s.memStart..] + Somes(es);
    ListedAppend(h[s.memStart..], Somes(es));
    ListedSomes(es);
    assert g[s.flushed..s.memStart] == h[s.flushed..s.memStart];
  }

  lemma WriteKeepsInv(s: State, t: State, es: seq<Entry>, sync: bool)
    requires Inv(s) && WriteStep(s, t, es, sync)
    ensures Inv(t)
  {
    hide Flat, Listed, TablesOk, LogsOk, MemOk, ValidJob, NextLevelClosed, Tracks;
    MemBounds(s);
    WriteKeepsMem(s, t, es, sync);
    WriteKeepsLogs(s, t, es, sync);
    assert t.history[..t.flushed] == s.history[..s.flushed];
  }

  lemma MemBounds(s: State)
    requires MemOk(s)
    ensures IsHistory(s.history) && s.flushed <= s.memStart <= |s.history|
  {
  }

  lemma SwitchKeepsMem(s: State, t: State)
    requires MemOk(s) && SwitchStep(s, t)
    ensures MemOk(t)
  {
    assert s.history[|s.history|..] == [];
  }

  lemma SwitchKeepsLogs(s: State, t: State)
    requires LogsOk(s) && MemOk(s) && SwitchStep(s, t)
    ensures LogsOk(t)
  {
    LogRecordsFrame(s.logs, t.logs, s.logNumber, s.logFile);
    LogRecordsGap(t.logs, s.logNumber, s.logFile + 1, t.logFile);
    var below := LogRecords(s.logs, s.logNumber, s.logFile);
    FlatAppend(below, s.logs[s.logFile]);
    assert LogRecords(t.logs, s.logNumber, s.logFile + 1) == below + s.logs[s.logFile];
    assert s.history[s.flushed..s.memStart] == [];
    assert t.history[t.flushed..t.memStart] == s.history[s.memStart..];
    assert t.history[t.memStart..] == [];
  }

  lemma SwitchKeepsInv(s: State, t: State)
    requires Inv(s) && SwitchStep(s, t)
    ensures Inv(t)
  {
    hide TablesOk, LogsOk, MemOk, ValidJob, NextLevelClosed, Tracks;
    MemBounds(s);
    SwitchKeepsMem(s, t);
    SwitchKeepsLogs(s, t);
  }

  lemma SnapshotKeepsInv(s: State, t: State)
    requires Inv(s) && SnapshotStep(s, t)
    ensures Inv(t)
  {
    hide TablesOk, ValidJob, NextLevelClosed, Tracks;
    assert SmallestSnapshot(t) == SmallestSnapshot(s);
  }

  lemma ReleaseKeepsInv(s: State, t: State, i: nat)
    requires Inv(s) && ReleaseStep(s, t, i)
    ensures Inv(t)
  {
    hide ValidJob, NextLevelClosed, Tracks, ValidVersion, Ordered, PartOf;
    assert SmallestSnapshot(s) <= SmallestSnapshot(t);
    RaiseFloor(AllEntries(s.version), s.history[..s.flushed], Floor(s), Floor(t));
  }

  lemma AllocateKeepsInv(s: State, t: State)
    requires Inv(s) && AllocateOutputStep(s, t)
    ensures Inv(t)
  {
    hide TablesOk, ValidJob, NextLevelClosed, Tracks;
  }

  lemma StartKeepsInv(s: State, t: State, job: Job)
    requires Inv(s) && StartCompactionStep(s, t, job)
    ensures Inv(t)
  {
    hide TablesOk, ValidJob, NextLevelClosed, Tracks;
    StartedJobIsOk(s, job);
  }

  lemma StartedJobIsOk(s: State, job: Job)
    requires MemOk(s) && TablesOk(s.version, s.history[..s.flushed], Floor(s))
    requires job.base == s.version && job.flushed == s.flushed
    requires ClosedInputs(s.version, job.level, job.inputs0, job.inputs1)
    ensures ValidJob(job) && Tracks(job, s.version)
  {
    hide ClosedInputs, RetainsFrom, Apart;
    PartOfIsDistinct(AllEntries(s.version), s.history[..s.flushed]);
    PartOfLonger(AllEntries(s.version), s.history, s.flushed);
  }

  // ---------- Flush ----------

  lemma FlushKeepsMem(s: State, t: State, f: FileMetaData, level: nat)
    requires MemOk(s) && FlushAnywhere(s, t, f, level)
    ensures MemOk(t)
  {
  }

  lemma FlushKeepsLogs(s: State, t: State, f: FileMetaData, level: nat)
    requires LogsOk(s) && FlushAnywhere(s, t, f, level)
    ensures LogsOk(t)
  {
    assert t.history[t.flushed..t.memStart] == [];
  }

  // The immutable memtable is newer than everything in tables.
  lemma ImmIsNewest(s: State)
    requires MemOk(s) && s.imm.Some? && PartOf(AllEntries(s.version), s.history[..s.flushed])
    ensures Newer(ToSet(s.imm.value), AllEntries(s.version))
    ensures forall e :: e in s.imm.value ==> e.key.sequence > s.flushed
  {
    forall e | e in s.imm.value ensures e.key.sequence > s.flushed {
      assert e in ToSet(s.imm.value);
      InSlice(s.history, s.flushed, s.memStart, e);
    }
  }

  lemma FlushedVersion(s: State, t: State, f: FileMetaData, level: nat)
    requires MemOk(s) && NumbersOk(s) && PartOf(AllEntries(s.version), s.history[..s.flushed])
    requires ValidVersion(s.version) && Ordered(s.version) && Ordered(t.version)
    requires FlushAnywhere(s, t, f, level)
    ensures ValidVersion(t.version)
    ensures AllEntries(t.version) == AllEntries(s.version) + ToSet(s.imm.value)
  {
    hide ValidVersion, Ordered, HoldsSlice, Applied;
    if s.imm.value != [] {
      ImmIsNewest(s);
      FlushKeepsValid(s.version, f, level, t.version);
    }
  }

  // Tables that hold part of the history up to n, and a set that holds the rest up to m.
  lemma TablesGrow(S: set<Entry>, N: set<Entry>, h: Writes, n: nat, m: nat, floor: nat)
    requires IsHistory(h) && floor <= n <= m <= |h|
    requires PartOf(S, h[..n]) && RetainsFrom(S, h[..n], floor)
    requires N == Written(h[n..m])
    ensures PartOf(S + N, h[..m]) && RetainsFrom(S + N, h[..m], floor)
  {
    hide RetainsFrom;
    var g := h[..m];
    assert g[..n] == h[..n] && g[n..] == h[n..m];
    forall e | e in S + N ensures 1 <= e.key.sequence <= |g| && g[e.key.sequence - 1] == Some(e) {
      if e !in S {
        InSlice(h, n, m, e);
      }
    }
    ExtendRetention(S, g, n, floor, N);
  }

  lemma FlushKeepsTables(s: State, t: State, f: FileMetaData, level: nat)
    requires MemOk(s) && NumbersOk(s) && TablesOk(s.version, s.history[..s.flushed], Floor(s))
    requires FlushAnywhere(s, t, f, level) && Ordered(t.version)
    ensures TablesOk(t.version, t.history[..t.flushed], Floor(t))
  {
    hide RetainsFrom, ValidVersion, Ordered, PartOf, NumbersOk, Applied;
    FlushedVersion(s, t, f, level);
    TablesGrow(AllEntries(s.version), ToSet(s.imm.value), s.history, s.flushed, s.memStart, Floor(s));
    RaiseFloor(AllEntries(t.version), s.history[..s.memStart], Floor(s), Floor(t));
  }

  lemma FlushKeepsOrdered(s: State, t: State, f: FileMetaData, level: nat)
    requires NumbersOk(s) && Ordered(s.version) && FlushAnywhere(s, t, f, level)
    ensures Ordered(t.version)
  {
    if s.imm.value != [] {
      forall l, m, a, b | 0 <= l < |t.version| && 0 <= m < |t.version| && a in t.version[l] && b in t.version[m] &&
          a.number == b.number
        ensures l == m && a == b
      {
        assert a in s.version[l] || (l == level && a == f);
        assert b in s.version[m] || (m == level && b == f);
      }
    }
  }

  lemma FlushKeepsNumbers(s: State, t: State, f: FileMetaData, level: nat)
    requires NumbersOk(s) && FlushAnywhere(s, t, f, level)
    ensures NumbersOk(t)
  {
    if s.imm.value != [] {
      forall l, a | 0 <= l < |t.version| && a in t.version[l]
        ensures a.number < t.nextFile && a.number !in t.pendingOutputs
      {
        assert a in s.version[l] || (l == level && a == f);
      }
    }
  }

  lemma FlushKeepsJob(s: State, t: State, f: FileMetaData, level: nat)
    requires JobOk(s) && MemOk(s) && PartOf(AllEntries(s.version), s.history[..s.flushed]) && FlushStep(s, t, f, level)
    ensures JobOk(t)
  {
    hide ValidJob, NextLevelClosed, Apart;
    if s.job.Some? && s.imm.value != [] {
      ImmIsNewest(s);
      var job := s.job.value;
      assert LaterThan(f, job.flushed);
      forall l, a | 0 <= l < |t.version|
        ensures a in t.version[l] <==> a in s.version[l] || (l == level && a == f)
      {
      }
    }
  }

  // A flush needs no premise while the job's inputs have no gaps.
  lemma GaplessFlushIsStep(s: State, t: State, f: FileMetaData, level: nat)
    requires Inv(s) && FlushAnywhere(s, t, f, level)
    requires s.job.Some? ==> NoGaps(s.job.value.inputs0 + s.job.value.inputs1)
    ensures FlushStep(s, t, f, level)
  {
    hide MemOk, NumbersOk, LogsOk, RetainsFrom, ValidVersion, NoGaps, ValidJob, Tracks, Apart, NextLevelClosed,
         ClearDownTo, ValidFile;
    if s.job.Some? && s.imm.value != [] && level == s.job.value.level + 1 {
      TableMissesGapless(s.job.value, s.version, f);
    }
  }

  lemma FlushKeepsInv(s: State, t: State, f: FileMetaData, level: nat)
    requires Inv(s) && FlushStep(s, t, f, level)
    ensures Inv(t)
  {
    hide MemOk, NumbersOk, JobOk, LogsOk, FlushAnywhere, ValidVersion, RetainsFrom;
    FlushKeepsMem(s, t, f, level);
    FlushKeepsLogs(s, t, f, level);
    FlushKeepsOrdered(s, t, f, level);
    FlushKeepsNumbers(s, t, f, level);
    FlushKeepsJob(s, t, f, level);
    FlushKeepsTables(s, t, f, level);
    FlushKeepsSnapshots(s, t, f, level);
  }

  lemma FlushKeepsSnapshots(s: State, t: State, f: FileMetaData, level: nat)
    requires SnapshotsOk(s) && FlushAnywhere(s, t, f, level)
    ensures SnapshotsOk(t)
  {
  }

  // ---------- Compactions ----------

  // Output numbers are fresh, or are those of the inputs they come from.
  lemma ReplacedIsOrdered(v: Levels, level: nat, inputs0: Level, inputs1: Level, outputs: Level, w: Levels)
    requires Ordered(v) && Taken(v, level, inputs0, inputs1)
    requires Replaced(v, level, inputs0, inputs1, outputs, w)
    requires forall o, p :: o in outputs && p in outputs && o.number == p.number ==> o == p
    requires forall o, l, f :: o in outputs && 0 <= l < |v| && f in v[l] && f.number == o.number ==>
               (l == level && f in inputs0) || (l == level + 1 && f in inputs1)
    ensures Ordered(w)
  {
    forall l, m, a, b | 0 <= l < |w| && 0 <= m < |w| && a in w[l] && b in w[m] && a.number == b.number
      ensures l == m && a == b
    {
      ReplaceMembership(v, level, inputs0, inputs1, outputs, w, l, a);
      ReplaceMembership(v, level, inputs0, inputs1, outputs, w, m, b);
    }
  }

  lemma InstallKeepsOrdered(s: State, t: State, outputs: Level)
    requires Ordered(s.version) && NumbersOk(s) && JobOk(s) && InstallStep(s, t, outputs)
    ensures Ordered(t.version) && NumbersOk(t)
    ensures Replaceable(s.version, s.job.value.level, s.job.value.inputs0, s.job.value.inputs1)
  {
    hide ValidJob, NextLevelClosed, Tracks, MadeOf, Replaced, DroppedOf, Inputs;
    var job := s.job.value;
    JobIsReplaceable(job, s.version);
    ReplacedIsOrdered(s.version, job.level, job.inputs0, job.inputs1, outputs, t.version);
    forall l, f | 0 <= l < |t.version| && f in t.version[l] ensures f.number < t.nextFile {
      ReplaceMembership(s.version, job.level, job.inputs0, job.inputs1, outputs, t.version, l, f);
    }
  }

  lemma InstalledEntries(s: State, t: State, outputs: Level)
    requires ValidVersion(s.version) && Ordered(s.version) && InstallStep(s, t, outputs)
    requires Replaceable(s.version, s.job.value.level, s.job.value.inputs0, s.job.value.inputs1)
    requires Ordered(t.version)
    ensures ValidVersion(t.version)
    ensures var job := s.job.value; var I := Inputs(job.inputs0, job.inputs1);
            && I <= AllEntries(s.version)
            && AllEntries(t.version) == AllEntries(s.version) - DroppedOf(job.base, job.level, I, job.smallest)
  {
    hide Dropped, Taken, LeftApart, Replaced, Inputs, AllEntries, ValidVersion;
    var job := s.job.value;
    var I := Inputs(job.inputs0, job.inputs1);
    ReplaceLevels(s.version, job.level, job.inputs0, job.inputs1);
    ReplaceableIsApart(s.version, job.level, job.inputs0, job.inputs1, outputs);
    ReplaceKeepsValid(s.version, job.level, job.inputs0, job.inputs1, outputs, t.version);
    ReplacedEntries(s.version, job.level, job.inputs0, job.inputs1, outputs, t.version);
    forall e | e in I ensures e in AllEntries(s.version) {
      InputOrigin(s.version, job.level, job.inputs0, job.inputs1, e);
    }
    assert I - Entries(outputs) == DroppedOf(job.base, job.level, I, job.smallest);
  }

  lemma ReplaceLevels(v: Levels, level: nat, inputs0: Level, inputs1: Level)
    requires ValidVersion(v) && Replaceable(v, level, inputs0, inputs1)
    ensures |v| == NUM_LEVELS && level + 1 < |v|
  {
  }

  lemma PartOfSubset(T: set<Entry>, S: set<Entry>, h: Writes)
    requires PartOf(S, h) && T <= S
    ensures PartOf(T, h)
  {
  }

  lemma InstallKeepsTables(s: State, t: State, outputs: Level)
    requires MemOk(s) && NumbersOk(s) && JobOk(s) && TablesOk(s.version, s.history[..s.flushed], Floor(s))
    requires InstallStep(s, t, outputs)
    ensures TablesOk(t.version, t.history[..t.flushed], Floor(t)) && NumbersOk(t)
  {
    hide ValidJob, NextLevelClosed, Tracks, ValidVersion, Ordered, PartOf, RetainsFrom, NumbersOk, Replaced,
         Replaceable, MadeOf, DroppedOf, Inputs, OlderTaken, AllEntries, FreshNumbers;
    var job := s.job.value;
    var h := s.history[..s.flushed];
    InstallKeepsOrdered(s, t, outputs);
    InstalledEntries(s, t, outputs);
    JobTakesOlder(job, s.version);
    assert IsHistory(h);
    DroppingRetains(job, AllEntries(s.version), h, Floor(s));
    PartOfSubset(AllEntries(t.version), AllEntries(s.version), h);
  }

  lemma InstallKeepsInv(s: State, t: State, outputs: Level)
    requires Inv(s) && InstallStep(s, t, outputs)
    ensures Inv(t)
  {
    hide TablesOk, NumbersOk, ValidJob, NextLevelClosed, Tracks, Replaced, MadeOf, FreshNumbers;
    InstallKeepsTables(s, t, outputs);
  }

  // ---------- A flush during a compaction ----------

  // The source puts the table of a flush into the output level of the compaction under way if the
  // current version has room there.  What is then installed is in order if and only if no output
  // meets that table, which InstallCompactionResults could check before it logs the edit.
  lemma NestedFlushIff(s: State, t: State, u: State, f: FileMetaData, level: nat, outputs: Level)
    requires Inv(s) && s.job.Some? && level == s.job.value.level + 1 && s.imm.Some? && s.imm.value != []
    requires FlushAnywhere(s, t, f, level) && InstallStep(t, u, outputs)
    ensures |u.version| == NUM_LEVELS
    ensures Disjoint(u.version[level]) <==> forall o :: o in outputs ==> ApartPair(f, o)
    ensures ValidVersion(u.version) <==> forall o :: o in outputs ==> ApartPair(f, o)
  {
    hide MemOk, TablesOk, NumbersOk, JobOk, LogsOk, ValidVersion, Ordered, Disjoint, MadeOf, Replaced, Inputs,
         DroppedOf, Applied, ApartPair, InstallStep, FlushAnywhere, FreshNumbers, LeftApart, Taken, UniqueNumbers;
    var job := s.job.value;
    var i0, i1 := job.inputs0, job.inputs1;
    NestedVersion(s, t, f, level);
    InstalledNested(t, u, outputs);
    OutputsAreNew(s, t, u, f, level, outputs);
    ReplacedIsValidIff(t.version, job.level, i0, i1, outputs, u.version);
    NestedApart(s, t, f, level, outputs);
  }

  // Before the install the version is in order, and the inputs are still there to be replaced.
  lemma NestedVersion(s: State, t: State, f: FileMetaData, level: nat)
    requires Inv(s) && s.job.Some? && level == s.job.value.level + 1 && s.imm.Some? && s.imm.value != []
    requires FlushAnywhere(s, t, f, level)
    ensures t.job == s.job && ValidVersion(t.version) && Ordered(t.version) && NumbersOk(t)
    ensures UniqueNumbers(t.version) && |t.version| == NUM_LEVELS
    ensures Taken(t.version, s.job.value.level, s.job.value.inputs0, s.job.value.inputs1)
    ensures ValidVersion(s.version)
    ensures Replaceable(s.version, s.job.value.level, s.job.value.inputs0, s.job.value.inputs1)
  {
    hide MemOk, LogsOk, RetainsFrom, ValidVersion, ValidJob, Tracks, NextLevelClosed, ClearDownTo, TableOf, Ordered,
         NumbersOk;
    FlushKeepsOrdered(s, t, f, level);
    FlushKeepsNumbers(s, t, f, level);
    FlushedVersion(s, t, f, level);
    JobIsReplaceable(s.job.value, s.version);
    OrderedIsUnique(t.version);
  }

  lemma OrderedIsUnique(v: Levels)
    requires Ordered(v)
    ensures UniqueNumbers(v) && |v| == NUM_LEVELS
  {
  }

  lemma InstalledNested(t: State, u: State, outputs: Level)
    requires InstallStep(t, u, outputs)
    ensures var job := t.job.value;
            && MadeOf(outputs, Inputs(job.inputs0, job.inputs1)) && FreshNumbers(outputs, t.pendingOutputs)
            && Replaced(t.version, job.level, job.inputs0, job.inputs1, outputs, u.version)
  {
    hide MadeOf, Replaced, Inputs, FreshNumbers;
  }

  lemma OutputsAreNew(s: State, t: State, u: State, f: FileMetaData, level: nat, outputs: Level)
    requires Ordered(t.version) && NumbersOk(t) && FreshNumbers(outputs, t.pendingOutputs)
    requires t.job.Some? && Taken(t.version, t.job.value.level, t.job.value.inputs0, t.job.value.inputs1)
    requires Replaced(t.version, t.job.value.level, t.job.value.inputs0, t.job.value.inputs1, outputs, u.version)
    ensures Ordered(u.version)
  {
    hide Replaced, Taken;
    ReplacedIsOrdered(t.version, t.job.value.level, t.job.value.inputs0, t.job.value.inputs1, outputs, u.version);
  }

  // Of what stays of the output level, only the flushed table can meet an output.
  lemma NestedApart(s: State, t: State, f: FileMetaData, level: nat, outputs: Level)
    requires ValidVersion(s.version) && s.job.Some? && level == s.job.value.level + 1 && s.imm.Some?
    requires s.imm.value != []
    requires FlushAnywhere(s, t, f, level) && NumbersOk(s) && FreshNumbers(outputs, t.pendingOutputs)
    requires Replaceable(s.version, s.job.value.level, s.job.value.inputs0, s.job.value.inputs1)
    requires MadeOf(outputs, Inputs(s.job.value.inputs0, s.job.value.inputs1))
    ensures |t.version| == |s.version|
    ensures LeftApart(t.version, s.job.value.level, s.job.value.inputs1, outputs) <==>
              forall o :: o in outputs ==> ApartPair(f, o)
  {
    hide ValidVersion, MadeOf, ApartPair, TableOf, ClearDownTo;
    var job := s.job.value;
    ReplaceableIsApart(s.version, job.level, job.inputs0, job.inputs1, outputs);
    assert f.number == s.nextFile;
    assert forall g :: g in t.version[level] <==> g in s.version[level] || g == f;
    assert forall g :: g in s.version[level] ==> g.number != f.number;
    assert f !in job.inputs1;
  }

  lemma MoveKeepsTables(s: State, t: State, level: nat, f: FileMetaData)
    requires MemOk(s) && NumbersOk(s) && TablesOk(s.version, s.history[..s.flushed], Floor(s))
    requires TrivialMoveStep(s, t, level, f)
    ensures TablesOk(t.version, t.history[..t.flushed], Floor(t)) && NumbersOk(t)
  {
    hide ClosedInputs, ValidVersion, PartOf, RetainsFrom, NumbersOk, Replaced, Taken, LeftApart, ValidJob, Tracks,
         AllEntries, ValidFile;
    var job := Job(level, [f], [], 0, s.version, s.flushed);
    StartedJobIsOk(s, job);
    JobIsReplaceable(job, s.version);
    MovedFile(job, f);
    ReplacedIsOrdered(s.version, level, [f], [], [f], t.version);
    ReplaceLevels(s.version, level, [f], []);
    ReplaceableIsApart(s.version, level, [f], [], [f]);
    ReplaceKeepsValid(s.version, level, [f], [], [f], t.version);
    ReplacedEntries(s.version, level, [f], [], [f], t.version);
    assert AllEntries(t.version) == AllEntries(s.version);
    MoveKeepsNumbers(s, t, level, f);
  }

  lemma MovedFile(job: Job, f: FileMetaData)
    requires ValidJob(job) && job.inputs0 == [f] && job.inputs1 == []
    requires Ordered(job.base)
    ensures MadeOf([f], Inputs([f], []))
    ensures Entries([f]) == Inputs([f], [])
    ensures job.level < |job.base| && f in job.base[job.level]
    ensures forall l, g :: 0 <= l < |job.base| && g in job.base[l] && g.number == f.number ==> l == job.level && g == f
  {
    hide ValidVersion, ClosedInputs;
    JobFileIsTracked(job, f);
    SingleOutput(f);
    var low, high := JobRange(job);
  }

  lemma SingleOutput(f: FileMetaData)
    requires ValidFile(f)
    ensures MadeOf([f], Inputs([f], [])) && Entries([f]) == Inputs([f], [])
  {
  }

  lemma MoveKeepsNumbers(s: State, t: State, level: nat, f: FileMetaData)
    requires NumbersOk(s) && Ordered(s.version) && Replaceable(s.version, level, [f], [])
    requires TrivialMoveStep(s, t, level, f)
    ensures NumbersOk(t)
  {
    hide ClosedInputs;
    assert f in s.version[level];
    forall l, g | 0 <= l < |t.version| && g in t.version[l]
      ensures g.number < t.nextFile && g.number !in t.pendingOutputs
    {
      ReplaceMembership(s.version, level, [f], [], [f], t.version, l, g);
    }
  }

  lemma MoveKeepsInv(s: State, t: State, level: nat, f: FileMetaData)
    requires Inv(s) && TrivialMoveStep(s, t, level, f)
    ensures Inv(t)
  {
    hide TablesOk, NumbersOk, ValidJob, NextLevelClosed, Tracks, Replaced, ClosedInputs;
    MoveKeepsTables(s, t, level, f);
  }

  // ---------- Recovery ----------

  // Recovered tables hold exactly h[lo..hi], later tables newer entries than earlier ones.
  lemma {:induction false} RecoveredSlices(files: Level, h: Writes, lo: nat, hi: nat)
    requires IsHistory(h) && RecoveredTables(files, h, lo, hi) && lo <= |h| && hi <= |h|
    ensures lo <= hi
    ensures ValidFiles(files) && Entries(files) == Written(h[lo..hi])
    ensures forall f, e :: f in files && e in f.entries ==> lo < e.key.sequence <= hi
    ensures forall i, j :: 0 <= i < j < |files| ==> Newer(FileEntries(files[j]), FileEntries(files[i]))
    decreases |files|
  {
    if files != [] {
      var n := |files| - 1;
      var f, rest := files[n], files[..n];
      var mid :| lo <= mid < hi <= |h| && HoldsSlice(f.entries, h, mid, hi) && RecoveredTables(rest, h, lo, mid);
      RecoveredSlices(rest, h, lo, mid);
      assert files == rest + [f];
      LastRecovered(rest, f, h, lo, mid, hi);
    }
  }

  lemma LastRecovered(rest: Level, f: FileMetaData, h: Writes, lo: nat, mid: nat, hi: nat)
    requires IsHistory(h) && lo <= mid < hi <= |h| && HoldsSlice(f.entries, h, mid, hi) && ValidFile(f)
    requires ValidFiles(rest) && Entries(rest) == Written(h[lo..mid])
    requires forall g, e :: g in rest && e in g.entries ==> lo < e.key.sequence <= mid
    requires forall i, j :: 0 <= i < j < |rest| ==> Newer(FileEntries(rest[j]), FileEntries(rest[i]))
    ensures ValidFiles(rest + [f]) && Entries(rest + [f]) == Written(h[lo..hi])
    ensures forall g, e :: g in rest + [f] && e in g.entries ==> lo < e.key.sequence <= hi
    ensures forall i, j ::
              0 <= i < j < |rest + [f]| ==> Newer(FileEntries((rest + [f])[j]), FileEntries((rest + [f])[i]))
  {
    hide ValidFile, IsHistory, Entries;
    SliceSet(h, lo, mid, hi);
    EntriesAppend(rest, f);
    forall e | e in f.entries ensures mid < e.key.sequence <= hi {
      assert e in ToSet(f.entries);
      InSlice(h, mid, hi, e);
    }
    forall i | 0 <= i < |rest| ensures Newer(FileEntries(f), FileEntries(rest[i])) {
      assert rest[i] in rest;
    }
  }

  lemma RecoveredMembership(v: Levels, files: Level, w: Levels, l: nat, f: FileMetaData)
    requires Applied(v, Level0Additions(files), w) && l < |v|
    ensures f in w[l] <==> f in v[l] || (l == 0 && f in files)
  {
    var edit := Level0Additions(files);
    assert (l, f) in edit.newFiles <==> l == 0 && f in files by {
      if f in files && l == 0 {
        var i :| 0 <= i < |files| && files[i] == f;
        assert edit.newFiles[i] == (l, f);
      }
    }
  }

  // What recovery adds to level 0, as a whole.
  ghost predicate Level0News(v: Levels, files: Level, nextFile: nat) {
    && ValidFiles(files)
    && AscendingNumbers(files, nextFile)
    && (forall l, f :: 0 <= l < |v| && f in v[l] ==> f.number < nextFile)
    && Newer(Entries(files), AllEntries(v))
    && forall i, j :: 0 <= i < j < |files| ==> Newer(FileEntries(files[j]), FileEntries(files[i]))
  }

  lemma RecoveredIsOrdered(v: Levels, files: Level, w: Levels, nextFile: nat)
    requires Ordered(v) && Applied(v, Level0Additions(files), w) && Level0News(v, files, nextFile)
    ensures Ordered(w)
  {
    forall l, m, a, b | 0 <= l < |w| && 0 <= m < |w| && a in w[l] && b in w[m] && a.number == b.number
      ensures l == m && a == b
    {
      RecoveredMembership(v, files, w, l, a);
      RecoveredMembership(v, files, w, m, b);
    }
  }

  lemma RecoveredEntries(v: Levels, files: Level, w: Levels)
    requires |v| == NUM_LEVELS && Applied(v, Level0Additions(files), w)
    ensures forall l ::
              0 <= l < |v| ==> Entries(w[l]) == if l == 0 then Entries(v[0]) + Entries(files) else Entries(v[l])
    ensures AllEntries(w) == AllEntries(v) + Entries(files)
  {
    forall l | 0 <= l < |v|
      ensures Entries(w[l]) == if l == 0 then Entries(v[0]) + Entries(files) else Entries(v[l])
    {
      forall f ensures f in w[l] <==> f in v[l] || (l == 0 && f in files) {
        RecoveredMembership(v, files, w, l, f);
      }
    }
    forall e | e in AllEntries(v) + Entries(files) ensures e in AllEntries(w) {
      if e in Entries(files) {
        assert e in Entries(w[0]);
      } else {
        var l :| 0 <= l < |v| && e in Entries(v[l]);
        assert e in Entries(w[l]);
      }
    }
    forall e | e in AllEntries(w) ensures e in AllEntries(v) + Entries(files) {
      var l :| 0 <= l < |w| && e in Entries(w[l]);
      assert e in Entries(v[l]) || e in Entries(files);
    }
  }

  lemma RecoveredPair(v: Levels, files: Level, nextFile: nat, f: FileMetaData, g: FileMetaData)
    requires ValidVersion(v) && Level0News(v, files, nextFile)
    requires (f in v[0] || f in files) && (g in v[0] || g in files) && f.number > g.number
    ensures Newer(FileEntries(f), FileEntries(g))
  {
    hide Disjoint, LevelsOrdered, Newer;
    if f in files && g in files {
      var i :| 0 <= i < |files| && files[i] == f;
      var j :| 0 <= j < |files| && files[j] == g;
      assert j < i;
    } else if f in files {
      LevelHasFile(v, 0, g);
      OutputsOwn(files, f);
      NewerSubsets(Entries(files), AllEntries(v), FileEntries(f), FileEntries(g));
    } else {
      assert g in v[0];
    }
  }

  lemma NewerSubsets(A: set<Entry>, B: set<Entry>, a: set<Entry>, b: set<Entry>)
    requires Newer(A, B) && a <= A && b <= B
    ensures Newer(a, b)
  {
  }

  lemma RecoveredKeepsLevel0(v: Levels, files: Level, w: Levels, nextFile: nat)
    requires ValidVersion(v) && Ordered(w) && Applied(v, Level0Additions(files), w) && Level0News(v, files, nextFile)
    requires |v| == |w| == NUM_LEVELS && ValidFiles(v[0]) && ValidFiles(files)
    ensures ValidFiles(w[0]) && Level0Ordered(w[0])
  {
    hide ValidVersion, Applied, Ordered, Level0News, Newer;
    forall f ensures f in w[0] <==> f in v[0] || f in files {
      RecoveredMembership(v, files, w, 0, f);
    }
    forall f, g | f in w[0] && g in w[0] && f.number > g.number ensures Newer(FileEntries(f), FileEntries(g)) {
      RecoveredPair(v, files, nextFile, f, g);
    }
    Level0FromUnique(w);
  }

  lemma RecoveredKeepsLevel(v: Levels, files: Level, w: Levels, l: nat)
    requires ValidVersion(v) && Ordered(w) && Applied(v, Level0Additions(files), w) && 0 < l < |v|
    ensures ValidFiles(w[l]) && Disjoint(w[l])
  {
    forall f ensures f in w[l] <==> f in v[l] {
      RecoveredMembership(v, files, w, l, f);
    }
    assert ValidFiles(v[l]) && Disjoint(v[l]);
    forall f, g | f in w[l] && g in w[l] && f != g ensures ApartPair(f, g) {
      DisjointApart(v[l], f, g);
    }
    InOrderAndApart(w[l]);
  }

  lemma RecoveredKeepsOrder(v: Levels, files: Level, w: Levels, l: nat, m: nat)
    requires ValidVersion(v) && Applied(v, Level0Additions(files), w)
    requires |v| == |w| == NUM_LEVELS && Newer(Entries(files), AllEntries(v)) && l < m < |w|
    ensures Newer(Entries(w[l]), Entries(w[m]))
  {
    hide ValidVersion, Applied, Level0Additions;
    RecoveredEntries(v, files, w);
    LevelsInOrder(v, l, m);
    assert Entries(v[m]) <= AllEntries(v);
  }

  lemma RecoveredKeepsValid(v: Levels, files: Level, w: Levels, nextFile: nat)
    requires ValidVersion(v) && Ordered(w) && Applied(v, Level0Additions(files), w) && Level0News(v, files, nextFile)
    requires |v| == |w| == NUM_LEVELS
    ensures ValidVersion(w)
  {
    hide Applied, Ordered, Disjoint, Newer, Level0Ordered;
    RecoveredKeepsLevel0(v, files, w, nextFile);
    forall l | 0 < l < |w| ensures ValidFiles(w[l]) && Disjoint(w[l]) {
      RecoveredKeepsLevel(v, files, w, l);
    }
    forall l, m | 0 <= l < m < |w| ensures Newer(Entries(w[l]), Entries(w[m])) {
      RecoveredKeepsOrder(v, files, w, l, m);
    }
  }

  lemma {:induction false} ListedAppend(a: Writes, b: Writes)
    ensures Listed(a + b) == Listed(a) + Listed(b)
  {
    if b == [] {
      assert a + b == a;
    } else {
      var init := b[..|b| - 1];
      ListedAppend(a, init);
      assert (a + b)[..|a + b| - 1] == a + init;
      assert (a + b)[|a + b| - 1] == b[|b| - 1];
    }
  }

  lemma {:induction false} ListedSomes(es: seq<Entry>)
    ensures Listed(Somes(es)) == es
  {
    if es != [] {
      var init := es[..|es| - 1];
      ListedSomes(init);
      assert Somes(es)[..|es| - 1] == Somes(init);
      assert es == init + [es[|es| - 1]];
    }
  }

  lemma {:induction false} ListedPrefix(h: Writes, n: nat) returns (c: nat)
    requires n <= |Listed(h)|
    ensures c <= |h| && Listed(h[..c]) == Listed(h)[..n]
  {
    if n == |Listed(h)| {
      c := |h|;
      assert h[..c] == h;
    } else {
      c := ListedPrefix(h[..|h| - 1], n);
      assert h[..|h| - 1][..c] == h[..c];
    }
  }

  // ---------- What a crash leaves ----------

  // In order of sequence number, each number once.
  ghost predicate Ascends(es: seq<Entry>) {
    forall i, j :: 0 <= i < j < |es| ==> es[i].key.sequence < es[j].key.sequence
  }

  lemma {:induction false} ListedHolds(h: Writes, e: Entry)
    ensures e in Listed(h) <==> Some(e) in h
  {
    if h != [] {
      ListedHolds(h[..|h| - 1], e);
      assert h == h[..|h| - 1] + [h[|h| - 1]];
    }
  }

  lemma {:induction false} ListedAscends(h: Writes, lo: nat, hi: nat)
    requires IsHistory(h) && lo <= hi <= |h|
    ensures Ascends(Listed(h[lo..hi]))
    ensures forall e :: e in Listed(h[lo..hi]) <==> e in Written(h[lo..hi])
  {
    forall e ensures e in Listed(h[lo..hi]) <==> e in Written(h[lo..hi]) {
      ListedHolds(h[lo..hi], e);
    }
    if lo < hi {
      ListedAscends(h, lo, hi - 1);
      var init := h[lo..hi - 1];
      assert h[lo..hi][..hi - lo - 1] == init && h[lo..hi][hi - lo - 1] == h[hi - 1];
      forall i | 0 <= i < |Listed(init)| ensures Listed(init)[i].key.sequence < hi {
        assert Listed(init)[i] in Written(init);
        InSlice(h, lo, hi - 1, Listed(init)[i]);
      }
    }
  }

  lemma AscendingParts(a: seq<Entry>, b: seq<Entry>)
    ensures Ascends(a + b) <==>
            Ascends(a) && Ascends(b) && forall x, y :: x in a && y in b ==> x.key.sequence < y.key.sequence
  {
    var c := a + b;
    if Ascends(c) {
      assert a == c[..|a|] && b == c[|a|..];
      forall x, y | x in a && y in b ensures x.key.sequence < y.key.sequence {
        var i :| 0 <= i < |a| && a[i] == x;
        var j :| 0 <= j < |b| && b[j] == y;
        assert c[i] == x && c[|a| + j] == y;
      }
    }
  }

  lemma AscendingPrefix(es: seq<Entry>, n: nat)
    requires Ascends(es) && n <= |es|
    ensures Ascends(es[..n])
  {
  }

  // Ascending lists of the same entries are the same.
  lemma {:induction false} AscendingIsUnique(a: seq<Entry>, b: seq<Entry>)
    requires Ascends(a) && Ascends(b) && forall e :: e in a <==> e in b
    ensures a == b
  {
    NobodyIn(a);
    NobodyIn(b);
    if a != [] {
      LastIsSame(a, b);
      var x, y := a[..|a| - 1], b[..|b| - 1];
      assert a == x + [a[|a| - 1]] && b == y + [b[|b| - 1]];
      AscendingParts(x, [a[|a| - 1]]);
      AscendingParts(y, [b[|b| - 1]]);
      forall e ensures e in x <==> e in y {
        assert e in a <==> e in x || e == a[|a| - 1];
        assert e in b <==> e in y || e == b[|b| - 1];
      }
      AscendingIsUnique(x, y);
    }
  }

  lemma NobodyIn(es: seq<Entry>)
    ensures es == [] <==> forall e :: e !in es
  {
    assert es != [] ==> es[0] in es;
  }

  lemma LastIsSame(a: seq<Entry>, b: seq<Entry>)
    requires Ascends(a) && Ascends(b) && a != [] && b != [] && forall e :: e in a <==> e in b
    ensures a[|a| - 1] == b[|b| - 1]
  {
    var x, y := a[|a| - 1], b[|b| - 1];
    assert x in a && y in b;
    var i :| 0 <= i < |b| && b[i] == x;
    var j :| 0 <= j < |a| && a[j] == y;
  }

  // What is left of the logs, in order, is part of what was in them.
  lemma {:induction false} CutAscends(
      logs: map<nat, seq<seq<Entry>>>, left: map<nat, seq<seq<Entry>>>, lo: nat, hi: nat)
    requires left.Keys == logs.Keys && forall n :: n in logs ==> left[n] <= logs[n]
    requires Ascends(Flat(LogRecords(logs, lo, hi)))
    ensures Ascends(Flat(LogRecords(left, lo, hi)))
    ensures forall e :: e in Flat(LogRecords(left, lo, hi)) ==> e in Flat(LogRecords(logs, lo, hi))
    decreases hi
  {
    hide Flat, Ascends;
    if lo < hi {
      var here := if hi - 1 in logs then logs[hi - 1] else [];
      var kept := if hi - 1 in left then left[hi - 1] else [];
      var below, belowKept := LogRecords(logs, lo, hi - 1), LogRecords(left, lo, hi - 1);
      assert here == kept + here[|kept|..];
      FlatAppend(below, here);
      FlatAppend(belowKept, kept);
      FlatAppend(kept, here[|kept|..]);
      AscendingParts(Flat(below), Flat(here));
      AscendingParts(Flat(kept), Flat(here[|kept|..]));
      CutAscends(logs, left, lo, hi - 1);
      AscendingParts(Flat(belowKept), Flat(kept));
    }
  }

  // The logs still needed list the history from `flushed` on.
  lemma LogsListHistory(s: State)
    requires MemOk(s) && LogsOk(s)
    ensures Flat(LogRecords(s.logs, s.logNumber, s.logFile + 1)) == Listed(s.history[s.flushed..])
    ensures Ascends(Listed(s.history[s.flushed..]))
    ensures forall e :: e in Listed(s.history[s.flushed..]) <==> e in Written(s.history[s.flushed..])
  {
    hide Flat, Listed, IsHistory, HoldsSlice;
    var h := s.history;
    FlatAppend(LogRecords(s.logs, s.logNumber, s.logFile), s.logs[s.logFile]);
    ListedAppend(h[s.flushed..s.memStart], h[s.memStart..]);
    assert h[s.flushed..] == h[s.flushed..s.memStart] + h[s.memStart..];
    ListedAscends(h, s.flushed, |h|);
    assert h[s.flushed..] == h[s.flushed..|h|];
  }

  // What is replayed after a crash is part of the unflushed history, in order.
  lemma ReplayedIsPart(s: State, left: map<nat, seq<seq<Entry>>>)
    requires MemOk(s) && LogsOk(s) && CrashLeaves(s, left)
    ensures Ascends(Replayed(s, left))
    ensures forall e :: e in Replayed(s, left) ==>
              s.flushed < e.key.sequence <= |s.history| && s.history[e.key.sequence - 1] == Some(e)
  {
    hide Flat, Listed, HoldsSlice;
    var h := s.history;
    LogsListHistory(s);
    CutAscends(s.logs, left, s.logNumber, s.logFile + 1);
    assert h[s.flushed..] == h[s.flushed..|h|];
    forall e | e in Replayed(s, left) ensures s.flushed < e.key.sequence <= |h| && h[e.key.sequence - 1] == Some(e) {
      InSlice(h, s.flushed, |h|, e);
    }
  }

  lemma SurvivingIsHistory(h: Writes, flushed: nat, kept: seq<Entry>, last: nat)
    requires IsHistory(h) && flushed <= |h| && flushed <= last
    ensures IsHistory(Surviving(h, flushed, kept, last))
    ensures Surviving(h, flushed, kept, last)[..flushed] == h[..flushed]
  {
  }

  // The history after recovery lists exactly what was replayed.
  lemma SurvivingIsListed(s: State, left: map<nat, seq<seq<Entry>>>, last: nat)
    requires MemOk(s) && LogsOk(s) && CrashLeaves(s, left) && s.flushed <= last
    requires forall e :: e in Replayed(s, left) ==> e.key.sequence <= last
    ensures Listed(Surviving(s.history, s.flushed, Replayed(s, left), last)[s.flushed..]) == Replayed(s, left)
  {
    hide Flat, Listed, Replayed, CrashLeaves, HoldsSlice, LogsOk, Ascends;
    var g := Surviving(s.history, s.flushed, Replayed(s, left), last);
    ReplayedIsPart(s, left);
    SurvivingIsHistory(s.history, s.flushed, Replayed(s, left), last);
    ListedAscends(g, s.flushed, last);
    assert g[s.flushed..] == g[s.flushed..last];
    forall e ensures e in Listed(g[s.flushed..]) <==> e in Replayed(s, left) {
      InSlice(g, s.flushed, last, e);
    }
    AscendingIsUnique(Listed(g[s.flushed..]), Replayed(s, left));
  }

  lemma RecoverNews(s: State, files: Level, first: nat, g: Writes, hi: nat)
    requires IsHistory(g) && s.flushed <= hi <= |g| && NumberedBelow(s.version, first)
    requires PartOf(AllEntries(s.version), g[..s.flushed])
    requires RecoveredTables(files, g, s.flushed, hi) && AscendingNumbers(files, first)
    ensures Level0News(s.version, files, first)
    ensures Entries(files) == Written(g[s.flushed..hi])
  {
    RecoveredSlices(files, g, s.flushed, hi);
    PartOfLonger(AllEntries(s.version), g, s.flushed);
  }

  lemma RecoverKeepsTables(s: State, t: State, left: map<nat, seq<seq<Entry>>>, torn: bool, files: Level, first: nat)
    requires MemOk(s) && LogsOk(s) && TablesOk(s.version, s.history[..s.flushed], Floor(s))
    requires RecoverStep(s, t, left, torn, files, first)
    ensures IsHistory(t.history)
    ensures TablesOk(t.version, t.history[..t.flushed], Floor(t))
  {
    hide ValidVersion, Ordered, PartOf, RetainsFrom, NumberedBelow, Applied, Level0News, RecoveredTables, HoldsSlice,
         AscendingNumbers, Surviving, Replayed, LogsOk, CrashLeaves;
    var h, g := s.history, t.history;
    SurvivingIsHistory(h, s.flushed, Replayed(s, left), |g|);
    assert g[..s.flushed] == h[..s.flushed];
    RecoverNews(s, files, first, g, t.flushed);
    RecoveredIsOrdered(s.version, files, t.version, first);
    VersionLength(s.version, files, t.version);
    RecoveredKeepsValid(s.version, files, t.version, first);
    RecoveredEntries(s.version, files, t.version);
    TablesGrow(AllEntries(s.version), Entries(files), g, s.flushed, t.flushed, Floor(s));
    RaiseFloor(AllEntries(t.version), g[..t.flushed], Floor(s), t.flushed);
  }

  lemma VersionLength(v: Levels, files: Level, w: Levels)
    requires ValidVersion(v) && Applied(v, Level0Additions(files), w)
    ensures |v| == |w| == NUM_LEVELS
  {
  }

  lemma RecoverKeepsNumbers(s: State, t: State, left: map<nat, seq<seq<Entry>>>, torn: bool, files: Level, first: nat)
    requires NumbersOk(s) && RecoverStep(s, t, left, torn, files, first)
    ensures NumbersOk(t)
  {
    hide RecoveredTables, HoldsSlice, Flat, LogRecords;
    forall l, f | 0 <= l < |t.version| && f in t.version[l] ensures f.number < t.nextFile {
      RecoveredMembership(s.version, files, t.version, l, f);
    }
  }

  // Recovery rebuilds the database whose writes are the flushed ones and those that could be replayed.
  lemma RecoverKeepsInv(s: State, t: State, left: map<nat, seq<seq<Entry>>>, torn: bool, files: Level, first: nat)
    requires Inv(s) && RecoverStep(s, t, left, torn, files, first)
    ensures Inv(t)
    ensures t.history[..s.flushed] == s.history[..s.flushed] && Listed(t.history[s.flushed..]) == Replayed(s, left)
  {
    hide TablesOk, NumbersOk, RecoveredTables, Applied, AscendingNumbers, ValidJob, NextLevelClosed, Tracks, Listed,
         Flat, Replayed, Surviving;
    RecoverKeepsTables(s, t, left, torn, files, first);
    RecoverKeepsNumbers(s, t, left, torn, files, first);
    RecoveredLogs(t);
    SurvivingIsHistory(s.history, s.flushed, Replayed(s, left), |t.history|);
    SurvivingIsListed(s, left, |t.history|);
  }

  // A database that starts on one log has nothing in the logs below it.
  lemma RecoveredLogs(t: State)
    requires t.logNumber == t.logFile && t.flushed == t.memStart <= |t.history|
    ensures Flat(LogRecords(t.logs, t.logNumber, t.logFile)) == Listed(t.history[t.flushed..t.memStart])
  {
  }

  // ---------- Runs ----------

  lemma EmptyVersion(v: Levels)
    requires |v| == NUM_LEVELS && forall l :: 0 <= l < |v| ==> v[l] == []
    ensures ValidVersion(v) && Ordered(v) && AllEntries(v) == {}
  {
  }

  lemma NotTorn(s: State)
    requires Inv(s)
    ensures s.torn == {}
  {
    hide MemOk, TablesOk, NumbersOk, JobOk;
  }

  // Recovery onto a torn log is recovery as it should be, but for the log.
  lemma AsIfWhole(s: State, t: State, left: map<nat, seq<seq<Entry>>>, torn: bool, files: Level, first: nat)
    requires Inv(s) && RecoverAnyway(s, t, left, torn, files, first)
    ensures RecoverStep(s, t.(torn := {}), left, false, files, first)
    ensures ReusesWhole(s, t, torn) ==> t.torn == {}
  {
    hide Listed, Flat, Replayed, HoldsSlice, RecoveredTables, Applied, NumberedBelow, Surviving, TablesOk;
  }

  lemma InitInv(s: State)
    requires Init(s)
    ensures Inv(s)
  {
    hide ValidVersion, Ordered, Retains;
    assert s.history[..0] == [] && s.history[0..0] == [] && s.history[0..] == [];
    EmptyVersion(s.version);
    forall k, n | 0 <= n <= 0 ensures Retains({}, [], k, n) {
      NothingToRetain(k);
    }
  }

  lemma NothingToRetain(k: UserKey)
    ensures Retains({}, [], k, 0)
  {
  }

  lemma StepKeepsInv(s: State, t: State, step: Step)
    requires Inv(s) && NextBy(s, t, step)
    ensures Inv(t)
  {
    hide Inv, WriteStep, SwitchStep, FlushStep, StartCompactionStep, AllocateOutputStep, InstallStep, TrivialMoveStep,
         SnapshotStep, ReleaseStep, RecoverStep;
    match step
    case Write(es, sync) => WriteKeepsInv(s, t, es, sync);
    case Switch => SwitchKeepsInv(s, t);
    case Flush(f, level) => FlushKeepsInv(s, t, f, level);
    case StartCompaction(job) => StartKeepsInv(s, t, job);
    case AllocateOutput => AllocateKeepsInv(s, t);
    case Install(outputs) => InstallKeepsInv(s, t, outputs);
    case TrivialMove(level, f) => MoveKeepsInv(s, t, level, f);
    case Snapshot => SnapshotKeepsInv(s, t);
    case Release(i) => ReleaseKeepsInv(s, t, i);
    case Recover(left, torn, files, first) => RecoverKeepsInv(s, t, left, torn, files, first);
  }

  ghost predicate IsRun(run: seq<State>, steps: seq<Step>) {
    && |run| == |steps| + 1
    && Init(run[0])
    && forall i :: 0 <= i < |steps| ==> NextBy(run[i], run[i + 1], steps[i])
  }

  lemma {:induction false} RunKeepsInv(run: seq<State>, steps: seq<Step>, i: nat)
    requires IsRun(run, steps) && i < |run|
    ensures Inv(run[i])
  {
    if i == 0 {
      InitInv(run[0]);
    } else {
      RunKeepsInv(run, steps, i - 1);
      StepKeepsInv(run[i - 1], run[i], steps[i - 1]);
    }
  }

  // Runs as the source makes them with compactions it picks by itself: the inputs have no gaps, and a
  // table goes down to any level that is clear.
  ghost predicate GaplessNext(s: State, t: State, step: Step) {
    match step
    case Flush(f, level) => FlushAnywhere(s, t, f, level)
    case StartCompaction(job) => StartCompactionStep(s, t, job) && NoGaps(job.inputs0 + job.inputs1)
    case _ => NextBy(s, t, step)
  }

  ghost predicate IsGaplessRun(run: seq<State>, steps: seq<Step>) {
    && |run| == |steps| + 1
    && Init(run[0])
    && forall i :: 0 <= i < |steps| ==> GaplessNext(run[i], run[i + 1], steps[i])
  }

  ghost predicate GaplessJob(s: State) {
    s.job.Some? ==> NoGaps(s.job.value.inputs0 + s.job.value.inputs1)
  }

  lemma GaplessStep(s: State, t: State, step: Step)
    requires Inv(s) && GaplessJob(s) && GaplessNext(s, t, step)
    ensures NextBy(s, t, step) && GaplessJob(t)
  {
    hide Inv, NoGaps, FlushStep, WriteStep, RecoverAnyway;
    match step
    case Write(es, sync) => JobStays(s, t, es, sync);
    case Flush(f, level) =>
      GaplessFlushIsStep(s, t, f, level);
    case Recover(left, torn, files, first) => NoJobOnRecovery(s, t, left, torn, files, first);
    case _ =>
  }

  lemma JobStays(s: State, t: State, es: seq<Entry>, sync: bool)
    requires WriteStep(s, t, es, sync)
    ensures t.job == s.job
  {
  }

  lemma NoJobOnRecovery(s: State, t: State, left: map<nat, seq<seq<Entry>>>, torn: bool, files: Level, first: nat)
    requires RecoverAnyway(s, t, left, torn, files, first)
    ensures t.job == None
  {
    hide Replayed, RecoveredTables, Applied, Surviving, Flat, Listed;
  }

  // They are runs, so all that holds of runs holds of them without a premise on flushes.
  lemma {:induction false} GaplessRunSoFar(run: seq<State>, steps: seq<Step>, i: nat)
    requires IsGaplessRun(run, steps) && i < |run|
    ensures Inv(run[i]) && GaplessJob(run[i])
    ensures forall j :: 0 <= j < i ==> NextBy(run[j], run[j + 1], steps[j])
  {
    hide Inv, GaplessNext, NextBy, NoGaps;
    if i == 0 {
      InitInv(run[0]);
    } else {
      GaplessRunSoFar(run, steps, i - 1);
      GaplessStep(run[i - 1], run[i], steps[i - 1]);
      StepKeepsInv(run[i - 1], run[i], steps[i - 1]);
    }
  }

  lemma GaplessRunIsRun(run: seq<State>, steps: seq<Step>)
    requires IsGaplessRun(run, steps)
    ensures IsRun(run, steps)
  {
    GaplessRunSoFar(run, steps, |steps|);
  }

  // In every state of every run, every lookup at or after the oldest snapshot answers what the
  // history of writes says.
  lemma EveryReadIsRight(run: seq<State>, steps: seq<Step>, i: nat, k: UserKey, n: nat, r: Lookup)
    requires IsRun(run, steps) && i < |run|
    requires SmallestSnapshot(run[i]) <= n <= |run[i].history|
    requires Answers(Stored(run[i]), k, n, r)
    ensures r == Read(run[i].history, k, n)
  {
    hide Inv, IsRun;
    RunKeepsInv(run, steps, i);
    ReadsAreRight(run[i], k, n, r);
  }
}
