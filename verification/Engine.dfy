/** The database as a state machine over the steps that hold DBImpl's mutex (db/db_impl.cc):
    group writes, memtable switches, flushes, compactions and trivial moves in any interleaving,
    snapshots, and crashes followed by recovery. */
module Engine {
  import opened Dbformat
  import opened History
  import opened Version
  import opened CompactionInputs
  import opened CompactionWork
  import opened Lsm
  import opened Jobs
  import opened DropRule

  datatype State = State(
    history: Writes,              // every write applied so far; its length is LastSequence
    flushed: nat,                 // history[..flushed] has gone to table files
    memStart: nat,                // history[memStart..] is in mem, the part between in imm
    mem: seq<Entry>,
    imm: Option<seq<Entry>>,
    version: Levels,
    snapshots: seq<nat>,          // oldest first
    nextFile: nat,
    pendingOutputs: set<nat>,
    job: Option<Job>,             // the compaction in progress
    logs: map<nat, seq<seq<Entry>>>,  // the records of each log file
    logFile: nat,                 // the log being written
    logNumber: nat,               // logs below this number are obsolete, says the manifest
    durable: map<nat, nat>,       // how many records of each log file are synced and can be read back
    torn: set<nat>)               // log files that were written on behind a torn record

  function SmallestSnapshot(s: State): nat {
    if s.snapshots == [] then |s.history| else s.snapshots[0]
  }

  // Reads at or after this sequence number are answered.
  function Floor(s: State): nat {
    if SmallestSnapshot(s) < s.flushed then SmallestSnapshot(s) else s.flushed
  }

  ghost function Stored(s: State): set<Entry> {
    AllEntries(s.version) + (if s.imm.Some? then ToSet(s.imm.value) else {}) + ToSet(s.mem)
  }

  // ---------- Logs ----------

  // The records of the logs numbered lo..hi-1, in ascending order of log number.
  function LogRecords(logs: map<nat, seq<seq<Entry>>>, lo: nat, hi: nat): seq<seq<Entry>> {
    if hi <= lo then [] else LogRecords(logs, lo, hi - 1) + (if hi - 1 in logs then logs[hi - 1] else [])
  }

  // The writes of h, in order.
  function Listed(h: Writes): seq<Entry> {
    if h == [] then [] else Listed(h[..|h| - 1]) + (if h[|h| - 1].Some? then [h[|h| - 1].value] else [])
  }

  function Somes(es: seq<Entry>): (h: Writes)
    ensures |h| == |es| && forall i :: 0 <= i < |es| ==> h[i] == Some(es[i])
  {
    seq(|es|, i requires 0 <= i < |es| => Some(es[i]))
  }

  // ---------- Invariants ----------

  ghost predicate TablesOk(v: Levels, h: Writes, floor: nat) {
    && ValidVersion(v) && Ordered(v)
    && PartOf(AllEntries(v), h)
    && RetainsFrom(AllEntries(v), h, floor)
  }

  ghost predicate HoldsSlice(es: seq<Entry>, h: Writes, lo: nat, hi: nat)
    requires lo <= hi <= |h|
  {
    Sorted(es) && ToSet(es) == Written(h[lo..hi])
  }

  ghost predicate MemOk(s: State) {
    && IsHistory(s.history)
    && s.flushed <= s.memStart <= |s.history|
    && HoldsSlice(s.mem, s.history, s.memStart, |s.history|)
    && (s.imm.None? ==> s.flushed == s.memStart)
    && (s.imm.Some? ==> HoldsSlice(s.imm.value, s.history, s.flushed, s.memStart))
  }

  ghost predicate SnapshotsOk(s: State) {
    && (forall i, j :: 0 <= i < j < |s.snapshots| ==> s.snapshots[i] <= s.snapshots[j])
    && forall i :: 0 <= i < |s.snapshots| ==> s.snapshots[i] <= |s.history|
  }

  ghost predicate NumbersOk(s: State) {
    && (forall l, f ::
         0 <= l < |s.version| && f in s.version[l] ==> f.number < s.nextFile && f.number !in s.pendingOutputs)
    && forall n :: n in s.pendingOutputs ==> n < s.nextFile
  }

  ghost predicate JobOk(s: State) {
    s.job.Some? ==>
      && ValidJob(s.job.value) && NextLevelClosed(s.job.value.base, s.job.value.level, s.job.value.inputs1)
      && Tracks(s.job.value, s.version)
      && s.job.value.flushed <= s.flushed
      && s.job.value.smallest <= SmallestSnapshot(s)
  }

  // The logs the manifest still needs hold exactly what the tables lack.
  ghost predicate LogsOk(s: State) {
    && s.logNumber <= s.logFile < s.nextFile
    && (forall n :: n in s.logs ==> n <= s.logFile)
    && s.logFile in s.logs
    && s.torn == {}
    && s.durable.Keys == s.logs.Keys && (forall n :: n in s.logs ==> s.durable[n] <= |s.logs[n]|)
    && s.memStart <= |s.history| && s.flushed <= s.memStart
    && Flat(LogRecords(s.logs, s.logNumber, s.logFile)) == Listed(s.history[s.flushed..s.memStart])
    && Flat(s.logs[s.logFile]) == Listed(s.history[s.memStart..])
  }

  ghost predicate Inv(s: State) {
    && MemOk(s)
    && TablesOk(s.version, s.history[..s.flushed], Floor(s))
    && SnapshotsOk(s)
    && NumbersOk(s)
    && JobOk(s)
    && LogsOk(s)
  }

  // ---------- Steps ----------

  // The entries a write batch becomes when its first sequence number is n + 1.
  ghost predicate Numbered(es: seq<Entry>, n: nat) {
    forall i :: 0 <= i < |es| ==> es[i].key.sequence == n + i + 1
  }

  // A leader logs its batch group as one record, syncs that log file if the write asks for it, and
  // applies the group to the memtable.  Behind a torn record a sync is of no use.
  ghost predicate WriteStep(s: State, t: State, es: seq<Entry>, sync: bool) {
    && Numbered(es, |s.history|)
    && s.logFile in s.logs
    && Sorted(t.mem) && ToSet(t.mem) == ToSet(s.mem) + ToSet(es)
    && t == s.(history := s.history + Somes(es), mem := t.mem,
               logs := s.logs[s.logFile := s.logs[s.logFile] + [es]],
               durable := if sync && s.logFile !in s.torn then s.durable[s.logFile := |s.logs[s.logFile]| + 1]
                          else s.durable)
  }

  // MakeRoomForWrite starts a new log and memtable.  It closes the old log file without syncing it.
  ghost predicate SwitchStep(s: State, t: State) {
    && s.imm.None?
    && t == s.(imm := Some(s.mem), mem := [], memStart := |s.history|,
               nextFile := s.nextFile + 1, logFile := s.nextFile, logs := s.logs[s.nextFile := []],
               durable := s.durable[s.nextFile := 0])
  }

  ghost predicate TableOf(f: FileMetaData, es: seq<Entry>) {
    ValidFile(f) && f.entries == es
  }

  // CompactMemTable: the immutable memtable becomes a table, unless it is empty.
  ghost predicate FlushAnywhere(s: State, t: State, f: FileMetaData, level: nat) {
    && s.imm.Some?
    && (if s.imm.value == [] then t.version == s.version
        else
          && TableOf(f, s.imm.value) && f.number == s.nextFile
          && level < |s.version| && (level > 0 ==> ClearDownTo(s.version, f, level))
          && Applied(s.version, VersionEdit({}, [(level, f)]), t.version))
    && t == s.(imm := None, flushed := s.memStart, version := t.version, nextFile := s.nextFile + 1,
               logNumber := s.logFile, logs := From(s.logs, s.logFile), durable := From(s.durable, s.logFile),
               torn := set n | n in s.torn && n >= s.logFile)
  }

  // The logs that are still needed.
  function From<T>(logs: map<nat, T>, n: nat): map<nat, T> { map m | m in logs && m >= n :: logs[m] }

  // While a compaction runs, a table for its output level must lie outside the compaction's key span.
  // The source does not check this.
  ghost predicate FlushApart(s: State, f: FileMetaData, level: nat) {
    s.imm.Some? && s.imm.value != [] && s.job.Some? && level == s.job.value.level + 1 ==>
      Apart(f, s.job.value.inputs0 + s.job.value.inputs1)
  }

  ghost predicate FlushStep(s: State, t: State, f: FileMetaData, level: nat) {
    FlushAnywhere(s, t, f, level) && FlushApart(s, f, level)
  }

  ghost predicate StartAnyway(s: State, t: State, job: Job) {
    && s.job.None?
    && job.base == s.version && job.flushed == s.flushed && job.smallest == SmallestSnapshot(s)
    && ClosedInputs(s.version, job.level, job.inputs0, job.inputs1)
    && t == s.(job := Some(job))
  }

  // No file the next level keeps may start with the user key at which one it gives ends.  The source
  // does not check this.
  ghost predicate StartCompactionStep(s: State, t: State, job: Job) {
    StartAnyway(s, t, job) && NextLevelClosed(s.version, job.level, job.inputs1)
  }

  ghost predicate AllocateOutputStep(s: State, t: State) {
    t == s.(nextFile := s.nextFile + 1, pendingOutputs := s.pendingOutputs + {s.nextFile})
  }

  ghost predicate FreshNumbers(outputs: Level, numbers: set<nat>) {
    && (forall o :: o in outputs ==> o.number in numbers)
    && forall o, p :: o in outputs && p in outputs && o.number == p.number ==> o == p
  }

  // The outputs replace the inputs: exactly the dropped entries are gone.
  ghost predicate InstallStep(s: State, t: State, outputs: Level) {
    && s.job.Some?
    && var job := s.job.value;
    && var I := Inputs(job.inputs0, job.inputs1);
    && FreshNumbers(outputs, s.pendingOutputs)
    && MadeOf(outputs, I)
    && Entries(outputs) == I - DroppedOf(job.base, job.level, I, job.smallest)
    && Replaced(s.version, job.level, job.inputs0, job.inputs1, outputs, t.version)
    && t == s.(version := t.version, job := None, pendingOutputs := {})
  }

  // BackgroundCompaction moves a single input file to the next level without rewriting it.
  ghost predicate TrivialMoveStep(s: State, t: State, level: nat, f: FileMetaData) {
    && s.job.None?
    && ClosedInputs(s.version, level, [f], [])
    && Replaced(s.version, level, [f], [], [f], t.version)
    && t == s.(version := t.version)
  }

  ghost predicate SnapshotStep(s: State, t: State) {
    t == s.(snapshots := s.snapshots + [|s.history|])
  }

  ghost predicate ReleaseStep(s: State, t: State, i: nat) {
    i < |s.snapshots| && t == s.(snapshots := s.snapshots[..i] + s.snapshots[i + 1..])
  }

  // Tables recovered from logs, oldest first, cover h[lo..hi].
  ghost predicate RecoveredTables(files: Level, h: Writes, lo: nat, hi: nat)
    decreases |files|
  {
    if files == [] then lo == hi
    else
      var f := files[|files| - 1];
      && ValidFile(f)
      && exists mid ::
           lo <= mid < hi <= |h| && HoldsSlice(f.entries, h, mid, hi) &&
           RecoveredTables(files[..|files| - 1], h, lo, mid)
  }

  ghost predicate AscendingNumbers(files: Level, from: nat) {
    && (forall f :: f in files ==> from <= f.number)
    && forall i, j :: 0 <= i < j < |files| ==> files[i].number < files[j].number
  }

  ghost predicate NumberedBelow(v: Levels, first: nat) {
    forall l, f :: 0 <= l < |v| && f in v[l] ==> f.number < first
  }

  function Level0Additions(files: Level): VersionEdit {
    VersionEdit({}, seq(|files|, i requires 0 <= i < |files| => (0, files[i])))
  }

  // What a crash may leave of the log files, as reading them finds it: of each of them a prefix that has
  // at least the records that were synced.  Of a log that was written on behind a torn record, any of the
  // records after those may be missing.
  ghost predicate CrashLeaves(s: State, left: map<nat, seq<seq<Entry>>>) {
    && left.Keys == s.logs.Keys == s.durable.Keys
    && forall n :: n in s.logs ==>
         && s.durable[n] <= |left[n]|
         && if n in s.torn then Resumes(s.logs[n], s.durable[n], left[n]) else left[n] <= s.logs[n]
  }

  // The first d records, and then some of the others.
  ghost predicate Resumes(records: seq<seq<Entry>>, d: nat, left: seq<seq<Entry>>) {
    d <= |records| && d <= |left| && left[..d] == records[..d] && forall r :: r in left ==> r in records
  }

  // What is replayed of them.
  function Replayed(s: State, left: map<nat, seq<seq<Entry>>>): seq<Entry> {
    Flat(LogRecords(left, s.logNumber, s.logFile + 1))
  }

  // The first `last` writes of h as far as they are flushed or among those kept.
  function Surviving(h: Writes, flushed: nat, kept: seq<Entry>, last: nat): (g: Writes)
    requires flushed <= |h|
    ensures |g| == last
  {
    seq(last, i requires 0 <= i < last =>
      if i < |h| && (i < flushed || (h[i].Some? && h[i].value in kept)) then h[i] else None)
  }

  // A crash loses the memtables, the snapshots and the ends of log files.  Then DB::Open replays the
  // logs from logNumber on, in ascending order, into level-0 tables and possibly a last memtable that
  // goes on with its log.  Where an older log has lost its end and a newer one has not, writes are
  // missing in between.  LastSequence may be past the last write that is left, if the manifest says
  // so.  Table numbers are taken from `first` on; numbers allocated before the crash but never
  // recorded may be used again.  The crash may have torn the last record of the newest log; the source
  // goes on with that log all the same, if it goes on with it at all.
  ghost predicate RecoverAnyway(
      s: State, t: State, left: map<nat, seq<seq<Entry>>>, torn: bool, files: Level, first: nat)
  {
    && CrashLeaves(s, left)
    && s.flushed <= |s.history| && s.flushed <= |t.history|
    && (forall e :: e in Replayed(s, left) ==> e.key.sequence <= |t.history|)
    && t.history == Surviving(s.history, s.flushed, Replayed(s, left), |t.history|)
    && t.flushed == t.memStart && s.flushed <= t.flushed <= |t.history|
    && RecoveredTables(files, t.history, s.flushed, t.flushed)
    && NumberedBelow(s.version, first) && AscendingNumbers(files, first)
    && Applied(s.version, Level0Additions(files), t.version)
    && HoldsSlice(t.mem, t.history, t.memStart, |t.history|)
    && t.imm == None && t.job == None && t.snapshots == [] && t.pendingOutputs == {}
    && (forall f :: f in files ==> f.number < t.nextFile)
    && first <= t.nextFile
    && t.logNumber == t.logFile < t.nextFile
    && t.logs.Keys == t.durable.Keys == {t.logFile}
    && Flat(t.logs[t.logFile]) == Listed(t.history[t.memStart..])
    && (if t.logFile == s.logFile && s.logFile in left
        then t.logs[t.logFile] == left[s.logFile] && t.durable[t.logFile] == s.durable[s.logFile]
        else t.logs[t.logFile] == [] && t.durable[t.logFile] == 0)
    && t.torn == if t.logFile == s.logFile && (torn || s.logFile in s.torn) then {t.logFile} else {}
  }

  // The log that the database goes on with must not be torn.  The source does not check this.
  ghost predicate ReusesWhole(s: State, t: State, torn: bool) {
    t.logFile == s.logFile ==> !torn && s.logFile !in s.torn
  }

  ghost predicate RecoverStep(
      s: State, t: State, left: map<nat, seq<seq<Entry>>>, torn: bool, files: Level, first: nat)
  {
    RecoverAnyway(s, t, left, torn, files, first) && ReusesWhole(s, t, torn)
  }

  datatype Step =
    | Write(es: seq<Entry>, sync: bool)
    | Switch
    | Flush(table: FileMetaData, level: nat)
    | StartCompaction(job: Job)
    | AllocateOutput
    | Install(outputs: Level)
    | TrivialMove(level: nat, file: FileMetaData)
    | Snapshot
    | Release(index: nat)
    | Recover(left: map<nat, seq<seq<Entry>>>, torn: bool, files: Level, first: nat)

  ghost predicate NextBy(s: State, t: State, step: Step) {
    match step
    case Write(es, sync) => WriteStep(s, t, es, sync)
    case Switch => SwitchStep(s, t)
    case Flush(f, level) => FlushStep(s, t, f, level)
    case StartCompaction(job) => StartCompactionStep(s, t, job)
    case AllocateOutput => AllocateOutputStep(s, t)
    case Install(outputs) => InstallStep(s, t, outputs)
    case TrivialMove(level, f) => TrivialMoveStep(s, t, level, f)
    case Snapshot => SnapshotStep(s, t)
    case Release(i) => ReleaseStep(s, t, i)
    case Recover(left, torn, files, first) => RecoverStep(s, t, left, torn, files, first)
  }

  // A freshly created database.
  ghost predicate Init(s: State) {
    && s.history == [] && s.flushed == 0 && s.memStart == 0 && s.mem == [] && s.imm == None
    && s.version == NO_FILES
    && s.snapshots == [] && s.pendingOutputs == {} && s.job == None
    && s.logNumber == s.logFile < s.nextFile && s.logs == map[s.logFile := []] && s.durable == map[s.logFile := 0]
    && s.torn == {}
  }
}
