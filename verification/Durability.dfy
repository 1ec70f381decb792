/** What survives a crash (db/db_impl.cc, Write and MakeRoomForWrite): writes in synced tables, and
    writes whose log record was synced.  A memtable switch leaves the end of the old log unsynced, so a
    later sync write does not make the writes before it durable; it does exactly if no older log that
    is still needed has an unsynced end. */
module Durability {
  import opened Dbformat
  import opened History
  import opened Version
  import opened Lsm
  import opened Engine
  import opened EngineSafety
  import Batch

  // The synced records of log n.
  function SyncedRecords(s: State, n: nat): seq<seq<Entry>> {
    if n in s.logs && n in s.durable && s.durable[n] <= |s.logs[n]| then s.logs[n][..s.durable[n]] else []
  }

  // The write is in a table, or in a synced record of a log that is still needed.
  ghost predicate IsDurable(s: State, e: Entry) {
    || e in Written(s.history[..if s.flushed <= |s.history| then s.flushed else 0])
    || exists n :: s.logNumber <= n <= s.logFile && e in Flat(SyncedRecords(s, n))
  }

  lemma {:induction false} FlatHolds(records: seq<seq<Entry>>, e: Entry)
    ensures e in Flat(records) <==> exists i :: 0 <= i < |records| && e in records[i]
  {
    if records != [] {
      FlatHolds(records[..|records| - 1], e);
    }
  }

  lemma FlatOfPrefix(records: seq<seq<Entry>>, more: seq<seq<Entry>>, e: Entry)
    requires records <= more && e in Flat(records)
    ensures e in Flat(more)
  {
    FlatHolds(records, e);
    FlatHolds(more, e);
    var i :| 0 <= i < |records| && e in records[i];
    assert more[i] == records[i];
  }

  // An entry of a log is among the records of any range of logs around it.
  lemma {:induction false} LogHolds(logs: map<nat, seq<seq<Entry>>>, lo: nat, hi: nat, n: nat, e: Entry)
    requires lo <= n < hi && n in logs && e in Flat(logs[n])
    ensures e in Flat(LogRecords(logs, lo, hi))
    decreases hi
  {
    hide Flat;
    FlatAppend(LogRecords(logs, lo, hi - 1), if hi - 1 in logs then logs[hi - 1] else []);
    if n < hi - 1 {
      LogHolds(logs, lo, hi - 1, n, e);
    }
  }

  // A durable write is in the history.
  lemma DurableIsWritten(s: State, e: Entry)
    requires Inv(s) && IsDurable(s, e)
    ensures 1 <= e.key.sequence <= |s.history| && s.history[e.key.sequence - 1] == Some(e)
  {
    hide TablesOk, NumbersOk, JobOk, Flat, Listed, HoldsSlice;
    var h := s.history;
    if e in Written(h[..s.flushed]) {
      assert h[0..s.flushed] == h[..s.flushed];
      InSlice(h, 0, s.flushed, e);
    } else {
      var n :| s.logNumber <= n <= s.logFile && e in Flat(SyncedRecords(s, n));
      FlatNone();
      FlatOfPrefix(SyncedRecords(s, n), s.logs[n], e);
      LogHolds(s.logs, s.logNumber, s.logFile + 1, n, e);
      LogsListHistory(s);
      assert h[s.flushed..] == h[s.flushed..|h|];
      InSlice(h, s.flushed, |h|, e);
    }
  }

  // ---------- Steps ----------

  // A write is durable once it is done with a sync.
  lemma SyncMakesDurable(s: State, t: State, es: seq<Entry>, e: Entry)
    requires Inv(s) && WriteStep(s, t, es, true) && e in es
    ensures IsDurable(t, e)
  {
    hide MemOk, TablesOk, NumbersOk, JobOk, Flat, Listed;
    var records := t.logs[t.logFile];
    FlatHolds(records, e);
    assert records[|records| - 1] == es;
    assert SyncedRecords(t, t.logFile) == records;
  }

  lemma LogStays(s: State, t: State, e: Entry, n: nat)
    requires s.logNumber <= n <= s.logFile && e in Flat(SyncedRecords(s, n)) && t.logNumber <= n <= t.logFile
    requires SyncedRecords(s, n) <= SyncedRecords(t, n)
    ensures IsDurable(t, e)
  {
    hide Flat;
    FlatOfPrefix(SyncedRecords(s, n), SyncedRecords(t, n), e);
  }

  lemma FlushedStays(s: State, t: State, e: Entry)
    requires s.flushed <= |s.history| && e in Written(s.history[..s.flushed])
    requires s.flushed <= t.flushed <= |t.history| && t.history[..s.flushed] == s.history[..s.flushed]
    ensures IsDurable(t, e)
  {
    var h := t.history;
    assert h[..t.flushed] == h[..s.flushed] + h[s.flushed..t.flushed];
  }

  lemma FlushKeepsDurable(s: State, t: State, f: FileMetaData, level: nat, e: Entry)
    requires Inv(s) && FlushStep(s, t, f, level) && IsDurable(s, e)
    ensures IsDurable(t, e)
  {
    hide TablesOk, NumbersOk, JobOk, Flat, Listed, HoldsSlice;
    var h := s.history;
    if e in Written(h[..s.flushed]) {
      FlushedStays(s, t, e);
    } else {
      var n :| s.logNumber <= n <= s.logFile && e in Flat(SyncedRecords(s, n));
      if n == s.logFile {
        LogStays(s, t, e, n);
      } else {
        FlatNone();
        FlatOfPrefix(SyncedRecords(s, n), s.logs[n], e);
        LogHolds(s.logs, s.logNumber, s.logFile, n, e);
        ListedHolds(h[s.flushed..s.memStart], e);
        assert h[..s.memStart] == h[..s.flushed] + h[s.flushed..s.memStart];
      }
    }
  }

  lemma RecoverKeepsDurable(
      s: State, t: State, left: map<nat, seq<seq<Entry>>>, torn: bool, files: Level, first: nat, e: Entry)
    requires Inv(s) && RecoverStep(s, t, left, torn, files, first) && IsDurable(s, e)
    ensures IsDurable(t, e)
  {
    hide TablesOk, NumbersOk, JobOk, Flat, Listed, HoldsSlice, RecoveredTables, Applied, AscendingNumbers, LogRecords,
         Surviving;
    var h, g := s.history, t.history;
    RecoverKeepsInv(s, t, left, torn, files, first);
    if e in Written(h[..s.flushed]) {
      FlushedStays(s, t, e);
    } else {
      var n :| s.logNumber <= n <= s.logFile && e in Flat(SyncedRecords(s, n));
      FlatNone();
      SyncedIsLeft(s, left, n);
      FlatOfPrefix(SyncedRecords(s, n), left[n], e);
      LogHolds(left, s.logNumber, s.logFile + 1, n, e);
      if e !in Written(g[..t.flushed]) {
        InNewestLog(s, t, left, torn, files, first, n, e);
        LogStays(s, t, e, n);
      }
    }
  }

  lemma SyncedIsLeft(s: State, left: map<nat, seq<seq<Entry>>>, n: nat)
    requires CrashLeaves(s, left) && n in s.logs
    ensures SyncedRecords(s, n) <= left[n]
  {
  }

  // What is replayed and has not gone to a table is in the log that recovery goes on with.
  lemma InNewestLog(
      s: State, t: State, left: map<nat, seq<seq<Entry>>>, torn: bool, files: Level, first: nat, n: nat, e: Entry)
    requires Inv(s) && RecoverStep(s, t, left, torn, files, first)
    requires s.logNumber <= n <= s.logFile && n in left && e in Flat(left[n]) && e in Replayed(s, left)
    requires e !in Written(t.history[..t.flushed])
    ensures n == s.logFile == t.logFile == t.logNumber && SyncedRecords(s, n) <= SyncedRecords(t, n)
  {
    hide TablesOk, NumbersOk, JobOk, Flat, Listed, HoldsSlice, RecoveredTables, Applied, AscendingNumbers, LogRecords,
         Surviving, CrashLeaves;
    var g := t.history;
    RecoverKeepsInv(s, t, left, torn, files, first);
    ListedHolds(g[s.flushed..], e);
    assert g[s.flushed..] == g[s.flushed..t.flushed] + g[t.flushed..];
    assert g[..t.flushed] == g[..s.flushed] + g[s.flushed..t.flushed];
    ListedHolds(g[t.memStart..], e);
    assert e in Flat(t.logs[t.logFile]);
    FlatNone();
    OneLogOnly(s, left, n, e);
    SyncedIsLeft(s, left, n);
  }

  // An entry that is in the newest log is in no older one.
  lemma OneLogOnly(s: State, left: map<nat, seq<seq<Entry>>>, n: nat, e: Entry)
    requires MemOk(s) && LogsOk(s) && CrashLeaves(s, left)
    requires s.logNumber <= n <= s.logFile && n in left && e in Flat(left[n]) && e in Flat(left[s.logFile])
    ensures n == s.logFile
  {
    hide Flat, Listed, HoldsSlice, Ascends;
    ReplayedIsPart(s, left);
    var below := LogRecords(left, s.logNumber, s.logFile);
    FlatAppend(below, left[s.logFile]);
    AscendingParts(Flat(below), Flat(left[s.logFile]));
    if n < s.logFile {
      LogHolds(left, s.logNumber, s.logFile, n, e);
    }
  }

  lemma StepKeepsDurable(s: State, t: State, step: Step, e: Entry)
    requires Inv(s) && NextBy(s, t, step) && IsDurable(s, e)
    ensures IsDurable(t, e)
  {
    hide Flat, Listed, LogRecords, MemOk, TablesOk, NumbersOk, JobOk, FlushStep, RecoverStep, InstallStep;
    match step
    case Flush(f, level) => FlushKeepsDurable(s, t, f, level, e);
    case Recover(left, torn, files, first) => RecoverKeepsDurable(s, t, left, torn, files, first, e);
    case _ => OtherKeepsDurable(s, t, step, e);
  }

  lemma OtherKeepsDurable(s: State, t: State, step: Step, e: Entry)
    requires Inv(s) && NextBy(s, t, step) && IsDurable(s, e) && !step.Flush? && !step.Recover?
    ensures IsDurable(t, e)
  {
    hide Flat, Listed, LogRecords, TablesOk, NumbersOk, JobOk, HoldsSlice;
    assert s.flushed == t.flushed && s.history <= t.history;
    if e in Written(s.history[..s.flushed]) {
      assert t.history[..s.flushed] == s.history[..s.flushed];
      FlushedStays(s, t, e);
    } else {
      var n :| s.logNumber <= n <= s.logFile && e in Flat(SyncedRecords(s, n));
      FlatNone();
      LogStays(s, t, e, n);
    }
  }

  // ---------- Runs ----------

  lemma {:induction false} DurableStays(run: seq<State>, steps: seq<Step>, i: nat, j: nat, e: Entry)
    requires IsRun(run, steps) && i <= j < |run| && IsDurable(run[i], e)
    ensures IsDurable(run[j], e)
    decreases j - i
  {
    hide Inv, NextBy, IsDurable;
    if i < j {
      DurableStays(run, steps, i, j - 1, e);
      RunKeepsInv(run, steps, j - 1);
      StepKeepsDurable(run[j - 1], run[j], steps[j - 1], e);
    }
  }

  // A write that was done with a sync is in the history for good, whatever crashes follow.
  lemma SyncedWritesAreDurable(run: seq<State>, steps: seq<Step>, i: nat, j: nat, es: seq<Entry>, e: Entry)
    requires IsRun(run, steps) && i < j < |run|
    requires steps[i] == Write(es, true) && e in es
    ensures 1 <= e.key.sequence <= |run[j].history| && run[j].history[e.key.sequence - 1] == Some(e)
  {
    hide Inv, IsDurable, WriteStep;
    RunKeepsInv(run, steps, i);
    assert NextBy(run[i], run[i + 1], steps[i]);
    SyncMakesDurable(run[i], run[i + 1], es, e);
    DurableStays(run, steps, i + 1, j, e);
    RunKeepsInv(run, steps, j);
    DurableIsWritten(run[j], e);
  }

  // ---------- The writes before a sync write ----------

  // Recovery from what is left has all writes of the history.
  ghost predicate NothingLost(s: State, left: map<nat, seq<seq<Entry>>>)
    requires s.flushed <= |s.history|
  {
    Surviving(s.history, s.flushed, Replayed(s, left), |s.history|) == s.history
  }

  // Log n has no writes in records that are not synced.
  ghost predicate EndIsSynced(s: State, n: nat) {
    n in s.logs && n in s.durable && s.durable[n] <= |s.logs[n]| ==> Flat(s.logs[n][s.durable[n]..]) == []
  }

  // No crash can lose a write if and only if no log that is still needed has an unsynced end.
  lemma NothingLostIffSynced(s: State)
    requires Inv(s)
    ensures s.flushed <= |s.history|
    ensures (forall left :: CrashLeaves(s, left) ==> NothingLost(s, left))
            <==> forall n :: s.logNumber <= n <= s.logFile ==> EndIsSynced(s, n)
  {
    hide TablesOk, NumbersOk, JobOk, Flat, Listed, HoldsSlice, Replayed, Surviving, CrashLeaves;
    if forall n :: s.logNumber <= n <= s.logFile ==> EndIsSynced(s, n) {
      forall left | CrashLeaves(s, left) ensures NothingLost(s, left) {
        SyncedLogsSuffice(s, left);
      }
    }
    forall n | s.logNumber <= n <= s.logFile && !EndIsSynced(s, n)
      ensures exists left :: CrashLeaves(s, left) && !NothingLost(s, left)
    {
      UnsyncedEndIsLost(s, n);
    }
  }

  lemma {:induction false} SameWrites(
      logs: map<nat, seq<seq<Entry>>>, left: map<nat, seq<seq<Entry>>>, lo: nat, hi: nat)
    requires left.Keys == logs.Keys && forall n :: lo <= n < hi && n in logs ==> Flat(left[n]) == Flat(logs[n])
    ensures Flat(LogRecords(left, lo, hi)) == Flat(LogRecords(logs, lo, hi))
    decreases hi
  {
    hide Flat;
    if lo < hi {
      SameWrites(logs, left, lo, hi - 1);
      FlatAppend(LogRecords(logs, lo, hi - 1), if hi - 1 in logs then logs[hi - 1] else []);
      FlatAppend(LogRecords(left, lo, hi - 1), if hi - 1 in left then left[hi - 1] else []);
    }
  }

  lemma {:induction false} NoWritesInPart(records: seq<seq<Entry>>, n: nat, m: nat)
    requires n <= m <= |records| && Flat(records[n..]) == []
    ensures Flat(records[..m]) == Flat(records)
  {
    hide Flat;
    assert records == records[..m] + records[m..] && records[n..] == records[n..m] + records[m..];
    FlatAppend(records[..m], records[m..]);
    FlatAppend(records[n..m], records[m..]);
  }

  lemma SyncedLogsSuffice(s: State, left: map<nat, seq<seq<Entry>>>)
    requires Inv(s) && CrashLeaves(s, left) && forall n :: s.logNumber <= n <= s.logFile ==> EndIsSynced(s, n)
    ensures s.flushed <= |s.history| && NothingLost(s, left)
  {
    hide TablesOk, NumbersOk, JobOk, Flat, Listed, HoldsSlice, LogRecords;
    forall n | s.logNumber <= n < s.logFile + 1 && n in s.logs ensures Flat(left[n]) == Flat(s.logs[n]) {
      assert EndIsSynced(s, n);
      NoWritesInPart(s.logs[n], s.durable[n], |left[n]|);
      assert s.logs[n][..|left[n]|] == left[n];
    }
    SameWrites(s.logs, left, s.logNumber, s.logFile + 1);
    LogsListHistory(s);
    var h := s.history;
    forall i | s.flushed <= i < |h| && h[i].Some? ensures h[i].value in Replayed(s, left) {
      ListedHolds(h[s.flushed..], h[i].value);
      assert h[s.flushed..][i - s.flushed] == h[i];
    }
  }

  // A crash that cuts log n down to its synced records loses the writes after them.
  lemma UnsyncedEndIsLost(s: State, n: nat)
    requires Inv(s) && s.logNumber <= n <= s.logFile && !EndIsSynced(s, n)
    ensures s.flushed <= |s.history|
    ensures var left := s.logs[n := SyncedRecords(s, n)]; CrashLeaves(s, left) && !NothingLost(s, left)
  {
    hide TablesOk, NumbersOk, JobOk, Flat, Listed, HoldsSlice, LogRecords;
    var records, d := s.logs[n], s.durable[n];
    var left := s.logs[n := records[..d]];
    var end := Flat(records[d..]);
    var e := end[0];
    LogsListHistory(s);
    FlatHolds(records[d..], e);
    var k :| 0 <= k < |records[d..]| && e in records[d..][k];
    assert records[d + k] == records[d..][k];
    FlatHolds(records, e);
    LogHolds(s.logs, s.logNumber, s.logFile + 1, n, e);
    var h := s.history;
    assert h[s.flushed..] == h[s.flushed..|h|];
    InSlice(h, s.flushed, |h|, e);
    CutIsGone(s, n, e);
    assert h[e.key.sequence - 1] == Some(e);
  }

  // An entry of the cut-off end is nowhere else.
  lemma CutIsGone(s: State, n: nat, e: Entry)
    requires MemOk(s) && LogsOk(s) && s.logNumber <= n <= s.logFile && n in s.logs
    requires e in Flat(s.logs[n][s.durable[n]..])
    ensures e !in Replayed(s, s.logs[n := s.logs[n][..s.durable[n]]])
  {
    hide Flat, Listed, HoldsSlice, Ascends;
    LogsListHistory(s);
    var records, d := s.logs[n], s.durable[n];
    var left := s.logs[n := records[..d]];
    RangesAround(s.logs, s.logNumber, n, s.logFile + 1);
    RangesAround(left, s.logNumber, n, s.logFile + 1);
    LogRecordsFrame(s.logs, left, s.logNumber, n);
    FramesAfter(s.logs, left, n + 1, s.logFile + 1);
    var below, above := Flat(LogRecords(s.logs, s.logNumber, n)), Flat(LogRecords(s.logs, n + 1, s.logFile + 1));
    assert records == records[..d] + records[d..];
    FlatAppend(records[..d], records[d..]);
    AscendingParts(below + Flat(records), above);
    AscendingParts(below, Flat(records));
    AscendingParts(Flat(records[..d]), Flat(records[d..]));
  }

  lemma FramesAfter(a: map<nat, seq<seq<Entry>>>, b: map<nat, seq<seq<Entry>>>, lo: nat, hi: nat)
    requires forall n :: lo <= n < hi ==> ((n in a <==> n in b) && (n in a ==> a[n] == b[n]))
    ensures LogRecords(a, lo, hi) == LogRecords(b, lo, hi)
  {
    LogRecordsFrame(a, b, lo, hi);
  }

  lemma {:induction false} RangesAround(logs: map<nat, seq<seq<Entry>>>, lo: nat, n: nat, hi: nat)
    requires lo <= n < hi && n in logs
    ensures Flat(LogRecords(logs, lo, hi)) ==
              Flat(LogRecords(logs, lo, n)) + Flat(logs[n]) + Flat(LogRecords(logs, n + 1, hi))
    decreases hi
  {
    hide Flat;
    if n == hi - 1 {
      FlatAppend(LogRecords(logs, lo, n), logs[n]);
      FlatNone();
    } else {
      RangesAround(logs, lo, n, hi - 1);
      var last := if hi - 1 in logs then logs[hi - 1] else [];
      FlatAppend(LogRecords(logs, lo, hi - 1), last);
      FlatAppend(LogRecords(logs, n + 1, hi - 1), last);
    }
  }

  // Right after a sync write, every write so far is safe if and only if the older logs that are still
  // needed have no unsynced ends: a memtable switch since the last flush is all there is to look at.
  lemma SyncCoversAllIff(s: State, t: State, es: seq<Entry>)
    requires Inv(s) && WriteStep(s, t, es, true)
    ensures t.flushed <= |t.history|
    ensures (forall left :: CrashLeaves(t, left) ==> NothingLost(t, left))
            <==> forall n :: t.logNumber <= n < t.logFile ==> EndIsSynced(t, n)
  {
    hide Inv, Flat, CrashLeaves, NothingLost;
    WriteKeepsInv(s, t, es, true);
    NothingLostIffSynced(t);
    assert EndIsSynced(t, t.logFile) by {
      FlatNone();
      LogIsSynced(s, t, es);
      assert t.logs[t.logFile][|t.logs[t.logFile]|..] == [];
    }
  }

  lemma LogIsSynced(s: State, t: State, es: seq<Entry>)
    requires Inv(s) && WriteStep(s, t, es, true)
    ensures t.logFile in t.logs && t.logFile in t.durable && t.durable[t.logFile] == |t.logs[t.logFile]|
  {
    hide MemOk, TablesOk, NumbersOk, JobOk;
  }

  // ---------- A write before a sync write may be lost ----------

  const FIRST := Entry(InternalKey(1.0, 1, Value), [])
  const SECOND := Entry(InternalKey(2.0, 2, Value), [])

  const FRESH := State([], 0, 0, [], None, NO_FILES, [], 2, {}, None, map[1 := []], 1, 1, map[1 := 0], {})
  const FIRST_WRITTEN := FRESH.(history := [Some(FIRST)], mem := [FIRST], logs := map[1 := [[FIRST]]])
  const SWITCHED := FIRST_WRITTEN.(imm := Some([FIRST]), mem := [], memStart := 1, nextFile := 3, logFile := 2,
                                   logs := map[1 := [[FIRST]], 2 := []], durable := map[1 := 0, 2 := 0])
  const SECOND_SYNCED := SWITCHED.(history := [Some(FIRST), Some(SECOND)], mem := [SECOND],
                                   logs := map[1 := [[FIRST]], 2 := [[SECOND]]], durable := map[1 := 0, 2 := 1])
  const LEFT: map<nat, seq<seq<Entry>>> := map[1 := [], 2 := [[SECOND]]]
  const RECOVERED := State([None, Some(SECOND)], 0, 0, [SECOND], None, NO_FILES, [], 3, {}, None,
                           map[2 := [[SECOND]]], 2, 2, map[2 := 1], {})

  // A write without sync, a memtable switch, a write with sync, and a crash that cuts the old log: the
  // second write is there afterwards, the first is not.
  lemma EarlierWriteIsLost()
    ensures IsRun([FRESH, FIRST_WRITTEN, SWITCHED, SECOND_SYNCED, RECOVERED],
                  [Write([FIRST], false), Switch, Write([SECOND], true), Recover(LEFT, false, [], 3)])
    ensures Read(SECOND_SYNCED.history, 1.0, 2) == Found([]) && Read(RECOVERED.history, 1.0, 2) == NotFound
    ensures Read(RECOVERED.history, 2.0, 2) == Found([])
  {
    hide WriteStep, SwitchStep, RecoverStep;
    FreshIsInit();
    FirstIsWritten();
    FirstIsRead();
    SecondIsWritten();
    MemTableIsSwitched();
    CrashCutsOldLog();
  }

  lemma FirstIsWritten()
    ensures WriteStep(FRESH, FIRST_WRITTEN, [FIRST], false)
  {
    assert Somes([FIRST]) == [Some(FIRST)];
    assert FRESH.logs[1] + [[FIRST]] == [[FIRST]];
    assert FRESH.logs[1 := [[FIRST]]] == FIRST_WRITTEN.logs;
  }

  lemma FirstIsRead()
    ensures Read(SECOND_SYNCED.history, 1.0, 2) == Found([])
  {
    assert NewestWrite(SECOND_SYNCED.history, 1.0, 1) == Some(FIRST);
  }

  lemma FreshIsInit()
    ensures Init(FRESH)
  {
  }

  lemma SecondIsWritten()
    ensures WriteStep(SWITCHED, SECOND_SYNCED, [SECOND], true)
  {
    assert Somes([SECOND]) == [Some(SECOND)];
    assert SWITCHED.logs[2] + [[SECOND]] == [[SECOND]];
    assert SWITCHED.logs[2 := [[SECOND]]] == SECOND_SYNCED.logs;
    assert SWITCHED.durable[2 := 1] == SECOND_SYNCED.durable;
  }

  lemma MemTableIsSwitched()
    ensures SwitchStep(FIRST_WRITTEN, SWITCHED)
  {
    assert FIRST_WRITTEN.logs[2 := []] == SWITCHED.logs;
    assert FIRST_WRITTEN.durable[2 := 0] == SWITCHED.durable;
    assert |FIRST_WRITTEN.history| == 1;
  }

  lemma CrashCutsOldLog()
    ensures RecoverStep(SECOND_SYNCED, RECOVERED, LEFT, false, [], 3)
    ensures Read(RECOVERED.history, 1.0, 2) == NotFound && Read(RECOVERED.history, 2.0, 2) == Found([])
  {
    hide Replayed, Surviving, Flat, Listed, LogRecords, HoldsSlice, Applied, NumberedBelow, NewestWrite;
    SecondIsReplayed();
    SecondIsHeld();
    FlatOfOne(SECOND);
    NothingAdded();
    var h := RECOVERED.history;
    assert h[0..] == h;
    assert LEFT[1] <= SECOND_SYNCED.logs[1] && LEFT[2] <= SECOND_SYNCED.logs[2];
    FirstIsGone();
  }

  lemma NothingAdded()
    ensures Applied(NO_FILES, Level0Additions([]), NO_FILES) && NumberedBelow(NO_FILES, 2) && NumberedBelow(NO_FILES, 3)
  {
  }

  lemma FirstIsGone()
    ensures Read(RECOVERED.history, 1.0, 2) == NotFound && Read(RECOVERED.history, 2.0, 2) == Found([])
  {
    assert NewestWrite(RECOVERED.history, 1.0, 1) == None;
  }

  lemma SecondIsReplayed()
    ensures Replayed(SECOND_SYNCED, LEFT) == [SECOND]
    ensures Surviving(SECOND_SYNCED.history, 0, [SECOND], 2) == RECOVERED.history
  {
    assert LogRecords(LEFT, 1, 1) == [];
    assert LogRecords(LEFT, 1, 2) == [] + [] == [];
    assert LogRecords(LEFT, 1, 3) == [] + [[SECOND]] == [[SECOND]];
    FlatOfOne(SECOND);
  }

  lemma SecondIsHeld()
    ensures HoldsSlice([SECOND], RECOVERED.history, 0, 2) && Listed(RECOVERED.history) == [SECOND]
  {
    var h := RECOVERED.history;
    var lost: Writes := [None];
    assert h[..1] == lost && lost[..0] == [];
    assert Listed(lost) == [];
    assert h[0..2] == h && Some(SECOND) in h;
  }

  lemma FlatOfOne(e: Entry)
    ensures Flat([[e]]) == [e]
  {
    assert [[e]][..0] == [];
    assert Flat([]) + [e] == [e];
  }

  // ---------- A sync write behind a torn record ----------

  // A crash right after a write with sync takes one of its entries.
  ghost predicate LosesSynced(
      s: State, t: State, es: seq<Entry>, left: map<nat, seq<seq<Entry>>>, e: Entry)
  {
    WriteStep(s, t, es, true) && e in es && CrashLeaves(t, left) && e !in Replayed(t, left)
  }

  // In a state that is right but for its log: a write with sync can be lost if and only if the log has
  // been written on behind a torn record.
  lemma SyncIsLostIffTorn(s: State)
    requires Inv(s.(torn := {})) && s.torn <= {s.logFile}
    ensures (exists t, es, left, e :: LosesSynced(s, t, es, left, e)) <==> s.logFile in s.torn
  {
    hide Inv, WriteStep, CrashLeaves, Replayed;
    if s.logFile in s.torn {
      var t, es, left := TornLogLoses(s);
      assert LosesSynced(s, t, es, left, es[0]);
    } else {
      assert s.(torn := {}) == s;
      forall t, es, left, e | LosesSynced(s, t, es, left, e) ensures false {
        SyncedIsReplayed(s, t, es, left, e);
      }
    }
  }

  lemma SyncedIsReplayed(s: State, t: State, es: seq<Entry>, left: map<nat, seq<seq<Entry>>>, e: Entry)
    requires Inv(s) && WriteStep(s, t, es, true) && CrashLeaves(t, left) && e in es
    ensures e in Replayed(t, left)
  {
    hide MemOk, TablesOk, NumbersOk, JobOk, Flat, Listed, LogRecords;
    var n := t.logFile;
    FlatHolds(t.logs[n], e);
    assert t.logs[n][|t.logs[n]| - 1] == es && left[n] == t.logs[n];
    LogHolds(left, t.logNumber, n + 1, n, e);
  }

  lemma TornLogLoses(s: State) returns (t: State, es: seq<Entry>, left: map<nat, seq<seq<Entry>>>)
    requires Inv(s.(torn := {})) && s.torn <= {s.logFile} && s.logFile in s.torn
    ensures WriteStep(s, t, es, true) && CrashLeaves(t, left) && |es| == 1 && es[0] !in Replayed(t, left)
  {
    hide TablesOk, NumbersOk, JobOk, Flat, Listed, LogRecords, Sorted, Inv;
    var e := Entry(InternalKey(0.0, |s.history| + 1, Value), []);
    es := [e];
    OldEntries(s.(torn := {}), e);
    var n, records := s.logFile, s.logs[s.logFile];
    var mem := Batch.Add(s.mem, e);
    t := s.(history := s.history + Somes(es), mem := mem, logs := s.logs[n := records + [es]]);
    assert ToSet(mem) == ToSet(s.mem) + ToSet(es);
    left := t.logs[n := t.logs[n][..t.durable[n]]];
    var t' := t.(torn := {});
    WriteKeepsInv(s.(torn := {}), t', es, false);
    NewEndIsUnsynced(t', n, records, es, e);
    assert Replayed(t, left) == Replayed(t', left);
  }

  // The entry is newer than all in the memtable.
  lemma OldEntries(s: State, e: Entry)
    requires Inv(s) && e.key.sequence == |s.history| + 1
    ensures s.logFile in s.logs && s.logFile in s.durable && s.durable[s.logFile] <= |s.logs[s.logFile]|
    ensures forall n :: n in s.logs ==> n in s.durable && s.durable[n] <= |s.logs[n]|
    ensures s.durable.Keys == s.logs.Keys
    ensures Sorted(s.mem) && Sorted(Batch.Add(s.mem, e))
  {
    hide TablesOk, NumbersOk, JobOk, Flat, Listed;
    forall x | x in s.mem ensures x.key != e.key {
      assert x in ToSet(s.mem);
      InSlice(s.history, s.memStart, |s.history|, x);
    }
    Batch.AddKeepsSorted(s.mem, e);
  }

  lemma NewEndIsUnsynced(t: State, n: nat, records: seq<seq<Entry>>, es: seq<Entry>, e: Entry)
    requires Inv(t) && n == t.logFile && n in t.logs && t.logs[n] == records + [es] && e in es
    requires n in t.durable && t.durable[n] <= |records|
    ensures e !in Replayed(t, t.logs[n := t.logs[n][..t.durable[n]]])
  {
    hide TablesOk, NumbersOk, JobOk, Flat, Listed, HoldsSlice;
    var end := t.logs[n][t.durable[n]..];
    assert end[|end| - 1] == es;
    FlatHolds(end, e);
    CutIsGone(t, n, e);
  }

  const AFTER := Entry(InternalKey(2.0, 1, Value), [])
  const TORN := FRESH.(torn := {1})
  const AFTER_SYNCED := TORN.(history := [Some(AFTER)], mem := [AFTER], logs := map[1 := [[AFTER]]])
  const CUT: map<nat, seq<seq<Entry>>> := map[1 := []]
  const LOST := State([], 0, 0, [], None, NO_FILES, [], 3, {}, None, map[2 := []], 2, 2, map[2 := 0], {})

  // The crash tears the record of the first write, and the database goes on with that log.  A write with
  // sync follows its torn record, and the next crash loses it: what is read of the log ends where it was
  // torn, as at the end of LogReuse.
  lemma SyncWriteIsLost()
    ensures IsRun([FRESH, FIRST_WRITTEN], [Write([FIRST], false)])
    ensures RecoverAnyway(FIRST_WRITTEN, TORN, CUT, true, [], 2) && !ReusesWhole(FIRST_WRITTEN, TORN, true)
    ensures WriteStep(TORN, AFTER_SYNCED, [AFTER], true) && Read(AFTER_SYNCED.history, 2.0, 1) == Found([])
    ensures RecoverAnyway(AFTER_SYNCED, LOST, CUT, false, [], 2) && Read(LOST.history, 2.0, 0) == NotFound
  {
    hide WriteStep, RecoverAnyway;
    FirstIsWritten();
    TornIsReused();
    AfterIsWritten();
    AfterIsLost();
  }

  lemma AfterIsWritten()
    ensures WriteStep(TORN, AFTER_SYNCED, [AFTER], true) && Read(AFTER_SYNCED.history, 2.0, 1) == Found([])
  {
    assert Somes([AFTER]) == [Some(AFTER)];
    assert TORN.logs[1] + [[AFTER]] == [[AFTER]];
    assert TORN.logs[1 := [[AFTER]]] == AFTER_SYNCED.logs;
    assert NewestWrite(AFTER_SYNCED.history, 2.0, 1) == Some(AFTER);
  }

  lemma NothingReplayed(s: State)
    requires s.logNumber == 1 && s.logFile == 1 && s.flushed == 0
    ensures Replayed(s, CUT) == [] && Surviving(s.history, 0, [], 0) == []
    ensures RecoveredTables([], [], 0, 0) && HoldsSlice([], [], 0, 0)
    ensures Flat([]) == [] && Listed([]) == []
  {
    assert LogRecords(CUT, 1, 1) == [];
    assert LogRecords(CUT, 1, 2) == [] + [] == [];
    FlatNone();
    var h: Writes := [];
    assert h[0..0] == [];
  }

  lemma TornIsReused()
    ensures RecoverAnyway(FIRST_WRITTEN, TORN, CUT, true, [], 2) && !ReusesWhole(FIRST_WRITTEN, TORN, true)
  {
    hide Replayed, Surviving, Flat, Listed, LogRecords, HoldsSlice, Applied, NumberedBelow, RecoveredTables;
    NothingReplayed(FIRST_WRITTEN);
    NothingAdded();
    assert TORN.history[0..] == [] && CUT[1] <= FIRST_WRITTEN.logs[1];
  }

  lemma AfterIsLost()
    ensures RecoverAnyway(AFTER_SYNCED, LOST, CUT, false, [], 2) && Read(LOST.history, 2.0, 0) == NotFound
  {
    hide Replayed, Surviving, Flat, Listed, LogRecords, HoldsSlice, Applied, NumberedBelow, RecoveredTables;
    NothingReplayed(AFTER_SYNCED);
    NothingAdded();
    assert LOST.history[0..] == [];
    assert NewestWrite(LOST.history, 2.0, 0) == None;
  }
}
