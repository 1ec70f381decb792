/** DBImpl (db/db_impl.cc): the database object.  Every method is one stretch of code that runs
    under the mutex, or, for a leader's logging and inserting, one step of the stretch that runs without
    it; threads may call them in any order their preconditions allow.  Each is shown to make a step of
    the engine, or none. */
module DbImpl {
  import opened Dbformat
  import opened History
  import opened Version
  import opened CompactionInputs
  import opened CompactionWork
  import opened CompactionRun
  import opened DropRule
  import opened FlushLevel
  import opened Lsm
  import opened Jobs
  import opened Manifest
  import opened Engine
  import opened Batch
  import DbIter
  import DbRecover
  import Durability
  import EngineSafety
  import Iteration
  import Merger
  import Updates
  import VersionBuilder

  // A leader at work: the entries of its group, how many writers it writes for, and how far it is.
  datatype Group = Group(entries: seq<Entry>, writers: nat, sync: bool, logged: bool, inserted: nat)

  class DBImpl {
    const versions: VersionSet
    var mem: seq<Entry>
    var imm: Option<seq<Entry>>
    var snapshots: seq<nat>
    var pendingOutputs: set<nat>
    var compaction: Option<CompactionState>
    var logFileNumber: nat
    var log: seq<seq<Entry>>                  // the records of the log being written
    var olderLogs: map<nat, seq<seq<Entry>>>  // the log files before it
    var writers: seq<Writer>
    var group: Option<Group>

    // The state of the engine: a group of writes is in it once the group's writers are done.
    ghost var state: State
    ghost var atOpen: Writes           // the history when the database was opened
    ghost var arrivals: seq<Writer>    // the writers so far, in order of arrival
    ghost var completed: nat           // how many of them are done

    ghost predicate Valid()
      reads this, versions
    {
      Inv(state) && Sound()
    }

    // Everything but the invariant of the engine.
    ghost predicate Sound()
      reads this, versions
    {
      && versions.Valid()
      && FlushedIsRecorded(versions.descriptorLog, state.flushed)
      && versions.lastSequence == |state.history| <= MAX_SEQUENCE_NUMBER
      && PlacedOk(versions.Held(), versions.current, versions.nextFileNumber, pendingOutputs)
      && QueueOk(writers, arrivals, completed, state.history, atOpen)
      && Linked()
    }

    // The fields show the state, except for what the leader at work has done.
    ghost predicate Linked()
      reads this, versions
    {
      && versions.current == state.version && versions.nextFileNumber == state.nextFile
      && versions.logNumber == state.logNumber
      && imm == state.imm && snapshots == state.snapshots && pendingOutputs == state.pendingOutputs
      && logFileNumber == state.logFile
      && CompactionLinked(compaction, state.job)
      && logFileNumber in state.logs && state.logs == olderLogs[logFileNumber := state.logs[logFileNumber]]
      && GroupAtWork(group, writers, |state.history|, mem, state.mem, log, state.logs[logFileNumber])
    }

    // A new database: the manifest that NewDB writes, recovered, and a first log.
    constructor ()
      ensures Valid() && Init(state) && fresh(versions)
    {
      hide Inv, VersionSet.Valid, Applied, Stepwise, NeverReadds, Latest, Describes, PlacesNew, Placed, Located,
           WellKept, QueueOk, LogNumbers, NextFiles, LastSequences;
      var vs := new VersionSet();
      versions := vs;
      mem, imm, snapshots, pendingOutputs, compaction := [], None, [], {}, None;
      logFileNumber, log, olderLogs := 0, [], map[];
      writers, group := [], None;
      atOpen, arrivals, completed := [], [], 0;
      new;
      NothingWaits([], [], []);
      var manifest := [Record(VersionEdit({}, []), Some(0), Some(2), Some(0))];
      NewManifest(manifest);
      var status := versions.Recover(manifest);
      logFileNumber := versions.NewFileNumber();
      NothingPlaced();
      versions.LogAndApply(VersionEdit({}, []), Some(logFileNumber));
      EmptyInOrder();
      EmptyEditKeeps(NO_FILES, versions.current);
      state := State([], 0, 0, [], None, versions.current, [], versions.nextFileNumber, {}, None,
                     map[logFileNumber := []], logFileNumber, versions.logNumber, map[logFileNumber := 0], {});
      EngineSafety.InitInv(state);
    }

    // DB::Open on what a crash in state s left: the manifest is recovered, then the logs are replayed.  The
    // database is right again unless it goes on with a log whose last record the crash has torn.
    constructor Reopen(
        manifest: seq<Record>, left: map<nat, seq<seq<Entry>>>, newest: nat, reuseLogs: bool, full: seq<Entry> -> bool,
        fileSize: nat, ghost torn: bool, ghost s: State)
      requires Inv(s) && |s.history| <= MAX_SEQUENCE_NUMBER && newest == s.logFile && CrashLeaves(s, left)
      requires Describes(manifest, s.version, s.logNumber, s.nextFile, |s.history|)
      requires FlushedIsRecorded(Some(manifest), s.flushed)
      ensures Sound() && fresh(versions) && atOpen == state.history && completed == 0
      ensures exists tables, first :: RecoverAnyway(s, state, left, torn, tables, first)
      ensures Valid() <==> !(torn && logFileNumber == newest)
      ensures logFileNumber == newest ==> reuseLogs
    {
      hide Inv, VersionSet.Valid, VersionSet.Held, Describes, CrashLeaves, RecoverAnyway, Latest, LastSequences,
           NextFiles, LogNumbers, NumbersFree, Placed, Located, Replayed, NeverReadds, Stepwise, WellKept,
           Level0Additions, PlacedOk, QueueOk, GroupAtWork, CompactionLinked, FlushedIsRecorded;
      var vs := new VersionSet();
      versions := vs;
      mem, imm, snapshots, pendingOutputs, compaction := [], None, [], {}, None;
      logFileNumber, log, olderLogs := 0, [], map[];
      writers, group := [], None;
      atOpen, arrivals, completed := [], [], 0;
      new;
      DescribedIsNew(manifest, s.version, s.logNumber, s.nextFile, |s.history|, s.flushed);
      var status := versions.Recover(manifest);
      var tables;
      ghost var first := versions.nextFileNumber;
      OnlyCurrentHeld(versions);
      ghost var t;
      mem, logFileNumber, log, tables, t := DbRecover.Open(versions, left, newest, reuseLogs, full, fileSize, torn, s);
      state := t;
      atOpen := t.history;
      Reopened(s, t, left, torn, tables, first);
      Recorded(versions.descriptorLog, versions.lastSequence, t.flushed);
      NothingWaits(t.history, mem, log);
    }

    // The state as a crash finds it: a group that is in the log, but not yet visible, may come back.
    ghost predicate CrashesAs(s: State)
      reads this
    {
      if group.Some? && group.value.logged then WriteStep(state, s, group.value.entries, false) else s == state
    }

    // There is always such a state.
    lemma CrashPoint() returns (s: State)
      requires Valid()
      ensures CrashesAs(s)
    {
      hide Inv, VersionSet.Valid, VersionSet.Held, PlacedOk, QueueOk, Ops, Sorted, FlushedIsRecorded;
      s := state;
      if group.Some? && group.value.logged {
        var es := group.value.entries;
        DistinctWithGroup(state, es);
        var m := SortedListOf(ToSet(state.mem) + ToSet(es));
        s := AfterWrite(state, es, false, m);
      }
    }

    // What the manifest says at any moment is enough to reopen the database.
    lemma ManifestSuffices(s: State)
      requires Valid() && CrashesAs(s)
      ensures Inv(s) && versions.descriptorLog.Some? && logFileNumber == s.logFile
      ensures Describes(versions.descriptorLog.value, s.version, s.logNumber, s.nextFile, |s.history|)
      ensures FlushedIsRecorded(versions.descriptorLog, s.flushed)
    {
      hide Inv, WellKept, Latest, NumbersFree, PlacedOk, QueueOk, GroupAtWork, CompactionLinked, LeadsTo;
      if group.Some? && group.value.logged {
        EngineSafety.WriteKeepsInv(state, s, group.value.entries, false);
      }
    }

    // ---------- Reads ----------

    // What the last operation about k says, of all that completed writers have written since the database
    // was opened; if there is none, what it said then.
    ghost function LastWritten(k: UserKey): History.Lookup
      requires completed <= |arrivals|
      reads this
    {
      Updates.Effect(Updates.LastAbout(Ops(arrivals[..completed]), k), Read(atOpen, k, |atOpen|))
    }

    lemma ReadsWhatIsWritten(k: UserKey)
      requires Valid()
      ensures completed <= |arrivals| && Read(state.history, k, |state.history|) == LastWritten(k)
    {
      hide VersionSet.Valid, VersionSet.Held, PlacedOk, GroupAtWork, Read, Updates.LastAbout, Inv, QueueOk;
      CompletedAreWritten(writers, arrivals, completed, state.history, atOpen);
      HistoryIs(state);
      var ops := Ops(arrivals[..completed]);
      StartOfHistory(state.history, atOpen, Somes(NumberedFrom(ops, |atOpen|)));
      Updates.ReadAfterOps(atOpen, ops, k);
    }

    // A database that was opened empty is the map that its completed writers' operations make.
    lemma IsMapOfWrites(k: UserKey)
      requires Valid() && atOpen == []
      ensures completed <= |arrivals|
      ensures var m := Updates.Updated(map[], Ops(arrivals[..completed]));
              Read(state.history, k, |state.history|) == if k in m then Found(m[k]) else NotFound
    {
      hide VersionSet.Valid, VersionSet.Held, PlacedOk, GroupAtWork, Updates.LastAbout, Inv, QueueOk;
      ReadsWhatIsWritten(k);
      Updates.UpdatedIsEffect(map[], Ops(arrivals[..completed]), k);
    }

    // Get at a snapshot, or at the last sequence number: what it captures under the mutex, searched at once.
    method Get(k: UserKey, snapshot: Option<nat>) returns (r: History.Lookup)
      requires Valid() && (snapshot.Some? ==> snapshot.value in snapshots)
      ensures var n := if snapshot.Some? then snapshot.value else |state.history|;
              n <= |state.history| && r == Read(state.history, k, n)
      ensures snapshot.None? ==> r == LastWritten(k)
    {
      hide Inv, QueueOk, Read, Answers, VersionSet.Valid, VersionSet.Held, PlacedOk, Grows;
      var n := if snapshot.Some? then snapshot.value else versions.lastSequence;
      SnapshotInRange(state, snapshot);
      GroupIsNewer();
      ReadsWhatIsWritten(k);
      r := SearchCaptured(mem, imm, versions.current, k, n, state);
    }

    // The merge of the memtables and the current version's tables.  What the leader at work has
    // already inserted is in it too.
    method NewInternalIterator() returns (it: Merger.MergingIterator, latestSnapshot: nat)
      requires Valid()
      ensures fresh(it) && it.Valid() && latestSnapshot == |state.history|
      ensures IsCurrent(state, it.merged)
    {
      hide VersionSet.Valid, VersionSet.Held, PlacedOk, QueueOk, Inv, GroupAtWork, Merger.IsMerge, IsCurrent, WriteStep;
      latestSnapshot := versions.lastSequence;
      var list := [mem];
      if imm.Some? {
        list := list + [imm.value];
      }
      EngineSafety.ShapeOf(state);
      assert list == Iteration.MemLists(mem, imm);
      list := Iteration.AddIterators(versions.current, list);
      ghost var written := SoFar(group);
      GroupIsWrite(state, group, writers, mem, log, state.logs[logFileNumber]);
      ghost var t := AfterWrite(state, written, false, mem);
      EngineSafety.WriteKeepsInv(state, t, written, false);
      ghost var merged := Iteration.StoredHasMerge(t);
      it := new Merger.MergingIterator(list, merged);
      ShownIsCurrent(state, t, written, merged);
    }

    // At a snapshot, or at the last sequence number: the rows the iterator will ever show, wherever
    // it is moved, are the keys and values the history reads there.
    method NewIterator(snapshot: Option<nat>) returns (it: DbIter.DBIter)
      requires Valid() && (snapshot.Some? ==> snapshot.value in snapshots)
      ensures fresh(it) && fresh(it.iter) && it.Valid()
      ensures it.sequence == (if snapshot.Some? then snapshot.value else |state.history|) <= |state.history|
      ensures forall k, v :: DbIter.Shows(it.iter.merged, it.sequence, k, v) <==>
                Read(state.history, k, it.sequence) == Found(v)
    {
      hide VersionSet.Valid, VersionSet.Held, PlacedOk, QueueOk, Inv, GroupAtWork, Read, DbIter.Shows,
           Merger.MergingIterator.Valid;
      SnapshotInRange(state, snapshot);
      var internal, latestSnapshot := NewInternalIterator();
      it := new DbIter.DBIter(internal, if snapshot.Some? then snapshot.value else latestSnapshot);
    }

    // A snapshot sees the batches of the writers completed so far, each of them wholly, and nothing else.
    method GetSnapshot() returns (snapshot: nat)
      requires Valid()
      modifies this
      ensures completed == old(completed) <= |arrivals|
      ensures state.history == atOpen + Somes(NumberedFrom(Ops(arrivals[..completed]), |atOpen|))
      ensures Valid() && SnapshotStep(old(state), state) && snapshot == |state.history|
      ensures forall k :: Read(state.history, k, snapshot) == LastWritten(k)
      ensures snapshots == old(snapshots) + [snapshot]
    {
      hide Inv, QueueOk, VersionSet.Valid, VersionSet.Held, PlacedOk, GroupAtWork, Read, Updates.LastAbout;
      snapshot := versions.lastSequence;
      CompletedAreWritten(writers, arrivals, completed, state.history, atOpen);
      forall k ensures Read(state.history, k, |state.history|) == LastWritten(k) {
        ReadsWhatIsWritten(k);
      }
      snapshots := snapshots + [snapshot];
      state := state.(snapshots := snapshots);
      EngineSafety.SnapshotKeepsInv(old(state), state);
    }

    method ReleaseSnapshot(i: nat)
      requires Valid() && i < |snapshots|
      modifies this
      ensures Valid() && ReleaseStep(old(state), state, i) && snapshots == old(snapshots[..i] + snapshots[i + 1..])
    {
      hide Inv, QueueOk, VersionSet.Valid, VersionSet.Held, PlacedOk, GroupAtWork;
      snapshots := snapshots[..i] + snapshots[i + 1..];
      state := state.(snapshots := snapshots);
      EngineSafety.ReleaseKeepsInv(old(state), state, i);
    }

    // ---------- Writes ----------

    // A writer queues up.
    method Join(w: Writer)
      requires Valid()
      modifies `writers, `arrivals
      ensures Valid()
      ensures writers == old(writers) + [w] && arrivals == old(arrivals) + [w]
    {
      hide Inv, VersionSet.Valid, VersionSet.Held, PlacedOk, Ops;
      writers := writers + [w];
      arrivals := arrivals + [w];
      assert arrivals[..completed] == old(arrivals[..completed]);
      assert group.Some? ==> writers[..group.value.writers] == old(writers[..group.value.writers]);
    }

    // A writer without a batch, once in front, has had its memtable compacted and leaves.
    method DismissFront()
      requires Valid() && writers != [] && writers[0].batch.None? && group.None?
      modifies `writers, `completed
      ensures Valid() && writers == old(writers)[1..] && completed == old(completed) + 1
    {
      hide Inv, VersionSet.Valid, VersionSet.Held, PlacedOk, Ops;
      NothingWritten(writers, arrivals, completed, state.history, atOpen);
      writers := writers[1..];
      completed := completed + 1;
    }

    // MakeRoomForWrite, where the writer in front starts a new log and memtable.
    method SwitchMemTable()
      requires Valid() && writers != [] && group.None? && imm.None?
      modifies this, versions
      ensures Valid() && SwitchStep(old(state), state)
      ensures writers == old(writers) && arrivals == old(arrivals) && completed == old(completed)
      ensures imm == Some(old(mem))
    {
      hide Inv, VersionSet.Valid, VersionSet.Held, PlacedOk, QueueOk;
      PlacedLater(versions.Held(), versions.current, versions.nextFileNumber, pendingOutputs);
      olderLogs := olderLogs[logFileNumber := log];
      logFileNumber := versions.NewFileNumber();
      log := [];
      imm := Some(mem);
      mem := [];
      state := state.(imm := imm, mem := [], memStart := |state.history|, nextFile := versions.nextFileNumber,
                      logFile := logFileNumber, logs := olderLogs[logFileNumber := []],
                        durable := state.durable[logFileNumber := 0]);
      EngineSafety.SwitchKeepsInv(old(state), state);
    }

    // The writer in front, if it has a batch, becomes the leader of a group.
    method BeginGroup(byteSize: WriteBatch -> nat)
      requires Valid() && writers != [] && writers[0].batch.Some? && group.None?
      modifies `group
      ensures Valid()
      ensures group.Some? && !group.value.logged && group.value.inserted == 0
      ensures var n := group.value.writers;
              && 1 <= n <= |writers| && GroupOk(writers, n) && IsLongestGroup(writers, n, byteSize)
              && group.value.entries == NumberedFrom(Ops(writers[..n]), |state.history|)
              && group.value.sync == writers[0].sync
    {
      hide Inv, VersionSet.Valid, VersionSet.Held, PlacedOk, QueueOk, Ops, IsLongestGroup;
      var updates, lastWriter := BuildBatchGroup(writers, byteSize);
      group := Some(Group(NumberedFrom(updates, versions.lastSequence), lastWriter + 1, writers[0].sync, false, 0));
      LayersOf(state);
    }

    // The leader adds its group to the log as one record, and syncs the log if it is a sync write.
    method LogGroup()
      requires Valid() && group.Some? && !group.value.logged
      modifies `log, `group
      ensures Valid()
      ensures group == Some(old(group.value).(logged := true))
      ensures log == old(log) + [group.value.entries]
    {
      hide Inv, VersionSet.Valid, VersionSet.Held, PlacedOk, QueueOk, NumberedFrom, Ops;
      log := log + [group.value.entries];
      group := Some(group.value.(logged := true));
    }

    // The leader inserts the next entry of its group into the memtable.
    method InsertNext()
      requires Valid() && group.Some? && group.value.logged && group.value.inserted < |group.value.entries|
      modifies `mem, `group
      ensures Valid()
      ensures group == Some(old(group.value).(inserted := old(group.value.inserted) + 1))
      ensures ToSet(mem) == old(ToSet(mem)) + {old(group.value).entries[old(group.value).inserted]}
      ensures Grows(old(mem), mem, |state.history|)
    {
      hide Inv, VersionSet.Valid, VersionSet.Held, PlacedOk, QueueOk, Ops, NumberedFrom, Sorted, Batch.GroupOk, Add,
           Grows, FlushedIsRecorded;
      var g := group.value;
      var e := g.entries[g.inserted];
      NextIsNew();
      AddKeepsSorted(mem, e);
      GrowsByOne(mem, e, Add(mem, e), |state.history|);
      mem := Add(mem, e);
      assert g.entries[..g.inserted + 1] == g.entries[..g.inserted] + [e];
      group := Some(g.(inserted := g.inserted + 1));
    }

    // The leader makes its group visible and dismisses its writers.
    method FinishGroup() returns (done: seq<Writer>)
      requires Valid() && group.Some? && group.value.logged && group.value.inserted == |group.value.entries|
      requires |state.history| + |group.value.entries| <= MAX_SEQUENCE_NUMBER
      modifies this, versions
      ensures Valid() && group.None?
      ensures WriteStep(old(state), state, old(group.value.entries), old(group.value.sync))
      ensures |done| == old(group.value.writers) && done + writers == old(writers)
      ensures completed == old(completed) + |done|
      ensures Served(old(state), state, done) && mem == old(mem)
      ensures forall k :: Read(state.history, k, |state.history|) ==
                          Updates.Effect(Updates.LastAbout(Ops(done), k), old(Read(state.history, k, |state.history|)))
    {
      hide Inv, VersionSet.Valid, VersionSet.Held, PlacedOk, QueueOk, WriteStep, AfterWrite, Served, GroupAtWork,
           CompactionLinked, Read, Updates.LastAbout;
      var g := group.value;
      ghost var t := AfterWrite(state, g.entries, g.sync, mem);
      HistoryIs(state);
      EngineSafety.NotTorn(state);
      GroupCompletes(state, group, writers, arrivals, completed, atOpen, mem, log, t);
      EngineSafety.WriteKeepsInv(state, t, g.entries, g.sync);
      ServedHasEffect(state, t, writers[..g.writers]);
      versions.SetLastSequence(versions.lastSequence + |g.entries|);
      done := writers[..g.writers];
      assert done + writers[g.writers..] == writers;
      writers := writers[g.writers..];
      group := None;
      completed := completed + g.writers;
      state := t;
    }

    // ---------- Background work ----------

    // CompactMemTable.  The source puts the table wherever the current version has room; the database
    // stays in order if that is outside the key span of the compaction under way.
    method CompactMemTable(fileSize: nat, maxGrandParentOverlapBytes: nat) returns (table: FileMetaData, level: nat)
      requires Valid() && imm.Some?
      modifies this, versions
      ensures Sound() && imm == None && mem == old(mem) && FlushAnywhere(old(state), state, table, level)
      ensures |old(versions.current)| == NUM_LEVELS
      ensures old(imm.value) != [] ==>
                IsOutputLevel(old(versions.current), table.smallest.user, table.largest.user, level,
                              maxGrandParentOverlapBytes)
      ensures FlushApart(old(state), table, level) ==> Valid()
      ensures (compaction.Some? ==> NoGaps(compaction.value.inputs0 + compaction.value.inputs1)) ==> Valid()
    {
      hide Inv, VersionSet.Valid, VersionSet.Held, PlacedOk, QueueOk, GroupAtWork, CompactionLinked, FlushAnywhere,
           PlacesNew, Placed, Applied, AfterFlush, Apart, FlushEdit, FlushApart, FlushedIsRecorded, NumbersFree, Latest,
           LastSequences, NoGaps, IsOutputLevel;
      FlushFits(state);
      LogsKept(state.logs, olderLogs, logFileNumber);
      ghost var held, v := versions.Held(), versions.current;
      var number := versions.NewFileNumber();
      var edit;
      edit, table, level := WriteLevel0Table(imm.value, number, fileSize, versions.current, maxGrandParentOverlapBytes);
      NewNumberPlaced(held, v, pendingOutputs, number, level, table, edit, imm.value);
      versions.LogAndApply(edit, Some(logFileNumber));
      FlushIsStep(state, versions.current, table, level, edit);
      PlacedAfterFlush(held, v, pendingOutputs, number, level, table, edit, imm.value, versions.current);
      Recorded(versions.descriptorLog, versions.lastSequence, state.memStart);
      imm := None;
      olderLogs := From(olderLogs, logFileNumber);  // DeleteObsoleteFiles
      state := AfterFlush(state, versions.current);
      GaplessIsApart(old(state), state, table, level, compaction);
      if FlushApart(old(state), table, level) {
        FlushIsApart(old(state), state, table, level);
        EngineSafety.FlushKeepsInv(old(state), state, table, level);
      }
    }

    // The inputs of the next automatic compaction, as PickCompaction and SetupOtherInputs choose them:
    // of a level with too much data, else around a file charged with too many seeks, else none.
    method PickInputs(tooLarge: Option<nat>, compactPointer: Option<InternalKey>,
                      fileToCompact: Option<(nat, FileMetaData)>, expandedLimit: nat)
      returns (level: nat, inputs0: Level, inputs1: Level, ghost chosen: Level, ghost how: Setup)
      requires Valid()
      requires tooLarge.Some? ==> tooLarge.value + 1 < |versions.current| && versions.current[tooLarge.value] != []
      requires fileToCompact.Some? ==> CanBeCompacted(versions.current, fileToCompact.value)
      ensures inputs0 == [] <==> tooLarge.None? && fileToCompact.None?
      ensures inputs0 != [] ==>
                ClosedInputs(versions.current, level, inputs0, inputs1) && InputOrder(level, inputs0)
      ensures NoGaps(inputs0 + inputs1)
      ensures tooLarge.Some? ==>
                && level == tooLarge.value
                && exists i :: 0 <= i < |versions.current[level]| &&
                               IsNext(versions.current[level], compactPointer, i) &&
                               versions.current[level][i] in inputs0 &&
                               IsPicked(versions.current, level, versions.current[level][i], chosen)
      ensures tooLarge.None? && fileToCompact.Some? ==>
                && level == fileToCompact.value.0 && fileToCompact.value.1 in inputs0
                && IsPicked(versions.current, level, fileToCompact.value.1, chosen)
      ensures inputs0 != [] ==> IsSetup(versions.current, level, chosen, expandedLimit, inputs0, inputs1, how)
    {
      hide Inv, VersionSet.Valid, VersionSet.Held, PlacedOk, QueueOk, GroupAtWork, CompactionLinked, ValidVersion,
           ClosedInputs, InputOrder, Pickable, IsSetup, TakenBetween, IsNext, NoGaps;
      TablesAreDistinct(state);
      var picked;
      level, picked := PickCompaction(versions.current, tooLarge, compactPointer, fileToCompact);
      chosen, how := picked, Setup([], [], [], [], []);
      inputs0, inputs1 := [], [];
      if picked != [] {
        var high;
        inputs0, inputs1, high, how := SetupOtherInputs(versions.current, level, picked, expandedLimit);
      } else {
        assert inputs0 + inputs1 == picked;
      }
    }

    // BackgroundCompaction, where IsTrivialMove: the one input file goes down a level as it is.
    method TrivialMove(level: nat, f: FileMetaData)
      requires Valid() && compaction.None? && ClosedInputs(versions.current, level, [f], [])
      modifies this, versions
      ensures Valid() && TrivialMoveStep(old(state), state, level, f)
    {
      hide Inv, VersionSet.Valid, VersionSet.Held, PlacedOk, QueueOk, GroupAtWork, ClosedInputs, PlacesNew, Placed,
           Applied, CompactionEdit, TrivialMoveStep, FlushedIsRecorded, NumbersFree, Latest, LastSequences;
      EngineSafety.ShapeOf(state);
      ghost var held, v := versions.Held(), versions.current;
      var edit := CompactionEdit(level, [f], [], [f]);
      MoveFits(state, held, level, f);
      versions.LogAndApply(edit, None);
      Recorded(versions.descriptorLog, versions.lastSequence, state.flushed);
      MoveIsStep(state, versions.current, level, f);
      PlacedAfterMove(state, held, level, f, versions.current);
      state := state.(version := versions.current);
      EngineSafety.MoveKeepsInv(old(state), state, level, f);
    }

    // A compaction starts.  The source takes whatever inputs it has set up; what it will do is right if
    // the next level's inputs end between user keys.
    method StartCompaction(level: nat, inputs0: Level, inputs1: Level)
      requires Valid() && compaction.None? && ClosedInputs(versions.current, level, inputs0, inputs1)
      requires InputOrder(level, inputs0)
      modifies this
      ensures Sound() && compaction.Some? && state.job.Some?
      ensures StartAnyway(old(state), state, state.job.value)
      ensures NextLevelClosed(versions.current, level, inputs1) ==> Valid()
      ensures compaction.value.level == level && compaction.value.inputs0 == inputs0
      ensures compaction.value.inputs1 == inputs1
    {
      hide Inv, VersionSet.Valid, VersionSet.Held, PlacedOk, QueueOk, GroupAtWork, ClosedInputs, InputOrder,
           NextLevelClosed;
      var smallestSnapshot := if snapshots == [] then versions.lastSequence else snapshots[0];
      compaction := Some(CompactionRun.CompactionState(level, inputs0, inputs1, smallestSnapshot, versions.current));
      state := state.(job := Some(compaction.value.AsJob(state.flushed)));
      NextLevelIsThere(versions.current, level, inputs0, inputs1);
      if NextLevelClosed(versions.current, level, inputs1) {
        EngineSafety.StartKeepsInv(old(state), state, state.job.value);
      }
    }

    method OpenCompactionOutputFile() returns (number: nat)
      requires Valid() && compaction.Some?
      modifies this, versions
      ensures Valid() && AllocateOutputStep(old(state), state)
      ensures number == old(versions.nextFileNumber) && pendingOutputs == old(pendingOutputs) + {number}
      ensures compaction == old(compaction)
    {
      hide Inv, VersionSet.Valid, VersionSet.Held, PlacedOk, QueueOk, GroupAtWork, CompactionLinked;
      PlacedLater(versions.Held(), versions.current, versions.nextFileNumber, pendingOutputs);
      number := versions.NewFileNumber();
      pendingOutputs := pendingOutputs + {number};
      state := state.(nextFile := versions.nextFileNumber, pendingOutputs := pendingOutputs);
      EngineSafety.AllocateKeepsInv(old(state), state);
    }

    // InstallCompactionResults and CleanupCompaction: `outputs` is what RunCompaction made of the inputs.
    method InstallCompactionResults(outputs: seq<seq<Entry>>, numbers: seq<nat>, fileSizes: seq<nat>)
      requires Valid() && compaction.Some? && state.job.Some? && OutputsOf(state.job.value, outputs)
      requires |numbers| == |fileSizes| == |outputs| && forall i :: 0 <= i < |outputs| ==> outputs[i] != []
      requires forall i, j :: 0 <= i < j < |numbers| ==> numbers[i] != numbers[j]
      requires (set n | n in numbers) == pendingOutputs
      modifies this, versions
      ensures Valid() && compaction.None?
      ensures InstallStep(old(state), state, OutputFiles(outputs, numbers, fileSizes))
    {
      hide Inv, VersionSet.Valid, VersionSet.Held, PlacedOk, QueueOk, GroupAtWork, PlacesNew, Placed, Applied,
           CompactionEdit, InstallStep, OutputsOf, InputOrder, FlushedIsRecorded, NumbersFree, Latest, LastSequences;
      EngineSafety.ShapeOf(state);
      ghost var held, job := versions.Held(), state.job.value;
      var files := OutputFiles(outputs, numbers, fileSizes);
      assert OwnNumbers(files, pendingOutputs) by {
        assert forall i :: 0 <= i < |numbers| ==> numbers[i] in (set n | n in numbers);
      }
      OutputsFit(state, held, job, files);
      var c := compaction.value;
      versions.LogAndApply(CompactionEdit(c.level, c.inputs0, c.inputs1, files), None);
      Recorded(versions.descriptorLog, versions.lastSequence, state.flushed);
      PlacedAfterInstall(state, held, job, files, versions.current);
      InstallIsStep(state, job, versions.current, outputs, numbers, fileSizes);
      compaction := None;
      pendingOutputs := pendingOutputs - set n | n in numbers;
      assert pendingOutputs == {};
      state := state.(version := versions.current, job := None, pendingOutputs := {});
      EngineSafety.InstallKeepsInv(old(state), state, files);
    }

    lemma NextIsNew()
      requires Valid() && group.Some? && group.value.inserted < |group.value.entries|
      ensures Sorted(mem) && forall x :: x in mem ==> x.key != group.value.entries[group.value.inserted].key
      ensures group.value.entries[group.value.inserted].key.sequence > |state.history|
    {
      hide Inv, VersionSet.Valid, VersionSet.Held, PlacedOk, QueueOk, Ops;
      LayersOf(state);
      var g := group.value;
      forall x | x in mem ensures x.key.sequence <= |state.history| + g.inserted {
        assert x in ToSet(mem);
        if x !in state.mem {
          var i :| 0 <= i < g.inserted && g.entries[i] == x;
        }
      }
    }

    // What the leader at work has inserted is newer than any read that can be going on.
    lemma GroupIsNewer()
      requires Valid()
      ensures Grows(state.mem, mem, |state.history|)
    {
      hide Inv, VersionSet.Valid, VersionSet.Held, PlacedOk, QueueOk;
      LayersOf(state);
      forall e | e in mem && e !in state.mem ensures e.key.sequence > |state.history| {
        assert e in ToSet(mem);
        if group.Some? {
          var i :| 0 <= i < group.value.inserted && group.value.entries[i] == e;
        }
      }
    }
  }

  // The database object dies at any moment, the log files lose ends that were not synced, and the
  // database is opened again: it makes a recovery step of the engine, every write that was durable is
  // there, and the database is right, unless it goes on with a torn log.
  method CrashAndReopen(
      db: DBImpl, left: map<nat, seq<seq<Entry>>>, reuseLogs: bool, full: seq<Entry> -> bool, fileSize: nat,
      ghost torn: bool, ghost s: State)
    returns (reopened: DBImpl)
    requires db.Valid() && db.CrashesAs(s) && CrashLeaves(s, left) && |s.history| <= MAX_SEQUENCE_NUMBER
    ensures fresh(reopened) && fresh(reopened.versions) && reopened.Sound()
    ensures exists tables, first :: RecoverAnyway(s, reopened.state, left, torn, tables, first)
    ensures reopened.Valid() <==> !(torn && reopened.logFileNumber == s.logFile)
    ensures !torn || !reuseLogs ==> reopened.Valid()
    ensures forall e :: Durability.IsDurable(db.state, e) ==>
              && Durability.IsDurable(reopened.state, e)
              && 1 <= e.key.sequence <= |reopened.state.history|
              && reopened.state.history[e.key.sequence - 1] == Some(e)
  {
    hide Inv, CrashLeaves, RecoverAnyway, RecoverStep, Durability.IsDurable, Describes, FlushedIsRecorded, WriteStep;
    db.ManifestSuffices(s);
    reopened :=
      new DBImpl.Reopen(db.versions.descriptorLog.value, left, db.logFileNumber, reuseLogs, full, fileSize, torn, s);
    ghost var tables, first :| RecoverAnyway(s, reopened.state, left, torn, tables, first);
    ghost var es := if db.group.Some? then db.group.value.entries else [];
    assert s == db.state || WriteStep(db.state, s, es, false);
    forall e | Durability.IsDurable(db.state, e)
      ensures Durability.IsDurable(reopened.state, e) && 1 <= e.key.sequence <= |reopened.state.history|
      ensures reopened.state.history[e.key.sequence - 1] == Some(e)
    {
      DurableSurvives(db.state, es, s, reopened.state, left, torn, tables, first, e);
    }
  }

  lemma DurableSurvives(
      before: State, es: seq<Entry>, s: State, t: State, left: map<nat, seq<seq<Entry>>>, torn: bool, tables: Level,
      first: nat, e: Entry)
    requires Inv(before) && (s == before || WriteStep(before, s, es, false))
    requires Inv(s) && RecoverAnyway(s, t, left, torn, tables, first) && Durability.IsDurable(before, e)
    ensures Durability.IsDurable(t, e) && 1 <= e.key.sequence <= |t.history|
    ensures t.history[e.key.sequence - 1] == Some(e)
  {
    hide Inv, RecoverAnyway, RecoverStep, Durability.IsDurable, WriteStep;
    var whole := t.(torn := {});
    EngineSafety.AsIfWhole(s, t, left, torn, tables, first);
    EngineSafety.RecoverKeepsInv(s, whole, left, false, tables, first);
    if s != before {
      Durability.StepKeepsDurable(before, s, Write(es, false), e);
    }
    Durability.StepKeepsDurable(s, whole, Recover(left, false, tables, first), e);
    Durability.DurableIsWritten(whole, e);
    SameButTorn(t, e);
  }

  lemma DistinctWithGroup(s: State, es: seq<Entry>)
    requires Inv(s) && forall i :: 0 <= i < |es| ==> es[i].key.sequence == |s.history| + 1 + i
    ensures forall a, b :: a in ToSet(s.mem) + ToSet(es) && b in ToSet(s.mem) + ToSet(es) && a.key == b.key ==> a == b
  {
    hide TablesOk, NumbersOk, JobOk, LogsOk;
    LayersOf(s);
    forall a, b | a in ToSet(s.mem) && b in ToSet(s.mem) && a.key == b.key ensures a == b {
      EngineSafety.InSlice(s.history, s.memStart, |s.history|, a);
      EngineSafety.InSlice(s.history, s.memStart, |s.history|, b);
    }
  }

  lemma DescribedIsNew(records: seq<Record>, v: Levels, log: nat, next: nat, last: nat, flushed: nat)
    requires Describes(records, v, log, next, last) && FlushedIsRecorded(Some(records), flushed)
    ensures NeverReadds(records)
    ensures Latest(LastSequences(records)).Some? && flushed <= Latest(LastSequences(records)).value
  {
  }

  lemma OnlyCurrentHeld(versions: VersionSet)
    ensures versions.descriptorLog.None? ==> versions.Held() == Placed(SnapshotEdit(versions.current))
  {
  }

  // What holds besides of a database that has just been opened.
  lemma Reopened(s: State, t: State, left: map<nat, seq<seq<Entry>>>, torn: bool, tables: Level, first: nat)
    requires Inv(s) && RecoverAnyway(s, t, left, torn, tables, first) && Inv(t.(torn := {}))
    requires NumbersFree(Placed(SnapshotEdit(s.version)) + Placed(Level0Additions(tables)), t.nextFile)
    ensures t.imm == None && t.snapshots == [] && t.pendingOutputs == {} && t.flushed <= |t.history|
    ensures CompactionLinked(None, t.job)
    ensures PlacedOk(Placed(SnapshotEdit(s.version)) + Placed(Level0Additions(tables)), t.version, t.nextFile, {})
    ensures Inv(t) <==> !(torn && t.logFile == s.logFile)
  {
    hide Inv, RecoverAnyway, PlacedOk, NumbersFree, Placed, Level0Additions;
    EngineSafety.AsIfWhole(s, t, left, torn, tables, first);
    ReopenedWhole(s, t.(torn := {}), left, tables, first);
    TornIsWrong(s, t, left, torn, tables, first);
  }

  lemma ReopenedWhole(s: State, t: State, left: map<nat, seq<seq<Entry>>>, tables: Level, first: nat)
    requires Inv(s) && RecoverStep(s, t, left, false, tables, first)
    requires NumbersFree(Placed(SnapshotEdit(s.version)) + Placed(Level0Additions(tables)), t.nextFile)
    ensures t.imm == None && t.job == None && t.snapshots == [] && t.pendingOutputs == {} && t.flushed <= |t.history|
    ensures PlacedOk(Placed(SnapshotEdit(s.version)) + Placed(Level0Additions(tables)), t.version, t.nextFile, {})
  {
    hide MemOk, JobOk, LogsOk, RetainsFrom, ValidVersion, RecoveredTables, HoldsSlice, Surviving, Replayed, Flat,
         Listed, Located;
    var held := Placed(SnapshotEdit(s.version)) + Placed(Level0Additions(tables));
    forall l, m, f | 0 <= l < |t.version| && f in t.version[l] && (m, f.number) in held ensures m <= l {
      EngineSafety.RecoveredMembership(s.version, tables, t.version, l, f);
      if (m, f.number) in Placed(Level0Additions(tables)) {
        assert m == 0;
      } else {
        var p :| p in Located(s.version) && p.0 == m && p.1.number == f.number;
        LocatedHolds(s.version, m, p.1);
        assert p == (m, p.1);
      }
    }
  }

  lemma SameButTorn(s: State, e: Entry)
    ensures Durability.IsDurable(s.(torn := {}), e) ==> Durability.IsDurable(s, e)
  {
    var t := s.(torn := {});
    if Durability.IsDurable(t, e) && e !in Written(t.history[..if t.flushed <= |t.history| then t.flushed else 0]) {
      var n :| t.logNumber <= n <= t.logFile && e in Flat(Durability.SyncedRecords(t, n));
      assert Durability.SyncedRecords(s, n) == Durability.SyncedRecords(t, n);
    }
  }

  lemma TornIsWrong(s: State, t: State, left: map<nat, seq<seq<Entry>>>, torn: bool, tables: Level, first: nat)
    requires Inv(s) && RecoverAnyway(s, t, left, torn, tables, first)
    ensures torn && t.logFile == s.logFile ==> !Inv(t)
    ensures !(torn && t.logFile == s.logFile) ==> t.torn == {}
  {
    hide MemOk, TablesOk, NumbersOk, JobOk;
  }

  lemma NothingWaits(history: Writes, mem: seq<Entry>, log: seq<seq<Entry>>)
    ensures QueueOk([], [], 0, history, history)
    ensures GroupAtWork(None, [], |history|, mem, mem, log, log)
  {
    assert NumberedFrom(Ops([]), |history|) == [] && history + Somes([]) == history;
  }

  lemma CompletedAreWritten(
      writers: seq<Writer>, arrivals: seq<Writer>, completed: nat, history: Writes, atOpen: Writes)
    requires QueueOk(writers, arrivals, completed, history, atOpen)
    ensures completed <= |arrivals| && history == atOpen + Somes(NumberedFrom(Ops(arrivals[..completed]), |atOpen|))
  {
  }

  lemma HistoryIs(s: State)
    requires Inv(s)
    ensures IsHistory(s.history)
  {
    hide TablesOk, NumbersOk, JobOk, LogsOk;
  }

  lemma StartOfHistory(h: Writes, start: Writes, rest: Writes)
    requires IsHistory(h) && h == start + rest
    ensures IsHistory(start)
  {
    assert forall i :: 0 <= i < |start| ==> start[i] == h[i];
  }

  lemma NewManifest(records: seq<Record>)
    requires records == [Record(VersionEdit({}, []), Some(0), Some(2), Some(0))]
    ensures NeverReadds(records)
    ensures Latest(LogNumbers(records)) == Some(0) && Latest(NextFiles(records)) == Some(2)
    ensures Latest(LastSequences(records)) == Some(0)
    ensures forall versions :: Stepwise(versions, records) ==> versions[1] == NO_FILES
    ensures exists versions :: Stepwise(versions, records)
  {
    EmptyInOrder();
    forall versions | Stepwise(versions, records) ensures versions[1] == NO_FILES {
      EmptyEditKeeps(versions[0], versions[1]);
    }
    assert Stepwise([NO_FILES, NO_FILES], records);
  }

  lemma NothingPlaced()
    ensures Placed(SnapshotEdit(NO_FILES)) == {} && Placed(VersionEdit({}, [])) == {}
    ensures forall held :: PlacesNew(VersionEdit({}, []), held)
    ensures NumbersFree({}, 0)
  {
    forall l: nat, f ensures (l, f) !in Located(NO_FILES) {
      LocatedHolds(NO_FILES, l, f);
    }
    assert forall p :: p in Located(NO_FILES) ==> p == (p.0, p.1);
  }

  lemma EmptyEditKeeps(v: Levels, w: Levels)
    requires Applied(v, VersionEdit({}, []), w) && forall l :: 0 <= l < |v| ==> InFileOrder(v[l])
    ensures w == v
  {
    forall l | 0 <= l < |v| ensures w[l] == v[l] {
      VersionBuilder.FileOrderIsUnique(w[l], v[l]);
    }
  }

  // The queue is what has arrived and is not done; what is done is the history, in order of arrival,
  // each batch once, numbered without gaps.
  ghost predicate QueueOk(
      writers: seq<Writer>, arrivals: seq<Writer>, completed: nat, history: Writes, atOpen: Writes)
  {
    && completed <= |arrivals|
    && writers == arrivals[completed..]
    && history == atOpen + Somes(NumberedFrom(Ops(arrivals[..completed]), |atOpen|))
  }

  // What the leader at work has done to the memtable and the log.
  ghost predicate GroupAtWork(
    group: Option<Group>, writers: seq<Writer>, last: nat, mem: seq<Entry>, visible: seq<Entry>,
    log: seq<seq<Entry>>, recorded: seq<seq<Entry>>)
  {
    match group
    case None => mem == visible && log == recorded
    case Some(g) =>
      && Batch.GroupOk(writers, g.writers)
      && g.sync == writers[0].sync
      && g.entries == NumberedFrom(Ops(writers[..g.writers]), last)
      && g.inserted <= |g.entries| && (g.inserted > 0 ==> g.logged)
      && Sorted(mem) && ToSet(mem) == ToSet(visible) + ToSet(g.entries[..g.inserted])
      && log == if g.logged then recorded + [g.entries] else recorded
  }

  // The compaction under way, if any, has its inputs in the order in which it will read them.
  ghost predicate CompactionLinked(compaction: Option<CompactionState>, job: Option<Job>) {
    match compaction
    case None => job == None
    case Some(c) => job.Some? && job.value == c.AsJob(job.value.flushed) && InputOrder(c.level, c.inputs0)
  }

  ghost function Layers(mem: seq<Entry>, imm: Option<seq<Entry>>, current: Levels): set<Entry> {
    AllEntries(current) + (if imm.Some? then ToSet(imm.value) else {}) + ToSet(mem)
  }

  lemma LevelsAreValid(v: Levels)
    requires ValidVersion(v)
    ensures |v| == NUM_LEVELS && (forall l :: 0 <= l < |v| ==> ValidFiles(v[l])) && Level0Ordered(v[0])
  {
  }

  // A memtable with further entries, all of them newer than `last`.
  ghost predicate Grows(mem: seq<Entry>, later: seq<Entry>, last: nat) {
    && Sorted(later) && ToSet(mem) <= ToSet(later)
    && forall e :: e in later && e !in mem ==> e.key.sequence > last
  }

  lemma GrowsByOne(mem: seq<Entry>, e: Entry, later: seq<Entry>, last: nat)
    requires Sorted(later) && ToSet(later) == ToSet(mem) + {e} && e.key.sequence > last
    ensures Grows(mem, later, last)
  {
    forall x | x in later && x !in mem ensures x == e {
      assert x in ToSet(later);
    }
  }

  lemma GrowsOn(a: seq<Entry>, b: seq<Entry>, c: seq<Entry>, last: nat, later: nat)
    requires Grows(a, b, last) && Grows(b, c, later) && last <= later
    ensures Grows(a, c, last)
  {
    assert forall e :: e in a ==> e in ToSet(a);
    assert forall e :: e in ToSet(b) ==> e in b;
  }

  // The unlocked part of Get.  In state s it captured the memtables and the version; by the time it
  // searches them the memtable may have grown, by insertions of later groups, and have become the
  // immutable one, or be gone from the database altogether.  The answer is that of state s all the same.
  method SearchCaptured(mem: seq<Entry>, imm: Option<seq<Entry>>, current: Levels, k: UserKey, n: nat, ghost s: State)
    returns (r: History.Lookup)
    requires Inv(s) && Floor(s) <= n <= |s.history|
    requires Grows(s.mem, mem, |s.history|) && imm == s.imm && current == s.version
    ensures r == Read(s.history, k, n)
  {
    hide Inv, Read, Answers, Floor;
    LayersOf(s);
    LaterEntries(s, mem);
    r := SearchLayers(mem, imm, current, k, n, s.flushed, s.memStart);
    NewerUnseen(Stored(s), Layers(mem, imm, current), k, n, r);
    EngineSafety.ReadsAreRight(s, k, n, r);
  }

  lemma LaterEntries(s: State, mem: seq<Entry>)
    requires Inv(s) && Grows(s.mem, mem, |s.history|)
    ensures Sorted(mem) && forall e :: e in mem ==> s.memStart < e.key.sequence
    ensures Stored(s) <= Layers(mem, s.imm, s.version)
    ensures forall e :: e in Layers(mem, s.imm, s.version) && e !in Stored(s) ==> e.key.sequence > |s.history|
  {
    hide Inv;
    LayersOf(s);
    assert forall e :: e in s.mem ==> e in ToSet(s.mem);
  }

  // Likewise an iteration over what was captured shows the rows of state s, however the memtable grows
  // under it.
  lemma LaterIterationIsRight(s: State, mem: seq<Entry>, es: seq<Entry>, n: nat, k: UserKey, v: Bytes)
    requires Inv(s) && Floor(s) <= n <= |s.history| && Grows(s.mem, mem, |s.history|)
    requires Sorted(es) && ToSet(es) == Layers(mem, s.imm, s.version)
    ensures DbIter.Shows(es, n, k, v) <==> Read(s.history, k, n) == Found(v)
  {
    hide Inv, Read, DbIter.Shows, Floor, Sorted, Layers, Stored;
    LaterEntries(s, mem);
    var merged := Iteration.StoredHasMerge(s);
    Iteration.IterationIsRight(s, merged, n, k, v);
    SameRowsShown(merged, es, n, k, v);
  }

  // Entries newer than n make no difference to what is shown at n.
  lemma SameRowsShown(a: seq<Entry>, b: seq<Entry>, n: nat, k: UserKey, v: Bytes)
    requires Sorted(a) && Sorted(b) && ToSet(a) <= ToSet(b)
    requires forall e :: e in ToSet(b) && e !in ToSet(a) ==> e.key.sequence > n
    ensures DbIter.Shows(a, n, k, v) <==> DbIter.Shows(b, n, k, v)
  {
    if DbIter.Shows(a, n, k, v) {
      RowIsShown(a, b, n, k, v);
    }
    if DbIter.Shows(b, n, k, v) {
      RowIsShown(b, a, n, k, v);
    }
  }

  // What two sorted lists share stands in the same order in both.
  lemma SameOrder(a: seq<Entry>, b: seq<Entry>, i: nat, j: nat, x: nat) returns (y: nat)
    requires Sorted(a) && Sorted(b) && i < |a| && x < j < |b| && a[i] == b[j] && b[x] in ToSet(a)
    ensures y < i && a[y] == b[x]
  {
    y :| 0 <= y < |a| && a[y] == b[x];
    Merger.OrderIsIndexOrder(b, x, j);
    Merger.OrderIsIndexOrder(a, y, i);
  }

  lemma RowIsShown(a: seq<Entry>, b: seq<Entry>, n: nat, k: UserKey, v: Bytes)
    requires Sorted(a) && Sorted(b) && forall e: Entry :: e.key.sequence <= n ==> (e in ToSet(a) <==> e in ToSet(b))
    requires DbIter.Shows(a, n, k, v)
    ensures DbIter.Shows(b, n, k, v)
  {
    var i :| 0 <= i < |a| && DbIter.VisibleAt(a, n, i) && a[i].key.user == k && a[i].value == v;
    assert a[i] in ToSet(a);
    var j :| 0 <= j < |b| && b[j] == a[i];
    forall x | 0 <= x < j && b[x].key.user == k ensures b[x].key.sequence > n {
      assert b[x] in ToSet(b);
      if b[x] in ToSet(a) {
        var y := SameOrder(a, b, i, j, x);
        assert a[y].key.user == k;
      }
    }
    assert DbIter.VisibleAt(b, n, j);
  }

  // The memtables, then the tables: the first layer that knows the key has the newest entry.
  method SearchLayers(
      mem: seq<Entry>, imm: Option<seq<Entry>>, current: Levels, k: UserKey, s: nat, ghost a: nat, ghost b: nat)
    returns (r: History.Lookup)
    requires Sorted(mem) && (imm.Some? ==> Sorted(imm.value)) && ValidVersion(current)
    requires a <= b && forall e :: e in mem ==> b < e.key.sequence
    requires imm.Some? ==> forall e :: e in imm.value ==> a < e.key.sequence <= b
    requires forall e :: e in AllEntries(current) ==> e.key.sequence <= a
    ensures Answers(Layers(mem, imm, current), k, s, r)
  {
    hide ValidVersion, AllEntries;
    var e := EntriesGet(mem, k, s);
    if e.None? && imm.Some? {
      e := EntriesGet(imm.value, k, s);
    }
    if e.None? {
      LevelsAreValid(current);
      var charged;
      ghost var looked;
      e, charged, looked := Version.Get(current, k, s);
    }
    r := Outcome(e);
    assert e.Some? ==> IsNewest(Layers(mem, imm, current), k, s, e.value);
  }

  // What a flush adds to the version: nothing, if there is nothing to flush.
  ghost predicate FlushEdit(
    edit: VersionEdit, es: seq<Entry>, number: nat, v: Levels, table: FileMetaData, level: nat)
  {
    if es == [] then edit == VersionEdit({}, [])
    else
      && edit == VersionEdit({}, [(level, table)]) && table == BuildTable(number, table.fileSize, es)
      && level < |v| && level <= MAX_MEM_COMPACT_LEVEL
      && (level > 0 ==> forall l :: 0 <= l <= level ==> !Meets(v[l], table.smallest.user, table.largest.user))
  }

  // WriteLevel0Table: builds the table and finds its level.
  method WriteLevel0Table(mem: seq<Entry>, number: nat, fileSize: nat, base: Levels, maxGrandParentOverlapBytes: nat)
    returns (edit: VersionEdit, table: FileMetaData, level: nat)
    requires Sorted(mem) && ValidVersion(base) && forall l :: 0 <= l < |base| ==> InSequenceSpace(base[l])
    ensures FlushEdit(edit, mem, number, base, table, level)
    ensures |base| == NUM_LEVELS
    ensures mem != [] ==>
              IsOutputLevel(base, table.smallest.user, table.largest.user, level, maxGrandParentOverlapBytes)
  {
    hide ValidVersion, Meets;
    edit, table, level := VersionEdit({}, []),
      FileMetaData(0, 0, InternalKey(0.0, 0, Value), InternalKey(0.0, 0, Value), []), 0;
    VersionLevels(base);
    if mem != [] {
      table := BuildTable(number, fileSize, mem);
      UsersAscend(mem, 0, |mem| - 1);
      level := PickLevelForMemTableOutput(base, table.smallest.user, table.largest.user, maxGrandParentOverlapBytes);
      edit := VersionEdit({}, [(level, table)]);
    }
  }

  ghost function AfterFlush(s: State, w: Levels): State {
    s.(imm := None, flushed := s.memStart, version := w, nextFile := s.nextFile + 1,
       logNumber := s.logFile, logs := From(s.logs, s.logFile), durable := From(s.durable, s.logFile),
       torn := set n | n in s.torn && n >= s.logFile)
  }

  lemma FlushIsStep(s: State, w: Levels, table: FileMetaData, level: nat, edit: VersionEdit)
    requires Inv(s) && s.imm.Some? && Applied(s.version, edit, w)
    requires FlushEdit(edit, s.imm.value, s.nextFile, s.version, table, level)
    ensures FlushAnywhere(s, AfterFlush(s, w), table, level)
    ensures var t := AfterFlush(s, w);
            && t.imm == None && t.version == w && t.nextFile == s.nextFile + 1 && t.logNumber == t.logFile == s.logFile
            && t.history == s.history && t.mem == s.mem && t.snapshots == s.snapshots
            && t.pendingOutputs == s.pendingOutputs
            && t.job == s.job && t.logs == From(s.logs, s.logFile) && t.flushed == s.memStart
  {
    hide MemOk, NumbersOk, JobOk, LogsOk, ValidVersion, RetainsFrom, Meets, Applied;
    if s.imm.value == [] {
      OrderedLevels(s.version);
      EmptyEditKeeps(s.version, w);
    } else {
      LayersOf(s);
      if level > 0 {
        NotMetIsClear(s.version, table, level);
      }
    }
  }

  lemma OrderedLevels(v: Levels)
    requires Ordered(v)
    ensures |v| == NUM_LEVELS && forall l :: 0 <= l < |v| ==> InFileOrder(v[l])
  {
  }

  lemma LogsKept(all: map<nat, seq<seq<Entry>>>, older: map<nat, seq<seq<Entry>>>, n: nat)
    requires n in all && all == older[n := all[n]]
    ensures From(all, n) == From(older, n)[n := all[n]]
  {
  }

  lemma NewNumberPlaced(
      held: set<(nat, nat)>, v: Levels, pending: set<nat>, number: nat, level: nat, table: FileMetaData,
      edit: VersionEdit, es: seq<Entry>)
    requires PlacedOk(held, v, number, pending) && FlushEdit(edit, es, number, v, table, level) && |v| == NUM_LEVELS
    ensures PlacesNew(edit, held) && NumbersFree(held + Placed(edit), number + 1)
  {
    hide Meets;
  }

  lemma NextLevelIsThere(v: Levels, level: nat, inputs0: Level, inputs1: Level)
    requires ClosedInputs(v, level, inputs0, inputs1)
    ensures level + 1 < |v|
  {
  }

  // What the manifest says of LastSequence covers everything in tables.
  ghost predicate FlushedIsRecorded(manifest: Option<seq<Record>>, flushed: nat) {
    && manifest.Some?
    && Latest(LastSequences(manifest.value)).Some? && flushed <= Latest(LastSequences(manifest.value)).value
  }

  lemma Recorded(manifest: Option<seq<Record>>, last: nat, flushed: nat)
    requires manifest.Some? && Latest(LastSequences(manifest.value)) == Some(last) && flushed <= last
    ensures FlushedIsRecorded(manifest, flushed)
  {
  }

  lemma GaplessIsApart(s: State, t: State, f: FileMetaData, level: nat, compaction: Option<CompactionState>)
    requires Inv(s) && FlushAnywhere(s, t, f, level) && CompactionLinked(compaction, s.job)
    ensures (compaction.Some? ==> NoGaps(compaction.value.inputs0 + compaction.value.inputs1)) ==>
              FlushApart(s, f, level)
  {
    hide Inv, FlushAnywhere, NoGaps, InputOrder;
    if compaction.Some? ==> NoGaps(compaction.value.inputs0 + compaction.value.inputs1) {
      EngineSafety.GaplessFlushIsStep(s, t, f, level);
    }
  }

  lemma FlushIsApart(s: State, t: State, f: FileMetaData, level: nat)
    requires FlushAnywhere(s, t, f, level) && FlushApart(s, f, level)
    ensures FlushStep(s, t, f, level)
  {
  }

  lemma PlacedAfterFlush(
      held: set<(nat, nat)>, v: Levels, pending: set<nat>, number: nat, level: nat, table: FileMetaData,
      edit: VersionEdit, es: seq<Entry>, w: Levels)
    requires PlacedOk(held, v, number, pending) && FlushEdit(edit, es, number, v, table, level) && Applied(v, edit, w)
    requires NumberedBelow(v, number)
    ensures PlacedOk(held + Placed(edit), w, number + 1, pending)
  {
    hide InFileOrder, Meets;
    forall l, m, g | 0 <= l < |w| && g in w[l] && (m, g.number) in held + Placed(edit) ensures m <= l {
      if g !in v[l] {
        assert (l, g) in edit.newFiles;
      }
    }
  }

  // A flush can go ahead: the facts its steps need.
  lemma FlushFits(s: State)
    requires Inv(s) && |s.history| <= MAX_SEQUENCE_NUMBER && s.imm.Some?
    ensures Sorted(s.imm.value) && ValidVersion(s.version) && |s.version| == NUM_LEVELS
    ensures forall l :: 0 <= l < |s.version| ==> InSequenceSpace(s.version[l])
    ensures s.logNumber <= s.logFile < s.nextFile && s.logFile in s.logs && s.memStart <= |s.history|
    ensures NumberedBelow(s.version, s.nextFile)
  {
    hide JobOk, RetainsFrom, ValidVersion;
    OrderedLevels(s.version);
    LayersOf(s);
    forall l, g | 0 <= l < |s.version| && g in s.version[l] ensures g.largest.sequence <= MAX_SEQUENCE_NUMBER {
      VersionFile(s.version, l, g);
      LevelHasFile(s.version, l, g);
      LastEntry(g);
    }
  }

  // The facts a compaction's choice of inputs needs.
  lemma TablesAreDistinct(s: State)
    requires Inv(s)
    ensures ValidVersion(s.version) && |s.version| == NUM_LEVELS && DistinctSequences(AllEntries(s.version))
  {
    hide NumbersOk, JobOk, LogsOk, RetainsFrom, ValidVersion, HoldsSlice;
    OrderedLevels(s.version);
    EngineSafety.PartOfIsDistinct(AllEntries(s.version), s.history[..s.flushed]);
  }

  lemma MoveFits(s: State, held: set<(nat, nat)>, level: nat, f: FileMetaData)
    requires Inv(s) && PlacedOk(held, s.version, s.nextFile, s.pendingOutputs)
    requires ClosedInputs(s.version, level, [f], [])
    ensures PlacesNew(CompactionEdit(level, [f], [], [f]), held)
    ensures NumbersFree(held + Placed(CompactionEdit(level, [f], [], [f])), s.nextFile)
  {
    hide MemOk, JobOk, LogsOk, RetainsFrom, ValidVersion;
    OrderedLevels(s.version);
    assert [f][0] == f;
    assert f in s.version[level];
    assert (level + 1, f.number) !in held;
  }

  lemma MoveIsStep(s: State, w: Levels, level: nat, f: FileMetaData)
    requires s.job.None? && ClosedInputs(s.version, level, [f], [])
    requires Applied(s.version, CompactionEdit(level, [f], [], [f]), w)
    ensures TrivialMoveStep(s, s.(version := w), level, f)
  {
  }

  lemma PlacedAfterMove(s: State, held: set<(nat, nat)>, level: nat, f: FileMetaData, w: Levels)
    requires Inv(s) && PlacedOk(held, s.version, s.nextFile, s.pendingOutputs)
    requires ClosedInputs(s.version, level, [f], [])
    requires Applied(s.version, CompactionEdit(level, [f], [], [f]), w)
    ensures PlacedOk(held + Placed(CompactionEdit(level, [f], [], [f])), w, s.nextFile, s.pendingOutputs)
  {
    hide MemOk, JobOk, LogsOk, RetainsFrom, ValidVersion, InFileOrder;
    var edit := CompactionEdit(level, [f], [], [f]);
    assert [f][0] == f && f in s.version[level];
    assert edit.newFiles == [(level + 1, f)];
    assert Placed(edit) == {(level + 1, f.number)};
    assert (level, f.number) in edit.deletedFiles;
    forall l, m, g | 0 <= l < |w| && g in w[l] && (m, g.number) in held + Placed(edit) ensures m <= l {
      assert (g in s.version[l] && (l, g.number) !in edit.deletedFiles) || (l == level + 1 && g == f);
    }
  }

  // The outputs of a job have numbers of their own.
  ghost predicate OwnNumbers(files: Level, pending: set<nat>) {
    && (forall i :: 0 <= i < |files| ==> files[i].number in pending)
    && forall i, j :: 0 <= i < j < |files| ==> files[i].number != files[j].number
  }

  lemma OutputsFit(s: State, held: set<(nat, nat)>, job: Job, files: Level)
    requires Inv(s) && s.job == Some(job) && PlacedOk(held, s.version, s.nextFile, s.pendingOutputs)
    requires OwnNumbers(files, s.pendingOutputs)
    ensures PlacesNew(CompactionEdit(job.level, job.inputs0, job.inputs1, files), held)
    ensures NumbersFree(held + Placed(CompactionEdit(job.level, job.inputs0, job.inputs1, files)), s.nextFile)
  {
    hide MemOk, NumbersOk, LogsOk, RetainsFrom, ValidVersion, Tracks, NextLevelClosed;
    JobLevels(job);
    VersionLevels(job.base);
  }

  lemma PlacedAfterInstall(s: State, held: set<(nat, nat)>, job: Job, files: Level, w: Levels)
    requires Inv(s) && s.job == Some(job) && PlacedOk(held, s.version, s.nextFile, s.pendingOutputs)
    requires OwnNumbers(files, s.pendingOutputs)
    requires Applied(s.version, CompactionEdit(job.level, job.inputs0, job.inputs1, files), w)
    ensures PlacedOk(held + Placed(CompactionEdit(job.level, job.inputs0, job.inputs1, files)), w, s.nextFile, {})
  {
    hide MemOk, JobOk, LogsOk, TablesOk, InFileOrder;
    var edit := CompactionEdit(job.level, job.inputs0, job.inputs1, files);
    forall m, n | (m, n) in Placed(edit) ensures m == job.level + 1 && n in s.pendingOutputs {
      var p :| p in edit.newFiles && p.0 == m && p.1.number == n;
      var i :| 0 <= i < |files| && edit.newFiles[i] == p;
    }
    forall l, m, g | 0 <= l < |w| && g in w[l] && (m, g.number) in held + Placed(edit) ensures m <= l {
      if (l, g) in edit.newFiles {
        NewFilePlaced(edit, l, g);
      } else {
        assert g in s.version[l];
      }
    }
  }

  lemma InstallIsStep(s: State, job: Job, w: Levels, outputs: seq<seq<Entry>>, numbers: seq<nat>, fileSizes: seq<nat>)
    requires s.job == Some(job) && OutputsOf(job, outputs)
    requires |numbers| == |fileSizes| == |outputs| && forall i :: 0 <= i < |outputs| ==> outputs[i] != []
    requires var files := OutputFiles(outputs, numbers, fileSizes);
             OwnNumbers(files, s.pendingOutputs) &&
                 Applied(s.version, CompactionEdit(job.level, job.inputs0, job.inputs1, files), w)
    ensures InstallStep(s, s.(version := w, job := None, pendingOutputs := {}),
              OutputFiles(outputs, numbers, fileSizes))
  {
    hide OutputsOf, Applied, MadeOf, DroppedOf, Inputs;
    OutputsAreMade(job, outputs, numbers, fileSizes);
  }

  lemma VersionFile(v: Levels, l: nat, f: FileMetaData)
    requires ValidVersion(v) && l < |v| && f in v[l]
    ensures ValidFile(f)
  {
  }

  lemma SnapshotInRange(s: State, snapshot: Option<nat>)
    requires Inv(s) && (snapshot.Some? ==> snapshot.value in s.snapshots)
    ensures var n := if snapshot.Some? then snapshot.value else |s.history|;
            Floor(s) <= n <= |s.history|
  {
    hide MemOk, TablesOk, NumbersOk, JobOk, LogsOk;
    if snapshot.Some? {
      var i :| 0 <= i < |s.snapshots| && s.snapshots[i] == snapshot.value;
      assert i > 0 ==> s.snapshots[0] <= s.snapshots[i];
    }
  }

  // What the leader at work has inserted so far.
  ghost function SoFar(group: Option<Group>): seq<Entry> {
    if group.Some? && group.value.inserted <= |group.value.entries| then group.value.entries[..group.value.inserted]
      else []
  }

  lemma GroupIsWrite(
      s: State, group: Option<Group>, writers: seq<Writer>, mem: seq<Entry>, log: seq<seq<Entry>>,
      recorded: seq<seq<Entry>>)
    requires Inv(s) && GroupAtWork(group, writers, |s.history|, mem, s.mem, log, recorded)
    ensures s.logFile in s.logs && WriteStep(s, AfterWrite(s, SoFar(group), false, mem), SoFar(group), false)
  {
    hide TablesOk, NumbersOk, JobOk, SnapshotsOk, Ops, NumberedFrom, Batch.GroupOk, Flat, Listed, LogRecords;
  }

  // Readers at a sequence number that is still answered see in these entries what the history reads.
  ghost predicate IsCurrent(s: State, es: seq<Entry>) {
    forall n, k, v | Floor(s) <= n <= |s.history| :: DbIter.Shows(es, n, k, v) <==> Read(s.history, k, n) == Found(v)
  }

  lemma ShownIsCurrent(s: State, t: State, es: seq<Entry>, merged: seq<Entry>)
    requires Inv(s) && Inv(t) && t == AfterWrite(s, es, false, t.mem)
    requires Sorted(merged) && ToSet(merged) == Stored(t)
    ensures IsCurrent(s, merged)
  {
    hide Inv, Read, DbIter.Shows, Stored, Sorted;
    EngineSafety.ShapeOf(s);
    forall n, k, v | Floor(s) <= n <= |s.history|
      ensures DbIter.Shows(merged, n, k, v) <==> Read(s.history, k, n) == Found(v)
    {
      Iteration.IterationIsRight(t, merged, n, k, v);
      assert t.history[..|s.history|] == s.history;
      SameRead(t.history, |s.history|, k, n);
    }
  }

  lemma SameRead(h: Writes, n: nat, k: UserKey, s: nat)
    requires s <= n <= |h|
    ensures Read(h[..n], k, s) == Read(h, k, s)
  {
    NewestWriteInPrefix(h, n, k, s);
  }

  // The layers hold stretches of the history, newest first.
  lemma LayersOf(s: State)
    requires Inv(s)
    ensures s.flushed <= s.memStart <= |s.history| && ValidVersion(s.version) && Sorted(s.mem)
    ensures forall e :: e in s.mem ==> s.memStart < e.key.sequence <= |s.history|
    ensures s.imm.Some? ==> Sorted(s.imm.value) && forall e ::
              e in s.imm.value ==> s.flushed < e.key.sequence <= s.memStart
    ensures forall e :: e in AllEntries(s.version) ==> e.key.sequence <= s.flushed
  {
    hide NumbersOk, JobOk, LogsOk, RetainsFrom, ValidVersion, Ordered;
    forall e | e in s.mem ensures s.memStart < e.key.sequence <= |s.history| {
      assert e in ToSet(s.mem);
      EngineSafety.InSlice(s.history, s.memStart, |s.history|, e);
    }
    if s.imm.Some? {
      forall e | e in s.imm.value ensures s.flushed < e.key.sequence <= s.memStart {
        assert e in ToSet(s.imm.value);
        EngineSafety.InSlice(s.history, s.flushed, s.memStart, e);
      }
    }
  }

  lemma PlacedLater(held: set<(nat, nat)>, v: Levels, n: nat, pending: set<nat>)
    requires PlacedOk(held, v, n, pending)
    ensures PlacedOk(held, v, n + 1, pending) && PlacedOk(held, v, n + 1, pending + {n})
  {
  }

  lemma NothingWritten(writers: seq<Writer>, arrivals: seq<Writer>, completed: nat, history: Writes, atOpen: Writes)
    requires QueueOk(writers, arrivals, completed, history, atOpen) && writers != [] && writers[0].batch.None?
    ensures QueueOk(writers[1..], arrivals, completed + 1, history, atOpen)
  {
    hide Ops;
    OpsConcat(arrivals[..completed], [writers[0]]);
    OpsOfOne(writers[0]);
    assert arrivals[..completed + 1] == arrivals[..completed] + [writers[0]];
  }

  ghost function AfterWrite(s: State, es: seq<Entry>, sync: bool, mem: seq<Entry>): State
    requires s.logFile in s.logs
  {
    s.(history := s.history + Somes(es), mem := mem, logs := s.logs[s.logFile := s.logs[s.logFile] + [es]],
       durable := if sync && s.logFile !in s.torn then s.durable[s.logFile := |s.logs[s.logFile]| + 1]
                  else s.durable)
  }

  // The writers' batches are the next writes, and their log record is synced if one of them asked for it.
  ghost predicate Served(s: State, t: State, done: seq<Writer>) {
    && t.history == s.history + Somes(NumberedFrom(Ops(done), |s.history|))
    && ((exists w :: w in done && w.sync) ==>
         s.logFile in t.logs && t.durable == s.durable[s.logFile := |t.logs[s.logFile]|])
  }

  lemma ServedHasEffect(s: State, t: State, done: seq<Writer>)
    requires IsHistory(s.history) && Served(s, t, done)
    ensures forall k :: Read(t.history, k, |t.history|) ==
                        Updates.Effect(Updates.LastAbout(Ops(done), k), Read(s.history, k, |s.history|))
  {
    hide Read, Updates.LastAbout;
    forall k
      ensures Read(t.history, k, |t.history|) ==
              Updates.Effect(Updates.LastAbout(Ops(done), k), Read(s.history, k, |s.history|))
    {
      Updates.ReadAfterOps(s.history, Ops(done), k);
    }
  }

  // The state and the queue once the leader's group is dismissed.
  lemma GroupCompletes(
      s: State, group: Option<Group>, writers: seq<Writer>, arrivals: seq<Writer>, completed: nat, atOpen: Writes,
      mem: seq<Entry>, log: seq<seq<Entry>>, t: State)
    requires s.logFile in s.logs && GroupAtWork(group, writers, |s.history|, mem, s.mem, log, s.logs[s.logFile])
    requires s.torn == {}
    requires QueueOk(writers, arrivals, completed, s.history, atOpen)
    requires group.Some? && group.value.logged && group.value.inserted == |group.value.entries|
    requires t == AfterWrite(s, group.value.entries, group.value.sync, mem)
    ensures var g := group.value;
            && 1 <= g.writers <= |writers|
            && WriteStep(s, t, g.entries, g.sync) && Served(s, t, writers[..g.writers])
            && t == s.(history := t.history, mem := mem, logs := s.logs[s.logFile := log], durable := t.durable)
            && |t.history| == |s.history| + |g.entries|
            && QueueOk(writers[g.writers..], arrivals, completed + g.writers, t.history, atOpen)
            && GroupAtWork(None, writers[g.writers..], |t.history|, mem, mem, log, log)
  {
    hide QueueOk, Ops, Somes, Batch.GroupOk;
    var g := group.value;
    assert g.entries[..|g.entries|] == g.entries;
    GroupHasWriters(writers, g.writers);
    GroupDone(writers, arrivals, completed, s.history, atOpen, g);
  }

  lemma GroupHasWriters(writers: seq<Writer>, count: nat)
    requires Batch.GroupOk(writers, count)
    ensures 1 <= count <= |writers| && (!writers[0].sync ==> forall w :: w in writers[..count] ==> !w.sync)
  {
  }

  // The queue after the leader's group is dismissed.
  lemma GroupDone(
      writers: seq<Writer>, arrivals: seq<Writer>, completed: nat, history: Writes, atOpen: Writes, g: Group)
    requires QueueOk(writers, arrivals, completed, history, atOpen)
    requires Batch.GroupOk(writers, g.writers) && g.entries == NumberedFrom(Ops(writers[..g.writers]), |history|)
    ensures QueueOk(writers[g.writers..], arrivals, completed + g.writers, history + Somes(g.entries), atOpen)
  {
    hide Ops;
    var done := writers[..g.writers];
    HistoryGrows(atOpen, arrivals[..completed], done);
    assert arrivals[..completed + g.writers] == arrivals[..completed] + done;
  }

  lemma HistoryGrows(h: Writes, a: seq<Writer>, b: seq<Writer>)
    ensures h + Somes(NumberedFrom(Ops(a), |h|)) + Somes(NumberedFrom(Ops(b), |h| + |Ops(a)|)) ==
            h + Somes(NumberedFrom(Ops(a + b), |h|))
  {
    hide Ops;
    OpsConcat(a, b);
    NumberedConcat(Ops(a), Ops(b), |h|);
  }

  // Entries newer than the read do not matter to it.
  lemma NewerUnseen(S: set<Entry>, T: set<Entry>, k: UserKey, s: nat, r: History.Lookup)
    requires S <= T && forall e :: e in T && e !in S ==> e.key.sequence > s
    requires Answers(T, k, s, r)
    ensures Answers(S, k, s, r)
  {
    assert forall e :: IsNewest(T, k, s, e) ==> IsNewest(S, k, s, e);
  }

  // Table numbers placed so far are below `next` and not those of pending outputs, and files have only
  // ever moved down.
  ghost predicate PlacedOk(held: set<(nat, nat)>, v: Levels, next: nat, pending: set<nat>) {
    && (forall n :: n in pending ==> n < next)
    && (forall l, n :: (l, n) in held ==> n < next && n !in pending)
    && (forall l, m, f :: 0 <= l < |v| && f in v[l] && (m, f.number) in held ==> m <= l)
  }
}
