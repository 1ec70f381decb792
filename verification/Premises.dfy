/** Two premises the source relies on without establishing them, each with a run from a fresh database
    after which the engine goes wrong because it fails to hold.  Keys stand for byte strings of any
    length, so that an output file may be full after any entry. */
module Premises {
  import opened Dbformat
  import opened History
  import opened Version
  import opened CompactionInputs
  import opened CompactionWork
  import opened Lsm
  import opened Jobs
  import opened DropRule
  import opened Engine
  import opened EngineSafety

  function Put(user: UserKey, sequence: nat): Entry { Entry(InternalKey(user, sequence, Value), []) }

  function Del(user: UserKey, sequence: nat): Entry { Entry(InternalKey(user, sequence, Deletion), []) }

  // The table file that holds the entries.
  function Table(number: nat, entries: seq<Entry>): FileMetaData
    requires entries != []
  {
    FileMetaData(number, 1, entries[0].key, entries[|entries| - 1].key, entries)
  }

  lemma EntriesOfOne(f: FileMetaData)
    ensures Entries([f]) == ToSet(f.entries)
  {
    assert f in [f];
  }

  lemma EntriesOfTwo(f: FileMetaData, g: FileMetaData)
    ensures Entries([f, g]) == ToSet(f.entries) + ToSet(g.entries)
  {
    assert f in [f, g] && g in [f, g];
  }

  lemma NoEntries()
    ensures Entries([]) == {}
  {
  }

  // ---------- A write, a memtable switch and a flush ----------

  // Everything written is in tables, and the log is empty.
  ghost predicate Idle(s: State) {
    && s.imm == None && s.mem == [] && s.flushed == s.memStart == |s.history| && s.torn == {}
    && s.logNumber == s.logFile < s.nextFile && s.logs == map[s.logFile := []] && s.durable == map[s.logFile := 0]
  }

  function Logged(s: State, es: seq<Entry>, mem: seq<Entry>): State {
    s.(history := s.history + Somes(es), mem := mem, logs := s.logs[s.logFile := [es]])
  }

  function Switched(s: State): State {
    s.(imm := Some(s.mem), mem := [], memStart := |s.history|, nextFile := s.nextFile + 1, logFile := s.nextFile,
       logs := s.logs[s.nextFile := []], durable := s.durable[s.nextFile := 0])
  }

  function Flushed(s: State, es: seq<Entry>, w: Levels): State {
    s.(history := s.history + Somes(es), flushed := |s.history| + |es|, memStart := |s.history| + |es|,
       version := w, nextFile := s.nextFile + 2, logFile := s.nextFile, logNumber := s.nextFile,
       logs := map[s.nextFile := []], durable := map[s.nextFile := 0])
  }

  lemma WriteAndFlush(s: State, es: seq<Entry>, f: FileMetaData, level: nat, w: Levels)
    requires Idle(s) && Numbered(es, |s.history|) && ValidFile(f) && ToSet(f.entries) == ToSet(es)
    requires f.number == s.nextFile + 1 && level < |s.version| && ClearDownTo(s.version, f, level)
    requires Applied(s.version, VersionEdit({}, [(level, f)]), w)
    ensures var a := Logged(s, es, f.entries);
            && WriteStep(s, a, es, false) && SwitchStep(a, Switched(a))
            && FlushAnywhere(Switched(a), Flushed(s, es, w), f, level) && Idle(Flushed(s, es, w))
  {
    hide Applied, ClearDownTo;
    var a := Logged(s, es, f.entries);
    var b, c := Switched(a), Flushed(s, es, w);
    assert s.logs[s.logFile] + [es] == [es];
    assert From(b.logs, b.logFile) == c.logs && From(b.durable, b.logFile) == c.durable;
    assert f.entries != [] by {
      assert ValidFile(f);
    }
  }

  // A table among the files of a level.
  lemma TableAdded(v: Levels, f: FileMetaData, level: nat, files: Level)
    requires level < |v| == 7 && (forall l :: 0 <= l < 7 ==> InFileOrder(v[l])) && InFileOrder(files)
    requires forall g :: g in files <==> g in v[level] || g == f
    ensures Applied(v, VersionEdit({}, [(level, f)]), v[level := files])
  {
    var edit := VersionEdit({}, [(level, f)]);
    assert edit.newFiles[0] == (level, f);
  }

  // ---------- The next level's inputs may end inside a user key ----------

  // Keys 1 and 2 are written.  A snapshot keeps the value of key 2, which is then deleted.
  const PAIR := [Put(1.0, 1), Put(2.0, 2)]
  const GONE := [Put(1.0, 3), Del(2.0, 4)]
  const AGAIN := [Put(1.0, 5)]
  const OLD := Table(3, PAIR)
  const DELETED := Table(5, GONE)
  const FRONT := Table(6, [Put(1.0, 3), Put(1.0, 1), Del(2.0, 4)])
  const BACK := Table(7, [Put(2.0, 2)])
  const NEWER := Table(9, AGAIN)
  const MERGED := Table(10, AGAIN)

  const WITH_OLD: Levels := [[], [], [OLD], [], [], [], []]
  const UNCUT: Levels := [[], [DELETED], [OLD], [], [], [], []]
  const CUT: Levels := [[], [], [FRONT, BACK], [], [], [], []]
  const SPLIT: Levels := [[], [NEWER], [FRONT, BACK], [], [], [], []]
  const UNCOVERED: Levels := [[], [], [MERGED, BACK], [], [], [], []]

  const CUTTING := Job(1, [DELETED], [OLD], 2, UNCUT, 4)
  const UNCOVERING := Job(1, [NEWER], [FRONT], 5, SPLIT, 5)

  const Q0 := State([], 0, 0, [], None, NO_FILES, [], 2, {}, None, map[1 := []], 1, 1, map[1 := 0], {})
  const Q1 := Logged(Q0, PAIR, PAIR)
  const Q2 := Switched(Q1)
  const Q3 := Flushed(Q0, PAIR, WITH_OLD)
  const Q4 := Q3.(snapshots := [2])
  const Q5 := Logged(Q4, GONE, GONE)
  const Q6 := Switched(Q5)
  const Q7 := Flushed(Q4, GONE, UNCUT)
  const Q8 := Q7.(job := Some(CUTTING))
  const Q9 := Q8.(nextFile := 7, pendingOutputs := {6})
  const Q10 := Q9.(nextFile := 8, pendingOutputs := {6, 7})
  const Q11 := Q10.(version := CUT, job := None, pendingOutputs := {})
  const Q12 := Q11.(snapshots := [])
  const Q13 := Logged(Q12, AGAIN, AGAIN)
  const Q14 := Switched(Q13)
  const Q15 := Flushed(Q12, AGAIN, SPLIT)
  const Q16 := Q15.(job := Some(UNCOVERING))
  const Q17 := Q16.(nextFile := 11, pendingOutputs := {10})
  const Q18 := Q17.(version := UNCOVERED, job := None, pendingOutputs := {})

  // A compaction of level 1 cuts its output between the deletion of key 2 and the older value.  Then the
  // snapshot is released, and key 1 is written again and flushed.  Compacting that table with the one of
  // level 2 that it overlaps drops the deletion and leaves the older value in the next: a deleted key
  // comes back.
  lemma DeletedKeyComesBack()
    ensures IsRun([Q0, Q1, Q2, Q3, Q4, Q5, Q6, Q7, Q8, Q9, Q10, Q11, Q12, Q13, Q14, Q15],
                  [Write(PAIR, false), Switch, Flush(OLD, 2), Snapshot, Write(GONE, false), Switch,
                   Flush(DELETED, 1), StartCompaction(CUTTING), AllocateOutput, AllocateOutput,
                   Install([FRONT, BACK]), Release(0), Write(AGAIN, false), Switch, Flush(NEWER, 1)])
    ensures StartAnyway(Q15, Q16, UNCOVERING) && !NextLevelClosed(SPLIT, 1, [FRONT])
    ensures AllocateOutputStep(Q16, Q17) && InstallStep(Q17, Q18, [MERGED])
    ensures |Q18.history| == 5 && Read(Q18.history, 2.0, 5) == NotFound
    ensures Answers(Stored(Q18), 2.0, 5, Found([])) && !Answers(Stored(Q18), 2.0, 5, NotFound)
  {
    hide WriteStep, FlushStep, StartAnyway, StartCompactionStep, AllocateOutputStep, SwitchStep, SnapshotStep,
         ReleaseStep, InstallStep, Read, NextLevelClosed, Answers, Stored, Logged, Switched, Flushed;
    PairFlushed();
    DeletionFlushed();
    CuttingStarts();
    OutputIsCut();
    NewerFlushed();
    UncoveringStarts();
    UncoveringInstalled();
    ValueIsBack();
  }

  lemma PairFlushed()
    ensures Init(Q0) && WriteStep(Q0, Q1, PAIR, false) && SwitchStep(Q1, Q2) && FlushStep(Q2, Q3, OLD, 2)
    ensures SnapshotStep(Q3, Q4) && Idle(Q4) && |Q4.history| == 2 && Q4.version == WITH_OLD && Q4.nextFile == 4
    ensures Q4.job == None && Q4.snapshots == [2]
  {
    hide Applied;
    TableAdded(NO_FILES, OLD, 2, [OLD]);
    assert NO_FILES[2 := [OLD]] == WITH_OLD;
    WriteAndFlush(Q0, PAIR, OLD, 2, WITH_OLD);
    assert Q3.snapshots + [2] == [2];
  }

  lemma DeletionFlushed()
    ensures WriteStep(Q4, Q5, GONE, false) && SwitchStep(Q5, Q6) && FlushStep(Q6, Q7, DELETED, 1) && Idle(Q7)
    ensures |Q7.history| == 4 == Q7.flushed && Q7.version == UNCUT && Q7.nextFile == 6
    ensures Q7.job == None && Q7.snapshots == [2]
    ensures Q7.pendingOutputs == {}
  {
    hide Applied, WriteStep, SwitchStep, SnapshotStep;
    PairFlushed();
    OneOldInOrder();
    TableAdded(WITH_OLD, DELETED, 1, [DELETED]);
    assert WITH_OLD[1 := [DELETED]] == UNCUT;
    WriteAndFlush(Q4, GONE, DELETED, 1, UNCUT);
  }

  lemma OneOldInOrder()
    ensures forall l :: 0 <= l < 7 ==> InFileOrder(WITH_OLD[l])
  {
    forall l | 0 <= l < 7 ensures WITH_OLD[l] == [] || WITH_OLD[l] == [OLD] {
    }
  }

  lemma CuttingStarts()
    ensures StartCompactionStep(Q7, Q8, CUTTING) && AllocateOutputStep(Q8, Q9) && AllocateOutputStep(Q9, Q10)
  {
    hide ClosedInputs, Idle, WriteStep, SwitchStep, FlushStep, Flushed, NoBoundaryLeft;
    DeletionFlushed();
    DeletedIsInput();
    assert {6} + {7} == {6, 7};
  }

  lemma DeletedIsInput()
    ensures ClosedInputs(UNCUT, 1, [DELETED], [OLD]) && NextLevelClosed(UNCUT, 1, [OLD])
    ensures Inputs([DELETED], [OLD]) == ToSet(PAIR) + ToSet(GONE)
  {
    assert [DELETED][0] == DELETED && [OLD][0] == OLD;
    assert IsKeyRange([DELETED], DELETED.smallest, DELETED.largest);
    assert CoversRange(UNCUT[2], [OLD], 1.0, 2.0) by {
      assert [OLD][..0] == [];
    }
    assert IsLargestKey([OLD], OLD.largest);
    EntriesOfOne(DELETED);
    EntriesOfOne(OLD);
  }

  lemma OutputIsCut()
    ensures InstallStep(Q10, Q11, [FRONT, BACK]) && ReleaseStep(Q11, Q12, 0)
    ensures Idle(Q12) && |Q12.history| == 4 && Q12.version == CUT && Q12.nextFile == 8
    ensures Q12.job == None && Q12.snapshots == [] && Q12.pendingOutputs == {}
  {
    hide ClosedInputs, MadeOf, Inputs, Entries, Replaced, DroppedOf, WriteStep, SwitchStep, FlushStep, NextLevelClosed;
    DeletionFlushed();
    DeletedIsInput();
    CutIsMade();
    NothingToDrop();
    CutReplaces();
  }

  lemma CutIsMade()
    ensures MadeOf([FRONT, BACK], ToSet(PAIR) + ToSet(GONE))
    ensures Entries([FRONT, BACK]) == ToSet(PAIR) + ToSet(GONE)
  {
    EntriesOfTwo(FRONT, BACK);
    assert [FRONT, BACK][0] == FRONT && [FRONT, BACK][1] == BACK;
    assert FRONT.entries[0] == Put(1.0, 3) && FRONT.entries[1] == Put(1.0, 1) && FRONT.entries[2] == Del(2.0, 4);
    assert BACK.entries[0] == Put(2.0, 2);
    assert PAIR[0] == Put(1.0, 1) && PAIR[1] == Put(2.0, 2) && GONE[0] == Put(1.0, 3) && GONE[1] == Del(2.0, 4);
  }

  lemma NothingToDrop()
    ensures DroppedOf(UNCUT, 1, ToSet(PAIR) + ToSet(GONE), 2) == {}
  {
    forall n, e | n in ToSet(PAIR) + ToSet(GONE) && e in ToSet(PAIR) + ToSet(GONE) && n.key.sequence <= 2
      ensures n.key.user == e.key.user ==> n.key.sequence <= e.key.sequence
    {
    }
  }

  lemma CutReplaces()
    ensures Replaced(UNCUT, 1, [DELETED], [OLD], [FRONT, BACK], CUT)
  {
    var edit := CompactionEdit(1, [DELETED], [OLD], [FRONT, BACK]);
    assert [DELETED][0] == DELETED && [OLD][0] == OLD && edit.deletedFiles == {(1, 5), (2, 3)};
    assert edit.newFiles == [(2, FRONT), (2, BACK)];
    assert edit.newFiles[0] == (2, FRONT) && edit.newFiles[1] == (2, BACK);
    forall l, f | 0 <= l < 7
      ensures f in CUT[l] <==> (f in UNCUT[l] && (l, f.number) !in edit.deletedFiles) || (l, f) in edit.newFiles
    {
    }
    CutIsInOrder();
  }

  lemma CutIsInOrder()
    ensures forall l :: 0 <= l < 7 ==> InFileOrder(CUT[l])
  {
    assert InFileOrder([FRONT, BACK]);
    forall l | 0 <= l < 7 ensures CUT[l] == [] || CUT[l] == [FRONT, BACK] {
    }
  }

  lemma NewerFlushed()
    ensures WriteStep(Q12, Q13, AGAIN, false) && SwitchStep(Q13, Q14) && FlushStep(Q14, Q15, NEWER, 1)
    ensures Q15.version == SPLIT && |Q15.history| == 5 == Q15.flushed && Q15.job == None && Q15.nextFile == 10
    ensures Q15.snapshots == [] && Q15.pendingOutputs == {} && Q15.imm == None && Q15.mem == []
  {
    hide Applied, WriteStep, SwitchStep, Idle, InstallStep, ReleaseStep;
    OutputIsCut();
    CutIsInOrder();
    TableAdded(CUT, NEWER, 1, [NEWER]);
    assert CUT[1 := [NEWER]] == SPLIT;
    WriteAndFlush(Q12, AGAIN, NEWER, 1, SPLIT);
  }

  lemma UncoveringStarts()
    ensures StartAnyway(Q15, Q16, UNCOVERING) && !NextLevelClosed(SPLIT, 1, [FRONT]) && AllocateOutputStep(Q16, Q17)
  {
    hide ClosedInputs, WriteStep, SwitchStep, FlushStep, Flushed;
    NewerFlushed();
    NewerIsInput();
    assert FRONT in [FRONT] && BACK in SPLIT[2];
    assert IsLargestKey([FRONT], FRONT.largest) && IsBoundary(BACK, FRONT.largest);
  }

  lemma NewerIsInput()
    ensures ClosedInputs(SPLIT, 1, [NEWER], [FRONT])
    ensures Inputs([NEWER], [FRONT]) == {Put(1.0, 5), Put(1.0, 3), Put(1.0, 1), Del(2.0, 4)}
  {
    assert [NEWER][0] == NEWER;
    assert IsKeyRange([NEWER], NEWER.smallest, NEWER.largest);
    assert Overlapping([FRONT, BACK], Some(1.0), Some(1.0)) == [FRONT] by {
      assert [FRONT][..0] == [] && Overlapping([FRONT], Some(1.0), Some(1.0)) == [FRONT];
      assert [FRONT, BACK][..1] == [FRONT];
    }
    assert CoversRange(SPLIT[2], [FRONT], 1.0, 1.0);
    EntriesOfOne(NEWER);
    EntriesOfOne(FRONT);
    assert FRONT.entries[0] == Put(1.0, 3) && FRONT.entries[1] == Put(1.0, 1) && FRONT.entries[2] == Del(2.0, 4);
    assert NEWER.entries[0] == Put(1.0, 5);
  }

  lemma UncoveringInstalled()
    ensures InstallStep(Q17, Q18, [MERGED])
  {
    hide ClosedInputs, MadeOf, Inputs, Entries, Replaced, DroppedOf, WriteStep, SwitchStep, FlushStep, Flushed;
    NewerFlushed();
    NewerIsInput();
    DeletionIsDropped();
    MergedIsMade();
    MergedReplaces();
  }

  lemma DeletionIsDropped()
    ensures DroppedOf(SPLIT, 1, {Put(1.0, 5), Put(1.0, 3), Put(1.0, 1), Del(2.0, 4)}, 5) ==
            {Put(1.0, 3), Put(1.0, 1), Del(2.0, 4)}
  {
    var I := {Put(1.0, 5), Put(1.0, 3), Put(1.0, 1), Del(2.0, 4)};
    assert Put(1.0, 5) in I && Hidden(I, 5, Put(1.0, 3)) && Hidden(I, 5, Put(1.0, 1));
    assert Obsolete(SPLIT, 1, 5, Del(2.0, 4));
  }

  lemma MergedIsMade()
    ensures MadeOf([MERGED], {Put(1.0, 5), Put(1.0, 3), Put(1.0, 1), Del(2.0, 4)}) && Entries([MERGED]) == {Put(1.0, 5)}
  {
    EntriesOfOne(MERGED);
  }

  lemma MergedReplaces()
    ensures Replaced(SPLIT, 1, [NEWER], [FRONT], [MERGED], UNCOVERED)
  {
    var edit := CompactionEdit(1, [NEWER], [FRONT], [MERGED]);
    assert [NEWER][0] == NEWER && [FRONT][0] == FRONT && edit.deletedFiles == {(1, 9), (2, 6)};
    assert edit.newFiles == [(2, MERGED)];
    forall l, f | 0 <= l < 7
      ensures f in UNCOVERED[l] <==> (f in SPLIT[l] && (l, f.number) !in edit.deletedFiles) || (l, f) in edit.newFiles
    {
    }
    forall l | 0 <= l < 7 ensures InFileOrder(UNCOVERED[l]) {
      assert UNCOVERED[l] == [] || UNCOVERED[l] == [MERGED, BACK];
    }
  }

  lemma ValueIsBack()
    ensures |Q18.history| == 5 && Read(Q18.history, 2.0, 5) == NotFound
    ensures Answers(Stored(Q18), 2.0, 5, Found([])) && !Answers(Stored(Q18), 2.0, 5, NotFound)
  {
    hide WriteStep, SwitchStep, FlushStep, Flushed;
    NewerFlushed();
    HistoryOfQ18();
    assert NewestWrite(Q18.history, 2.0, 5) == Some(Del(2.0, 4));
    StoredAtTheEnd();
    assert IsNewest(Stored(Q18), 2.0, 5, Put(2.0, 2));
  }

  lemma HistoryOfQ18()
    ensures Q18.history ==
            [Some(Put(1.0, 1)), Some(Put(2.0, 2)), Some(Put(1.0, 3)), Some(Del(2.0, 4)), Some(Put(1.0, 5))]
  {
    assert Q18.history == [] + Somes(PAIR) + Somes(GONE) + Somes(AGAIN);
  }

  lemma StoredAtTheEnd()
    ensures Stored(Q18) == {Put(1.0, 5), Put(2.0, 2)}
  {
    hide Entries, WriteStep, SwitchStep, FlushStep, Flushed;
    NewerFlushed();
    EntriesOfTwo(MERGED, BACK);
    NoEntries();
    forall e ensures e in AllEntries(UNCOVERED) <==> e in Entries(UNCOVERED[2]) {
      assert forall l :: 0 <= l < 7 && l != 2 ==> UNCOVERED[l] == [];
    }
  }

  // ---------- A flush during a compaction may land between its inputs ----------

  // Levels 1 and 2 have a table of key 1 and a table of key 5 each.  Level 1 is compacted by hand.
  const ONE_OLD := Table(3, [Put(1.0, 1)])
  const FIVE_OLD := Table(5, [Put(5.0, 2)])
  const ONE := Table(7, [Put(1.0, 3)])
  const FIVE := Table(9, [Put(5.0, 4)])
  const JOINED := Table(10, [Put(1.0, 3), Put(5.0, 4)])
  const THREE := Table(12, [Put(3.0, 5)])

  const ONE_IN_2: Levels := [[], [], [ONE_OLD], [], [], [], []]
  const BOTH_IN_2: Levels := [[], [], [ONE_OLD, FIVE_OLD], [], [], [], []]
  const ONE_IN_1: Levels := [[], [ONE], [ONE_OLD, FIVE_OLD], [], [], [], []]
  const BEFORE_FLUSH: Levels := [[], [ONE, FIVE], [ONE_OLD, FIVE_OLD], [], [], [], []]
  const AFTER_FLUSH: Levels := [[], [ONE, FIVE], [ONE_OLD, THREE, FIVE_OLD], [], [], [], []]
  const AFTER_INSTALL: Levels := [[], [], [JOINED, THREE], [], [], [], []]

  const JOINING := Job(1, [ONE, FIVE], [ONE_OLD, FIVE_OLD], 4, BEFORE_FLUSH, 4)

  const S0 := Q0
  const S1 := Logged(S0, [Put(1.0, 1)], [Put(1.0, 1)])
  const S2 := Switched(S1)
  const S3 := Flushed(S0, [Put(1.0, 1)], ONE_IN_2)
  const S4 := Logged(S3, [Put(5.0, 2)], [Put(5.0, 2)])
  const S5 := Switched(S4)
  const S6 := Flushed(S3, [Put(5.0, 2)], BOTH_IN_2)
  const S7 := Logged(S6, [Put(1.0, 3)], [Put(1.0, 3)])
  const S8 := Switched(S7)
  const S9 := Flushed(S6, [Put(1.0, 3)], ONE_IN_1)
  const S10 := Logged(S9, [Put(5.0, 4)], [Put(5.0, 4)])
  const S11 := Switched(S10)
  const S12 := Flushed(S9, [Put(5.0, 4)], BEFORE_FLUSH)
  const S13 := S12.(job := Some(JOINING))
  const S14 := S13.(nextFile := 11, pendingOutputs := {10})
  const S15 := Logged(S14, [Put(3.0, 5)], [Put(3.0, 5)])
  const S16 := Switched(S15)
  const S17 := Flushed(S14, [Put(3.0, 5)], AFTER_FLUSH)
  const S18 := S17.(version := AFTER_INSTALL, job := None, pendingOutputs := {})

  // A memtable is flushed while level 1 is being compacted into one file.  No file meets its range down
  // to level 2, so that is where it goes, although the pending output spans it.  Once the output is
  // installed level 2 overlaps itself: a lookup of key 3 ends in the output and misses the key, which the
  // history has.
  lemma FlushIntoPendingOutput()
    ensures IsRun([S0, S1, S2, S3, S4, S5, S6, S7, S8, S9, S10, S11, S12, S13, S14, S15, S16],
                  [Write([Put(1.0, 1)], false), Switch, Flush(ONE_OLD, 2), Write([Put(5.0, 2)], false), Switch,
                   Flush(FIVE_OLD, 2), Write([Put(1.0, 3)], false), Switch, Flush(ONE, 1),
                   Write([Put(5.0, 4)], false), Switch, Flush(FIVE, 1), StartCompaction(JOINING), AllocateOutput,
                   Write([Put(3.0, 5)], false), Switch])
    ensures FlushAnywhere(S16, S17, THREE, 2) && !FlushApart(S16, THREE, 2)
    ensures InstallStep(S17, S18, [JOINED])
    ensures !Disjoint(S18.version[2]) && !ApartPair(THREE, JOINED)
    ensures |S18.history| == 5 && Read(S18.history, 3.0, 5) == Found([])
    ensures S18.mem == [] && S18.imm == None && S18.version[0] == []
    ensures forall l :: 0 < l < NUM_LEVELS ==> ValidFiles(S18.version[l]) && LookInLevel(S18.version[l], 3.0, 5) == None
  {
    hide WriteStep, StartCompactionStep, AllocateOutputStep, SwitchStep, FlushStep, FlushAnywhere, FlushApart,
         InstallStep, LookInLevel, Read, Disjoint, Idle, Logged, Switched, Flushed;
    OldTables();
    NewOne();
    NewFive();
    JoiningStarts();
    ThreeFlushed();
    OutputIsInstalled();
    LookupMisses();
  }

  lemma InOrder(v: Levels, a: Level, b: Level)
    requires v == [[], a, b, [], [], [], []] && InFileOrder(a) && InFileOrder(b)
    ensures forall l :: 0 <= l < 7 ==> InFileOrder(v[l])
  {
    forall l | 0 <= l < 7 ensures v[l] == [] || v[l] == a || v[l] == b {
    }
  }

  lemma OldTables()
    ensures Init(S0) && WriteStep(S0, S1, [Put(1.0, 1)], false) && SwitchStep(S1, S2) && FlushStep(S2, S3, ONE_OLD, 2)
    ensures WriteStep(S3, S4, [Put(5.0, 2)], false) && SwitchStep(S4, S5) && FlushStep(S5, S6, FIVE_OLD, 2)
    ensures Idle(S6) && |S6.history| == 2 && S6.version == BOTH_IN_2 && S6.nextFile == 6 && S6.job == None
    ensures S6.snapshots == [] && S6.pendingOutputs == {}
  {
    hide Applied;
    TableAdded(NO_FILES, ONE_OLD, 2, [ONE_OLD]);
    assert NO_FILES[2 := [ONE_OLD]] == ONE_IN_2;
    WriteAndFlush(S0, [Put(1.0, 1)], ONE_OLD, 2, ONE_IN_2);
    InOrder(ONE_IN_2, [], [ONE_OLD]);
    TableAdded(ONE_IN_2, FIVE_OLD, 2, [ONE_OLD, FIVE_OLD]);
    assert ONE_IN_2[2 := [ONE_OLD, FIVE_OLD]] == BOTH_IN_2;
    WriteAndFlush(S3, [Put(5.0, 2)], FIVE_OLD, 2, BOTH_IN_2);
  }

  lemma NewOne()
    ensures WriteStep(S6, S7, [Put(1.0, 3)], false) && SwitchStep(S7, S8) && FlushStep(S8, S9, ONE, 1)
    ensures Idle(S9) && |S9.history| == 3 && S9.version == ONE_IN_1 && S9.nextFile == 8 && S9.job == None
    ensures S9.snapshots == [] && S9.pendingOutputs == {}
  {
    hide Applied, WriteStep, SwitchStep;
    OldTables();
    InOrder(BOTH_IN_2, [], [ONE_OLD, FIVE_OLD]);
    TableAdded(BOTH_IN_2, ONE, 1, [ONE]);
    assert BOTH_IN_2[1 := [ONE]] == ONE_IN_1;
    WriteAndFlush(S6, [Put(1.0, 3)], ONE, 1, ONE_IN_1);
  }

  lemma NewFive()
    ensures WriteStep(S9, S10, [Put(5.0, 4)], false) && SwitchStep(S10, S11) && FlushStep(S11, S12, FIVE, 1)
    ensures Idle(S12) && |S12.history| == 4 == S12.flushed && S12.version == BEFORE_FLUSH && S12.nextFile == 10
    ensures S12.snapshots == [] && S12.pendingOutputs == {} && S12.job == None
  {
    hide Applied, WriteStep, SwitchStep;
    NewOne();
    InOrder(ONE_IN_1, [ONE], [ONE_OLD, FIVE_OLD]);
    TableAdded(ONE_IN_1, FIVE, 1, [ONE, FIVE]);
    assert ONE_IN_1[1 := [ONE, FIVE]] == BEFORE_FLUSH;
    WriteAndFlush(S9, [Put(5.0, 4)], FIVE, 1, BEFORE_FLUSH);
  }

  lemma JoiningStarts()
    ensures StartCompactionStep(S12, S13, JOINING) && AllocateOutputStep(S13, S14)
    ensures Idle(S14) && |S14.history| == 4 && S14.version == BEFORE_FLUSH && S14.nextFile == 11
    ensures S14.job == Some(JOINING) && S14.pendingOutputs == {10} && S14.snapshots == []
  {
    hide ClosedInputs, WriteStep, SwitchStep, FlushStep, Flushed, NoBoundaryLeft;
    NewFive();
    BothAreInputs();
  }

  lemma BothAreInputs()
    ensures ClosedInputs(BEFORE_FLUSH, 1, [ONE, FIVE], [ONE_OLD, FIVE_OLD])
    ensures NextLevelClosed(BEFORE_FLUSH, 1, [ONE_OLD, FIVE_OLD])
    ensures Inputs([ONE, FIVE], [ONE_OLD, FIVE_OLD]) == {Put(1.0, 1), Put(5.0, 2), Put(1.0, 3), Put(5.0, 4)}
  {
    hide Entries, CoversRange;
    var files, older := [ONE, FIVE], [ONE_OLD, FIVE_OLD];
    assert files[0] == ONE && files[1] == FIVE && older[0] == ONE_OLD && older[1] == FIVE_OLD;
    assert IsKeyRange(files, ONE.smallest, FIVE.largest);
    OlderAreCovered();
    assert IsLargestKey(older, FIVE_OLD.largest);
    EntriesOfTwo(ONE, FIVE);
    EntriesOfTwo(ONE_OLD, FIVE_OLD);
  }

  lemma OlderAreCovered()
    ensures CoversRange(BEFORE_FLUSH[2], [ONE_OLD, FIVE_OLD], 1.0, 5.0)
  {
    var older := [ONE_OLD, FIVE_OLD];
    assert [ONE_OLD][..0] == [] && Overlapping([ONE_OLD], Some(1.0), Some(5.0)) == [ONE_OLD];
    assert older[..1] == [ONE_OLD];
  }

  lemma ThreeFlushed()
    ensures WriteStep(S14, S15, [Put(3.0, 5)], false) && SwitchStep(S15, S16)
    ensures FlushAnywhere(S16, S17, THREE, 2) && !FlushApart(S16, THREE, 2)
    ensures |S17.history| == 5 && S17.version == AFTER_FLUSH && S17.job == Some(JOINING) && S17.mem == []
    ensures S17.imm == None && S17.pendingOutputs == {10}
  {
    hide Applied, WriteStep, SwitchStep, StartCompactionStep, AllocateOutputStep, FlushAnywhere;
    JoiningStarts();
    InOrder(BEFORE_FLUSH, [ONE, FIVE], [ONE_OLD, FIVE_OLD]);
    TableAdded(BEFORE_FLUSH, THREE, 2, [ONE_OLD, THREE, FIVE_OLD]);
    assert BEFORE_FLUSH[2 := [ONE_OLD, THREE, FIVE_OLD]] == AFTER_FLUSH;
    WriteAndFlush(S14, [Put(3.0, 5)], THREE, 2, AFTER_FLUSH);
    var inputs := JOINING.inputs0 + JOINING.inputs1;
    assert inputs[0] == ONE && inputs[1] == FIVE;
  }

  lemma OutputIsInstalled()
    ensures InstallStep(S17, S18, [JOINED])
    ensures !Disjoint(AFTER_INSTALL[2]) && !ApartPair(THREE, JOINED)
  {
    hide ClosedInputs, MadeOf, Inputs, Entries, Replaced, DroppedOf, WriteStep, SwitchStep, FlushAnywhere, FlushApart,
         NextLevelClosed, Flushed;
    ThreeFlushed();
    BothAreInputs();
    OlderDropped();
    JoinedIsMade();
    OutputReplaces();
    LevelOverlaps();
  }

  lemma LevelOverlaps()
    ensures !Disjoint(AFTER_INSTALL[2]) && !ApartPair(THREE, JOINED)
  {
    var files := AFTER_INSTALL[2];
    assert files[0] == JOINED && files[1] == THREE;
    assert !JOINED.largest.Before(THREE.smallest);
  }

  lemma OlderDropped()
    ensures DroppedOf(BEFORE_FLUSH, 1, {Put(1.0, 1), Put(5.0, 2), Put(1.0, 3), Put(5.0, 4)}, 4) ==
            {Put(1.0, 1), Put(5.0, 2)}
  {
    var I := {Put(1.0, 1), Put(5.0, 2), Put(1.0, 3), Put(5.0, 4)};
    assert Put(1.0, 3) in I && Hidden(I, 4, Put(1.0, 1));
    assert Put(5.0, 4) in I && Hidden(I, 4, Put(5.0, 2));
  }

  lemma JoinedIsMade()
    ensures MadeOf([JOINED], {Put(1.0, 1), Put(5.0, 2), Put(1.0, 3), Put(5.0, 4)})
    ensures Entries([JOINED]) == {Put(1.0, 3), Put(5.0, 4)}
  {
    EntriesOfOne(JOINED);
    assert JOINED.entries[0] == Put(1.0, 3) && JOINED.entries[1] == Put(5.0, 4);
  }

  lemma OutputReplaces()
    ensures Replaced(AFTER_FLUSH, 1, [ONE, FIVE], [ONE_OLD, FIVE_OLD], [JOINED], AFTER_INSTALL)
  {
    var edit := CompactionEdit(1, [ONE, FIVE], [ONE_OLD, FIVE_OLD], [JOINED]);
    assert [ONE, FIVE][0] == ONE && [ONE, FIVE][1] == FIVE;
    assert [ONE_OLD, FIVE_OLD][0] == ONE_OLD && [ONE_OLD, FIVE_OLD][1] == FIVE_OLD;
    assert edit.deletedFiles == {(1, 7), (1, 9), (2, 3), (2, 5)};
    assert edit.newFiles == [(2, JOINED)];
    forall l, f | 0 <= l < 7
      ensures f in AFTER_INSTALL[l] <==>
                (f in AFTER_FLUSH[l] && (l, f.number) !in edit.deletedFiles) || (l, f) in edit.newFiles
    {
    }
    InOrder(AFTER_INSTALL, [], [JOINED, THREE]);
  }

  // The binary search ends on the output, whose largest key is past key 3; there is no key 3 in it.
  lemma LookupMisses()
    ensures |S18.history| == 5 && Read(S18.history, 3.0, 5) == Found([])
    ensures forall l :: 0 < l < NUM_LEVELS ==>
              ValidFiles(AFTER_INSTALL[l]) && LookInLevel(AFTER_INSTALL[l], 3.0, 5) == None
  {
    hide WriteStep, SwitchStep, FlushAnywhere, FlushApart, Flushed, LookInLevel;
    ThreeFlushed();
    LastIsThree();
    assert NewestWrite(S18.history, 3.0, 5) == Some(Put(3.0, 5));
    SearchEndsInJoined();
    forall l | 0 < l < NUM_LEVELS ensures AFTER_INSTALL[l] == [] || l == 2 {
    }
    NothingInNoFiles();
  }

  lemma LastIsThree()
    ensures |S18.history| == 5 && S18.history[4] == Some(Put(3.0, 5))
  {
    assert S18.history == S14.history + Somes([Put(3.0, 5)]);
    hide Flushed;
    hide WriteStep, SwitchStep, FlushAnywhere, FlushApart;
    ThreeFlushed();
  }

  lemma NothingInNoFiles()
    ensures ValidFiles([]) && LookInLevel([], 3.0, 5) == None
  {
  }

  lemma SearchEndsInJoined()
    ensures ValidFiles(AFTER_INSTALL[2]) && LookInLevel(AFTER_INSTALL[2], 3.0, 5) == None
  {
    var files := AFTER_INSTALL[2];
    assert ValidFile(JOINED) && ValidFile(THREE);
    var key := LookupKey(3.0, 5);
    assert BinarySearch(files, key, 0, 2) == BinarySearch(files, key, 0, 1) == BinarySearch(files, key, 0, 0) == 0;
  }
}
