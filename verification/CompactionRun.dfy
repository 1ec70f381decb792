/** Picking a compaction and carrying it out (db/version_set.cc, PickCompaction, CompactRange and
    MakeInputIterator; db/db_impl.cc, DoCompactionWork). */
module CompactionRun {
  import opened Dbformat
  import opened History
  import opened Version
  import opened CompactionInputs
  import opened CompactionWork
  import opened Merger
  import opened Lsm
  import opened Jobs
  import opened DropRule
  import opened Batch

  // ---------- Picking ----------

  // Where a level's last compaction ended its next one begins: at the first file past the pointer, or
  // at the first of all if there is none.
  ghost predicate IsNext(files: Level, compactPointer: Option<InternalKey>, i: nat)
    requires i < |files|
  {
    match compactPointer
    case None => i == 0
    case Some(p) =>
      || (p.Before(files[i].largest) && forall j :: 0 <= j < i ==> !p.Before(files[j].largest))
      || (i == 0 && forall j :: 0 <= j < |files| ==> !p.Before(files[j].largest))
  }

  // The file itself; in level 0 all files of the least closed range around it.
  ghost predicate IsPicked(v: Levels, level: nat, f: FileMetaData, chosen: Level)
    requires level < |v|
  {
    && f in chosen
    && if level == 0 then TakenBetween(v, 0, f.smallest.user, f.largest.user, chosen) else chosen == [f]
  }

  // PickCompaction: in a level with too much data the first file past the compact pointer, or the first
  // of all; else the file that was charged with too many seeks; in level 0 with everything that
  // overlaps it.
  method PickCompaction(v: Levels, tooLarge: Option<nat>, compactPointer: Option<InternalKey>,
                        fileToCompact: Option<(nat, FileMetaData)>)
    returns (level: nat, chosen: Level)
    requires ValidVersion(v)
    requires tooLarge.Some? ==> tooLarge.value + 1 < |v| && v[tooLarge.value] != []
    requires fileToCompact.Some? ==> CanBeCompacted(v, fileToCompact.value)
    ensures chosen == [] <==> tooLarge.None? && fileToCompact.None?
    ensures chosen != [] ==> level + 1 < |v| && Pickable(v, level, chosen)
    ensures NoGaps(chosen)
    ensures tooLarge.Some? ==> level == tooLarge.value
    ensures tooLarge.Some? ==>
              exists i :: 0 <= i < |v[level]| && IsNext(v[level], compactPointer, i) &&
                          IsPicked(v, level, v[level][i], chosen)
    ensures tooLarge.None? && fileToCompact.Some? ==>
              level == fileToCompact.value.0 && IsPicked(v, level, fileToCompact.value.1, chosen)
  {
    level, chosen := 0, [];
    ghost var first := 0;
    if tooLarge.Some? {
      level := tooLarge.value;
      for i := 0 to |v[level]|
        invariant chosen == []
        invariant compactPointer.None? ==> i == 0
        invariant compactPointer.Some? ==>
                    forall j :: 0 <= j < i ==> !compactPointer.value.Before(v[level][j].largest)
      {
        var f := v[level][i];
        if compactPointer.None? || compactPointer.value.Before(f.largest) {
          chosen, first := [f], i;
          break;
        }
      }
      if chosen == [] {
        chosen := [v[level][0]];
      }
      assert IsNext(v[level], compactPointer, first) && chosen == [v[level][first]];
    } else if fileToCompact.Some? {
      level := fileToCompact.value.0;
      chosen := [fileToCompact.value.1];
    } else {
      return;
    }
    assert chosen[0] in v[level] && ValidFile(chosen[0]);
    OneHasNoGaps(chosen[0]);
    if level == 0 {
      var low, high := GetRange(chosen);
      ghost var f := chosen[0];
      FileEndsAfterStart(f);
      chosen := OverlappingInputs(v, 0, Some(low.user), Some(high.user));
      assert f in chosen;
      AroundOneFile(v, f, low, high, chosen);
    } else {
      OneFileIsConvex(v[level], chosen[0]);
    }
  }

  lemma AroundOneFile(v: Levels, f: FileMetaData, low: InternalKey, high: InternalKey, chosen: Level)
    requires ValidVersion(v) && IsKeyRange([f], low, high) && low.user <= high.user && f in chosen
    requires exists b, e :: IsClosure(v[0], Some(low.user), Some(high.user), b, e) && chosen == Overlapping(v[0], b, e)
    ensures NoGaps(chosen)
  {
    hide NoGaps, IsClosure;
    var b, e :| IsClosure(v[0], Some(low.user), Some(high.user), b, e) && chosen == Overlapping(v[0], b, e);
    OneHasNoGaps(f);
    ClosureHasNoGaps(v[0], low, high, b, e, [f]);
    SameFilesNoGaps([f] + chosen, chosen);
  }

  lemma OneFileIsConvex(files: Level, f: FileMetaData)
    requires Disjoint(files) && f in files
    ensures Convex(files, [f])
  {
    forall g | g in files && g !in [f] ensures Apart(g, [f]) {
      DisjointPair(files, f, g);
    }
  }

  // CompactRange: the files in the range, in level 0 in the least closed range around it; above level 0
  // only as many as it takes to reach the limit.
  method CompactRange(v: Levels, level: nat, begin: Option<UserKey>, end: Option<UserKey>, limit: nat)
    returns (chosen: Level)
    requires ValidVersion(v) && level + 1 < |v|
    ensures chosen != [] ==> Pickable(v, level, chosen)
    ensures chosen == [] ==> forall f :: f in v[level] ==> !Overlaps(f, begin, end)
    ensures level == 0 ==> exists b, e :: IsClosure(v[0], begin, end, b, e) && chosen == Overlapping(v[0], b, e)
    ensures level > 0 ==>
              && chosen <= Overlapping(v[level], begin, end)
              && (chosen == Overlapping(v[level], begin, end) || TotalFileSize(chosen) >= limit)
              && forall k :: 0 < k < |chosen| ==> TotalFileSize(chosen[..k]) < limit
  {
    hide ValidVersion, Pickable, Overlapping, IsClosure, TotalFileSize;
    chosen := OverlappingInputs(v, level, begin, end);
    if level > 0 {
      var total := 0;
      ghost var all := chosen;
      NoSize();
      assert all[..0] == [];
      for i := 0 to |chosen|
        invariant chosen == all && total == TotalFileSize(all[..i])
        invariant forall k :: 0 < k <= i ==> TotalFileSize(all[..k]) < limit
      {
        OneFileMore(all, i);
        total := total + chosen[i].fileSize;
        if total >= limit {
          PrefixIsPickable(v, level, begin, end, i + 1);
          chosen := chosen[..i + 1];
          assert forall k :: 0 < k < i + 1 ==> chosen[..k] == all[..k];
          return;
        }
      }
      assert forall k :: 0 < k < |chosen| ==> TotalFileSize(chosen[..k]) < limit;
    }
  }

  lemma NoSize()
    ensures TotalFileSize([]) == 0
  {
  }

  lemma PrefixIsPickable(v: Levels, level: nat, begin: Option<UserKey>, end: Option<UserKey>, n: nat)
    requires ValidVersion(v) && 0 < level < |v| && 0 < n <= |Overlapping(v[level], begin, end)|
    ensures Pickable(v, level, Overlapping(v[level], begin, end)[..n])
  {
    OverlappingInOrder(v[level], begin, end);
    PrefixIsConvex(v[level], begin, end, n);
  }

  lemma OneFileMore(files: Level, i: nat)
    requires i < |files|
    ensures TotalFileSize(files[..i + 1]) == TotalFileSize(files[..i]) + files[i].fileSize
  {
    assert files[..i + 1] == files[..i] + [files[i]];
    SizeOfMore(files[..i], files[i]);
  }

  lemma {:induction false} SizeOfMore(files: Level, f: FileMetaData)
    ensures TotalFileSize(files + [f]) == TotalFileSize(files) + f.fileSize
  {
    if files == [] {
      assert [f][1..] == [] && files + [f] == [f];
    } else {
      assert (files + [f])[1..] == files[1..] + [f];
      SizeOfMore(files[1..], f);
    }
  }

  // ---------- MakeInputIterator ----------

  // The files' entries as one list.
  function Concatenated(files: Level): seq<Entry> {
    if files == [] then [] else Concatenated(files[..|files| - 1]) + files[|files| - 1].entries
  }

  lemma {:induction false} ConcatenatedIsSorted(files: Level)
    requires ValidFiles(files) && Disjoint(files)
    ensures Sorted(Concatenated(files)) && ToSet(Concatenated(files)) == Entries(files)
  {
    hide InternalKey.Before, ValidFile;
    if files == [] {
    } else {
      var init, f := files[..|files| - 1], files[|files| - 1];
      ConcatenatedIsSorted(init);
      assert files == init + [f] && f in files;
      EntriesAppend(init, f);
      forall a, b | a in Concatenated(init) && b in f.entries ensures a.key.Before(b.key) {
        assert a in ToSet(Concatenated(init));
        var g :| g in init && a in g.entries;
        var j :| 0 <= j < |init| && init[j] == g;
        assert files[j].largest.Before(f.smallest);
        assert g in files;
        EntryInRange(g, a);
        EntryInRange(f, b);
        BeforeIsTotal(a.key, g.largest, f.smallest);
        BeforeIsTotal(a.key, f.smallest, b.key);
        assert a.key.Before(f.smallest);
      }
      FileIsSorted(f);
      SortedConcat(Concatenated(init), f.entries);
    }
  }

  lemma FileIsSorted(f: FileMetaData)
    requires ValidFile(f)
    ensures Sorted(f.entries)
  {
  }

  lemma SortedConcat(a: seq<Entry>, b: seq<Entry>)
    requires Sorted(a) && Sorted(b) && forall x, y :: x in a && y in b ==> x.key.Before(y.key)
    ensures Sorted(a + b) && ToSet(a + b) == ToSet(a) + ToSet(b)
  {
    hide InternalKey.Before;
  }

  function ListOfEach(files: Level): (r: seq<seq<Entry>>)
    ensures |r| == |files| && forall i :: 0 <= i < |r| ==> r[i] == files[i].entries
  {
    seq(|files|, i requires 0 <= i < |files| => files[i].entries)
  }

  // One list for each file of level 0, one for all files of another level.
  function InputLists(level: nat, inputs0: Level, inputs1: Level): seq<seq<Entry>> {
    (if level == 0 then ListOfEach(inputs0) else [Concatenated(inputs0)]) +
    (if inputs1 == [] then [] else [Concatenated(inputs1)])
  }

  // Two files of a version have no entry in common.
  lemma FilesShareNothing(v: Levels, l: nat, m: nat, f: FileMetaData, g: FileMetaData, e: Entry)
    requires ValidVersion(v) && l < |v| && m < |v| && f in v[l] && g in v[m] && (l != m || f != g)
    requires e in f.entries
    ensures e !in g.entries
  {
    LevelHasFile(v, l, f);
    LevelHasFile(v, m, g);
    assert e in FileEntries(f) && forall x :: x in g.entries ==> x in FileEntries(g);
    if l < m {
      LevelsInOrder(v, l, m);
    } else if m < l {
      LevelsInOrder(v, m, l);
    } else if l == 0 {
      if f.number == g.number {
        NumbersIdentify(v[0], f, g);
      }
      assert f.number > g.number ==> Newer(FileEntries(f), FileEntries(g));
      assert g.number > f.number ==> Newer(FileEntries(g), FileEntries(f));
    } else {
      DisjointPair(v[l], f, g);
      EntryInRange(f, e);
      forall x | x in g.entries ensures x.key != e.key {
        EntryInRange(g, x);
        BeforeIsTotal(f.largest, g.smallest, e.key);
        BeforeIsTotal(g.largest, f.smallest, e.key);
      }
    }
  }

  // The input file that an entry of list i comes from.
  lemma ListOrigin(level: nat, inputs0: Level, inputs1: Level, i: nat, e: Entry) returns (which: nat, f: FileMetaData)
    requires level > 0 ==> ValidFiles(inputs0) && Disjoint(inputs0)
    requires ValidFiles(inputs1) && Disjoint(inputs1)
    requires i < |InputLists(level, inputs0, inputs1)| && e in InputLists(level, inputs0, inputs1)[i]
    ensures which == (if i < (if level == 0 then |inputs0| else 1) then 0 else 1)
    ensures e in f.entries && f in (if which == 0 then inputs0 else inputs1)
    ensures level == 0 && which == 0 ==> f == inputs0[i]
    ensures which == 1 ==> i == if level == 0 then |inputs0| else 1
  {
    hide Concatenated, Disjoint, ValidFile;
    which := if i < (if level == 0 then |inputs0| else 1) then 0 else 1;
    if which == 0 && level == 0 {
      f := inputs0[i];
    } else {
      var files := if which == 0 then inputs0 else inputs1;
      ConcatenatedIsSorted(files);
      assert e in ToSet(Concatenated(files));
      f :| f in files && e in f.entries;
    }
  }

  lemma ListsAreApart(job: Job, i: nat, j: nat, e: Entry, x: Entry)
    requires ValidJob(job) && InputOrder(job.level, job.inputs0)
    requires ValidFiles(job.inputs0) && ValidFiles(job.inputs1) && Disjoint(job.inputs1)
    requires var lists := InputLists(job.level, job.inputs0, job.inputs1);
             i < |lists| && j < |lists| && i != j && e in lists[i] && x in lists[j]
    ensures e.key != x.key
  {
    hide ValidVersion, ClosedInputs, InputLists, Disjoint, ValidFile, DistinctSequences;
    var a, f := ListOrigin(job.level, job.inputs0, job.inputs1, i, e);
    var b, g := ListOrigin(job.level, job.inputs0, job.inputs1, j, x);
    JobFileIsTracked(job, f);
    JobFileIsTracked(job, g);
    JobLevels(job);
    if job.level == 0 && a == 0 && b == 0 {
      assert i < j ==> job.inputs0[i] != job.inputs0[j];
      assert j < i ==> job.inputs0[j] != job.inputs0[i];
    }
    FilesShareNothing(job.base, job.level + a, job.level + b, f, g, e);
    SameSequence(AllEntries(job.base), e, x);
  }

  lemma JobLevels(job: Job)
    requires ValidJob(job)
    ensures ValidVersion(job.base) && job.level + 1 < |job.base| && DistinctSequences(AllEntries(job.base))
  {
    hide ValidVersion, DistinctSequences;
  }

  lemma SameSequence(S: set<Entry>, e: Entry, x: Entry)
    requires DistinctSequences(S) && e in S && x in S
    ensures e.key == x.key ==> e == x
  {
  }

  lemma ListsCover(level: nat, inputs0: Level, inputs1: Level, e: Entry)
    requires ValidFiles(inputs0) && (level > 0 ==> Disjoint(inputs0))
    requires ValidFiles(inputs1) && Disjoint(inputs1)
    ensures var lists := InputLists(level, inputs0, inputs1);
            && (e in Inputs(inputs0, inputs1) <==> exists i :: 0 <= i < |lists| && e in lists[i])
            && forall i :: 0 <= i < |lists| ==> Sorted(lists[i])
  {
    hide Concatenated, Disjoint, InternalKey.Before;
    var lists := InputLists(level, inputs0, inputs1);
    ConcatenatedIsSorted(inputs1);
    if level > 0 {
      ConcatenatedIsSorted(inputs0);
    }
    if e in Inputs(inputs0, inputs1) {
      if e in Entries(inputs1) {
        assert e in ToSet(Concatenated(inputs1));
        assert inputs1 != [] && e in lists[|lists| - 1];
      } else if level == 0 {
        var f :| f in inputs0 && e in f.entries;
        var i :| 0 <= i < |inputs0| && inputs0[i] == f;
        assert e in lists[i];
      } else {
        assert e in ToSet(Concatenated(inputs0));
        assert e in lists[0];
      }
    }
    forall i | 0 <= i < |lists| ensures Sorted(lists[i]) && (e in lists[i] ==> e in Inputs(inputs0, inputs1)) {
      if level == 0 && i < |inputs0| {
        assert inputs0[i] in inputs0;
        assert ValidFile(inputs0[i]);
      } else {
        assert lists[i] == Concatenated(if i == 0 && level > 0 then inputs0 else inputs1);
        assert e in lists[i] ==> e in ToSet(lists[i]);
      }
    }
  }

  // A set of entries with distinct keys can be listed in order.
  lemma {:induction false} SortedListOf(S: set<Entry>) returns (es: seq<Entry>)
    requires forall a, b :: a in S && b in S && a.key == b.key ==> a == b
    ensures Sorted(es) && ToSet(es) == S
    decreases |S|
  {
    hide InternalKey.Before, Add;
    if S == {} {
      es := [];
    } else {
      var e :| e in S;
      var rest := SortedListOf(S - {e});
      forall x | x in rest ensures x.key != e.key {
        assert x in ToSet(rest);
      }
      AddKeepsSorted(rest, e);
      es := Add(rest, e);
    }
  }

  // The input lists of a job have a merge, and it lists the inputs.
  lemma InputsMerge(job: Job) returns (merged: seq<Entry>)
    requires ValidJob(job) && InputOrder(job.level, job.inputs0)
    ensures IsMerge(merged, InputLists(job.level, job.inputs0, job.inputs1))
    ensures ToSet(merged) == Inputs(job.inputs0, job.inputs1)
    ensures DistinctSequences(ToSet(merged))
  {
    hide ValidJob, InputLists, InputOrder, InternalKey.Before, Disjoint, ValidFile;
    var lists := InputLists(job.level, job.inputs0, job.inputs1);
    var I := Inputs(job.inputs0, job.inputs1);
    InputsInOrder(job);
    forall e | e in I ensures e in AllEntries(job.base) {
      InputIsOld(job, e);
    }
    JobLevels(job);
    merged := SortedListOf(I);
    forall e ensures e in merged <==> exists i :: 0 <= i < |lists| && e in lists[i] {
      assert e in merged <==> e in ToSet(merged);
      ListsCover(job.level, job.inputs0, job.inputs1, e);
    }
    forall i, j, e: Entry, x: Entry | 0 <= i < |lists| && 0 <= j < |lists| && i != j && e in lists[i] && x in lists[j]
      ensures e.key != x.key
    {
      ListsAreApart(job, i, j, e, x);
    }
    forall i | 0 <= i < |lists| ensures Sorted(lists[i]) {
      ListsCover(job.level, job.inputs0, job.inputs1, Entry(job.inputs0[0].smallest, []));
    }
  }

  lemma InputsInOrder(job: Job)
    requires ValidJob(job) && InputOrder(job.level, job.inputs0)
    ensures job.inputs0 != []
    ensures ValidFiles(job.inputs0) && (job.level > 0 ==> Disjoint(job.inputs0))
    ensures ValidFiles(job.inputs1) && Disjoint(job.inputs1)
  {
    hide ValidVersion, Disjoint;
    var low, high := JobRange(job);
    OverlappingInOrder(job.base[job.level + 1], Some(low), Some(high));
    forall g | g in job.inputs0 || g in job.inputs1 ensures ValidFile(g) {
      JobFileIsTracked(job, g);
    }
  }

  // ---------- Outputs ----------

  // The entry lists of the output files: in order, what is not dropped of the inputs.
  ghost predicate OutputsOf(job: Job, outputs: seq<seq<Entry>>) {
    && (forall i :: 0 <= i < |outputs| ==> outputs[i] != [])
    && Sorted(Flat(outputs))
    && var I := Inputs(job.inputs0, job.inputs1);
       forall e :: e in Flat(outputs) <==> e in I && !Dropped(job.base, job.level, I, job.smallest, e)
  }

  // What the compacting thread holds on to.
  datatype CompactionState = CompactionState(
    level: nat, inputs0: Level, inputs1: Level, smallestSnapshot: nat, inputVersion: Levels)
  {
    ghost function AsJob(flushed: nat): Job { Job(level, inputs0, inputs1, smallestSnapshot, inputVersion, flushed) }
  }

  // The unlocked part of a compaction.
  method RunCompaction(compact: CompactionState, ghost job: Job, stopBefore: nat -> bool, full: nat -> bool)
    returns (outputs: seq<seq<Entry>>)
    requires job == compact.AsJob(job.flushed)
    requires ValidJob(job) && InputOrder(job.level, job.inputs0)
    requires job.smallest < MAX_SEQUENCE_NUMBER
    ensures OutputsOf(job, outputs)
  {
    hide ValidJob, InputLists, InputOrder, InternalKey.Before, Dropped, Inputs, Flat, ValidVersion, Compaction.Valid,
         Compaction.Behind, MergingIterator.Valid;
    JobLevels(job);
    VersionLevels(job.base);
    ghost var merged := InputsMerge(job);
    var input := new MergingIterator(InputLists(compact.level, compact.inputs0, compact.inputs1), merged);
    var c := new Compaction(compact.inputVersion, compact.level);
    outputs := DoCompactionWork(c, input, compact.smallestSnapshot, stopBefore, full);
    assert merged[..|merged|] == merged;
    assert forall e :: e in merged <==> e in ToSet(merged);
    assert forall i :: 0 <= i < |outputs| ==> outputs[i] in outputs;
  }

  lemma VersionLevels(v: Levels)
    requires ValidVersion(v)
    ensures |v| == NUM_LEVELS
  {
  }

  // The table file that holds the entries.
  function BuildTable(number: nat, fileSize: nat, entries: seq<Entry>): (f: FileMetaData)
    requires entries != []
    ensures f.number == number && f.entries == entries
    ensures Sorted(entries) ==> ValidFile(f)
  {
    FileMetaData(number, fileSize, entries[0].key, entries[|entries| - 1].key, entries)
  }

  function OutputFiles(outputs: seq<seq<Entry>>, numbers: seq<nat>, fileSizes: seq<nat>): (files: Level)
    requires |numbers| == |fileSizes| == |outputs| && forall i :: 0 <= i < |outputs| ==> outputs[i] != []
    ensures |files| == |outputs|
    ensures forall i :: 0 <= i < |files| ==> files[i] == BuildTable(numbers[i], fileSizes[i], outputs[i])
  {
    seq(|outputs|, i requires 0 <= i < |outputs| => BuildTable(numbers[i], fileSizes[i], outputs[i]))
  }

  lemma {:induction false} PartsOfSorted(outputs: seq<seq<Entry>>, i: nat)
    requires Sorted(Flat(outputs)) && i < |outputs|
    ensures Sorted(outputs[i])
    ensures forall e :: e in outputs[i] ==> e in Flat(outputs)
    ensures forall j, a, b :: i < j < |outputs| && a in outputs[i] && b in outputs[j] ==> a.key.Before(b.key)
    decreases |outputs|
  {
    hide InternalKey.Before;
    var n := |outputs| - 1;
    var init, last := outputs[..n], outputs[n];
    ConcatIsSorted(Flat(init), last);
    if i < n {
      PartsOfSorted(init, i);
      forall j, a, b | i < j < |outputs| && a in outputs[i] && b in outputs[j] ensures a.key.Before(b.key) {
        if j < n {
          assert init[j] == outputs[j];
        } else {
          assert a in Flat(init);
        }
      }
    }
  }

  lemma ConcatIsSorted(a: seq<Entry>, b: seq<Entry>)
    requires Sorted(a + b)
    ensures Sorted(a) && Sorted(b)
    ensures forall x, y :: x in a && y in b ==> x.key.Before(y.key)
  {
    hide InternalKey.Before;
    forall i, j | 0 <= i < j < |a| ensures a[i].key.Before(a[j].key) {
      assert (a + b)[i] == a[i] && (a + b)[j] == a[j];
    }
    forall i, j | 0 <= i < j < |b| ensures b[i].key.Before(b[j].key) {
      assert (a + b)[|a| + i] == b[i] && (a + b)[|a| + j] == b[j];
    }
    forall x, y | x in a && y in b ensures x.key.Before(y.key) {
      var i :| 0 <= i < |a| && a[i] == x;
      var j :| 0 <= j < |b| && b[j] == y;
      assert (a + b)[i] == x && (a + b)[|a| + j] == y;
    }
  }

  lemma {:induction false} ConcatHas(outputs: seq<seq<Entry>>, e: Entry) returns (i: nat)
    requires e in Flat(outputs)
    ensures i < |outputs| && e in outputs[i]
  {
    var n := |outputs| - 1;
    if e in outputs[n] {
      i := n;
    } else {
      i := ConcatHas(outputs[..n], e);
    }
  }

  // The output files are what InstallCompactionResults needs: in order, apart from each other, and with
  // exactly the entries that are not dropped.
  lemma OutputsAreMade(job: Job, outputs: seq<seq<Entry>>, numbers: seq<nat>, fileSizes: seq<nat>)
    requires OutputsOf(job, outputs) && |numbers| == |fileSizes| == |outputs|
    ensures var I := Inputs(job.inputs0, job.inputs1);
            var files := OutputFiles(outputs, numbers, fileSizes);
            MadeOf(files, I) && Entries(files) == I - DroppedOf(job.base, job.level, I, job.smallest)
  {
    hide Inputs, Dropped, InternalKey.Before, Flat, Sorted;
    var I := Inputs(job.inputs0, job.inputs1);
    var files := OutputFiles(outputs, numbers, fileSizes);
    forall i | 0 <= i < |files|
      ensures ValidFile(files[i]) && files[i].entries == outputs[i]
      ensures forall e :: e in outputs[i] ==> e in Flat(outputs)
      ensures forall j :: i < j < |files| ==> files[i].largest.Before(files[j].smallest)
    {
      PartsOfSorted(outputs, i);
      forall j | i < j < |files| ensures files[i].largest.Before(files[j].smallest) {
        assert outputs[i][|outputs[i]| - 1] in outputs[i] && outputs[j][0] in outputs[j];
      }
    }
    forall e | e in Flat(outputs) ensures e in Entries(files) {
      var i := ConcatHas(outputs, e);
      assert files[i] in files;
    }
  }
}
