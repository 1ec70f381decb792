/** The child iterators of an iteration over the whole database (db/db_impl.cc, NewInternalIterator;
    db/version_set.cc, AddIterators): together they show exactly what the history reads. */
module Iteration {
  import opened Dbformat
  import opened History
  import opened Version
  import opened CompactionRun
  import opened Lsm
  import opened Merger
  import opened Engine
  import DbIter
  import EngineSafety
  import TwoLevel

  // The lists of the first n levels: one for each file of level 0, one for each other level with files.
  function TableLists(v: Levels, n: nat): seq<seq<Entry>>
    requires 0 < n <= |v|
  {
    if n == 1 then ListOfEach(v[0])
    else TableLists(v, n - 1) + (if v[n - 1] == [] then [] else [Concatenated(v[n - 1])])
  }

  function MemLists(mem: seq<Entry>, imm: Option<seq<Entry>>): seq<seq<Entry>> {
    [mem] + (if imm.Some? then [imm.value] else [])
  }

  method AddIterators(v: Levels, before: seq<seq<Entry>>) returns (lists: seq<seq<Entry>>)
    requires |v| == NUM_LEVELS
    ensures lists == before + TableLists(v, NUM_LEVELS)
  {
    lists := before;
    for i := 0 to |v[0]|
      invariant lists == before + ListOfEach(v[0])[..i]
    {
      assert ListOfEach(v[0])[..i + 1] == ListOfEach(v[0])[..i] + [v[0][i].entries];
      lists := lists + [v[0][i].entries];
    }
    for level := 1 to NUM_LEVELS
      invariant lists == before + TableLists(v, level)
    {
      if v[level] != [] {
        lists := lists + [Concatenated(v[level])];
      }
    }
  }

  // LevelFileNumIterator: the largest keys of a level's files.
  function LevelIndex(files: Level): (r: seq<Entry>)
    ensures |r| == |files| && forall i :: 0 <= i < |r| ==> r[i].key == files[i].largest
  {
    seq(|files|, i requires 0 <= i < |files| => Entry(files[i].largest, []))
  }

  // A two-level iterator over a level's files, through their largest keys, goes through them all.
  lemma LevelIsIndexed(files: Level)
    requires ValidFiles(files) && Disjoint(files)
    ensures TwoLevel.Indexes(LevelIndex(files), ListOfEach(files))
    ensures Flat(ListOfEach(files)) == Concatenated(files)
  {
    hide InternalKey.Before, ValidFile, ValidFiles, Concatenated;
    FlatIsConcatenated(files);
    forall i, j, e | 0 <= i <= j < |files| && e in files[j].entries
      ensures if i == j then !files[i].largest.Before(e.key) else files[i].largest.Before(e.key)
    {
      FileIsValid(files, j);
      EntryInRange(files[j], e);
      BeforeIsTotal(e.key, files[j].largest, e.key);
      BeforeIsTotal(files[i].largest, files[j].smallest, e.key);
    }
  }

  lemma FileIsValid(files: Level, i: nat)
    requires ValidFiles(files) && i < |files|
    ensures ValidFile(files[i])
  {
  }

  lemma {:induction false} FlatIsConcatenated(files: Level)
    ensures Flat(ListOfEach(files)) == Concatenated(files)
  {
    if files != [] {
      var last := |files| - 1;
      assert ListOfEach(files)[..last] == ListOfEach(files[..last]);
      FlatIsConcatenated(files[..last]);
    }
  }

  // ---------- The lists split the stored entries ----------

  // Sorted lists without a common entry, together the set S.
  ghost predicate Splits(lists: seq<seq<Entry>>, S: set<Entry>) {
    && (forall i :: 0 <= i < |lists| ==> Sorted(lists[i]))
    && (forall i, e :: 0 <= i < |lists| && e in lists[i] ==> e in S)
    && (forall e :: e in S ==> exists i :: 0 <= i < |lists| && e in lists[i])
    && forall i, j, e :: 0 <= i < |lists| && 0 <= j < |lists| && e in lists[i] && e in lists[j] ==> i == j
  }

  lemma SplitsConcat(a: seq<seq<Entry>>, S: set<Entry>, b: seq<seq<Entry>>, T: set<Entry>)
    requires Splits(a, S) && Splits(b, T) && S !! T
    ensures Splits(a + b, S + T)
  {
    hide Sorted;
    var c := a + b;
    forall e | e in S + T ensures exists i :: 0 <= i < |c| && e in c[i] {
      if e in S {
        var i :| 0 <= i < |a| && e in a[i];
        assert e in c[i];
      } else {
        var i :| 0 <= i < |b| && e in b[i];
        assert e in c[|a| + i];
      }
    }
    forall i, e | 0 <= i < |c| && e in c[i] ensures if i < |a| then e in S && e in a[i] else e in T && e in b[i - |a|] {
    }
    forall i, j, e | 0 <= i < |c| && 0 <= j < |c| && e in c[i] && e in c[j] ensures i == j {
      assert i < |a| ==> e in S;
      assert j < |a| ==> e in S;
      assert i >= |a| ==> e in T;
      assert j >= |a| ==> e in T;
      if i < |a| {
        assert e in a[i] && e in a[j];
      } else {
        assert e in b[i - |a|] && e in b[j - |a|];
      }
    }
  }

  lemma SplitsOne(es: seq<Entry>)
    requires Sorted(es)
    ensures Splits([es], ToSet(es))
  {
    assert forall e :: e in ToSet(es) ==> e in [es][0];
  }

  lemma Level0Splits(v: Levels)
    requires ValidVersion(v)
    ensures Splits(ListOfEach(v[0]), Entries(v[0]))
  {
    hide ValidFiles, Disjoint, Level0Ordered, LevelsOrdered;
    var lists := ListOfEach(v[0]);
    forall i | 0 <= i < |lists| ensures Sorted(lists[i]) {
      FileOfVersion(v, 0, v[0][i]);
    }
    forall e | e in Entries(v[0]) ensures exists i :: 0 <= i < |lists| && e in lists[i] {
      var f :| f in v[0] && e in f.entries;
      var i :| 0 <= i < |v[0]| && v[0][i] == f;
      assert e in lists[i];
    }
    forall i, j, e | 0 <= i < |lists| && 0 <= j < |lists| && e in lists[i] && e in lists[j] ensures i == j {
      if i != j {
        DistinctPlaces(v, i, j);
        FilesShareNothing(v, 0, 0, v[0][i], v[0][j], e);
      }
    }
  }

  lemma FileOfVersion(v: Levels, l: nat, f: FileMetaData)
    requires ValidVersion(v) && l < |v| && f in v[l]
    ensures Sorted(f.entries)
  {
  }

  lemma DistinctPlaces(v: Levels, i: nat, j: nat)
    requires ValidVersion(v) && i < |v[0]| && j < |v[0]| && i != j
    ensures v[0][i] != v[0][j]
  {
  }

  // The entries of the first n levels.
  ghost function Upper(v: Levels, n: nat): set<Entry>
    requires n <= |v|
  {
    if n == 0 then {} else Upper(v, n - 1) + Entries(v[n - 1])
  }

  lemma {:induction false} UpperHas(v: Levels, n: nat, e: Entry)
    requires n <= |v|
    ensures e in Upper(v, n) <==> exists l :: 0 <= l < n && e in Entries(v[l])
  {
    hide Entries;
    if n > 0 {
      UpperHas(v, n - 1, e);
    }
  }

  lemma {:induction false} TablesSplit(v: Levels, n: nat)
    requires ValidVersion(v) && 0 < n <= |v|
    ensures Splits(TableLists(v, n), Upper(v, n))
  {
    hide ValidVersion, Splits, Entries;
    if n == 1 {
      Level0Splits(v);
      assert Upper(v, 1) == Upper(v, 0) + Entries(v[0]) == Entries(v[0]);
    } else {
      TablesSplit(v, n - 1);
      if v[n - 1] == [] {
        NoEntries();
        assert Upper(v, n) == Upper(v, n - 1);
        assert TableLists(v, n) == TableLists(v, n - 1);
      } else {
        LevelIsDisjoint(v, n - 1);
        ConcatenatedIsSorted(v[n - 1]);
        SplitsOne(Concatenated(v[n - 1]));
        LevelAdds(v, n - 1);
        SplitsConcat(TableLists(v, n - 1), Upper(v, n - 1), [Concatenated(v[n - 1])], Entries(v[n - 1]));
      }
    }
  }

  lemma LevelAdds(v: Levels, l: nat)
    requires ValidVersion(v) && l < |v|
    ensures Upper(v, l) !! Entries(v[l])
  {
    hide ValidVersion, Entries;
    forall e: Entry | e in Upper(v, l) && e in Entries(v[l]) ensures false {
      UpperHas(v, l, e);
      var m :| 0 <= m < l && e in Entries(v[m]);
      LevelsInOrder(v, m, l);
    }
  }

  lemma NoEntries()
    ensures Entries([]) == {}
  {
  }

  lemma LevelIsDisjoint(v: Levels, l: nat)
    requires ValidVersion(v) && 0 < l < |v|
    ensures ValidFiles(v[l]) && Disjoint(v[l])
  {
  }

  lemma AllIsUpper(v: Levels)
    ensures Upper(v, |v|) == AllEntries(v)
  {
    hide Entries;
    forall e ensures e in Upper(v, |v|) <==> e in AllEntries(v) {
      UpperHas(v, |v|, e);
    }
  }

  // The memtables and tables hold separate stretches of the history.
  lemma StoredSplits(s: State)
    requires Inv(s)
    ensures Splits(MemLists(s.mem, s.imm) + TableLists(s.version, NUM_LEVELS), Stored(s))
  {
    hide NumbersOk, JobOk, LogsOk, RetainsFrom, ValidVersion, Ordered, Splits, AllEntries, Sorted;
    EngineSafety.ShapeOf(s);
    TablesSplit(s.version, NUM_LEVELS);
    AllIsUpper(s.version);
    SplitsOne(s.mem);
    StretchesOf(s);
    if s.imm.Some? {
      SplitsOne(s.imm.value);
      SplitsConcat([s.mem], ToSet(s.mem), [s.imm.value], ToSet(s.imm.value));
      SplitsConcat(MemLists(s.mem, s.imm), ToSet(s.mem) + ToSet(s.imm.value), TableLists(s.version, NUM_LEVELS),
          AllEntries(s.version));
      assert Stored(s) == ToSet(s.mem) + ToSet(s.imm.value) + AllEntries(s.version);
    } else {
      assert MemLists(s.mem, s.imm) == [s.mem];
      SplitsConcat(MemLists(s.mem, s.imm), ToSet(s.mem), TableLists(s.version, NUM_LEVELS), AllEntries(s.version));
      assert Stored(s) == ToSet(s.mem) + AllEntries(s.version);
    }
  }

  lemma StretchesOf(s: State)
    requires Inv(s)
    ensures ToSet(s.mem) !! AllEntries(s.version)
    ensures s.imm.Some? ==> ToSet(s.imm.value) !! AllEntries(s.version) && ToSet(s.imm.value) !! ToSet(s.mem)
  {
    hide NumbersOk, JobOk, LogsOk, RetainsFrom, ValidVersion, Ordered, AllEntries;
    forall e | e in ToSet(s.mem) ensures e.key.sequence > s.memStart {
      EngineSafety.InSlice(s.history, s.memStart, |s.history|, e);
    }
    forall e | s.imm.Some? && e in ToSet(s.imm.value) ensures s.flushed < e.key.sequence <= s.memStart {
      EngineSafety.InSlice(s.history, s.flushed, s.memStart, e);
    }
  }

  // ---------- The merge, and what it shows ----------

  lemma SplitHasMerge(lists: seq<seq<Entry>>, S: set<Entry>) returns (merged: seq<Entry>)
    requires Splits(lists, S) && DistinctSequences(S)
    ensures IsMerge(merged, lists) && ToSet(merged) == S && Sorted(merged)
  {
    hide Sorted;
    merged := SortedListOf(S);
    assert forall e :: e in merged <==> e in ToSet(merged);
  }

  lemma StoredHasMerge(s: State) returns (merged: seq<Entry>)
    requires Inv(s)
    ensures IsMerge(merged, MemLists(s.mem, s.imm) + TableLists(s.version, NUM_LEVELS)) && ToSet(merged) == Stored(s)
    ensures Sorted(merged)
  {
    hide NumbersOk, JobOk, LogsOk, RetainsFrom, ValidVersion, Ordered, Splits, IsMerge, TableLists, DistinctSequences,
         Sorted;
    EngineSafety.ShapeOf(s);
    StoredSplits(s);
    EngineSafety.StoredIsPartOfHistory(s);
    EngineSafety.PartOfIsDistinct(Stored(s), s.history);
    merged := SplitHasMerge(MemLists(s.mem, s.imm) + TableLists(s.version, NUM_LEVELS), Stored(s));
  }

  // A sorted list of what is stored shows a key to a reader exactly when the history reads it so.
  lemma IterationIsRight(s: State, es: seq<Entry>, n: nat, k: UserKey, v: Bytes)
    requires Inv(s) && Floor(s) <= n <= |s.history|
    requires Sorted(es) && ToSet(es) == Stored(s)
    ensures DbIter.Shows(es, n, k, v) <==> Read(s.history, k, n) == Found(v)
  {
    hide NumbersOk, JobOk, LogsOk, ValidVersion, Ordered, Sorted, Read, DbIter.Shows, Retains;
    EngineSafety.StoredIsPartOfHistory(s);
    EngineSafety.ExtendRetention(AllEntries(s.version), s.history, s.flushed, Floor(s),
        Written(s.history[s.flushed..]));
    assert Retains(Stored(s), s.history, k, n);
    DbIter.ShowsIffRead(es, s.history, n, k, v);
  }
}
