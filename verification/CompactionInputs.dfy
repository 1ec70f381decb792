/** Choosing the input files of a compaction (db/version_set.cc). */
module CompactionInputs {
  import opened Dbformat
  import opened History
  import opened Version

  // ---------- GetOverlappingInputs ----------

  // f meets the user key range [begin, end]; None stands for the missing (null) bound.
  predicate Overlaps(f: FileMetaData, begin: Option<UserKey>, end: Option<UserKey>) {
    && !(begin.Some? && f.largest.user < begin.value)
    && !(end.Some? && f.smallest.user > end.value)
  }

  predicate Within(f: FileMetaData, begin: Option<UserKey>, end: Option<UserKey>) {
    && !(begin.Some? && f.smallest.user < begin.value)
    && !(end.Some? && f.largest.user > end.value)
  }

  // The files that meet the range, in their order.
  function Overlapping(files: Level, begin: Option<UserKey>, end: Option<UserKey>): (r: Level)
    ensures forall f :: f in r <==> f in files && Overlaps(f, begin, end)
  {
    if files == [] then []
    else
      var rest := Overlapping(files[..|files| - 1], begin, end);
      var f := files[|files| - 1];
      assert files == files[..|files| - 1] + [f];
      if Overlaps(f, begin, end) then rest + [f] else rest
  }

  // [b, e] includes [begin, end].
  predicate Widens(begin: Option<UserKey>, end: Option<UserKey>, b: Option<UserKey>, e: Option<UserKey>) {
    && b.Some? == begin.Some? && (b.Some? ==> b.value <= begin.value)
    && e.Some? == end.Some? && (e.Some? ==> e.value >= end.value)
  }

  // No file sticks out of the range it meets.
  ghost predicate ClosedRange(files: Level, b: Option<UserKey>, e: Option<UserKey>) {
    forall f :: f in files && Overlaps(f, b, e) ==> Within(f, b, e)
  }

  // The files that stick out of [b, e] on either side, counted once for each side.
  function Sticking(files: Level, b: Option<UserKey>, e: Option<UserKey>): nat {
    if files == [] then 0
    else
      var left := if b.Some? && files[0].smallest.user < b.value then 1 else 0;
      var right := if e.Some? && files[0].largest.user > e.value then 1 else 0;
      left + right + Sticking(files[1..], b, e)
  }

  lemma {:induction false} WideningUnsticks(
      files: Level, i: nat, b: Option<UserKey>, e: Option<UserKey>, b': Option<UserKey>, e': Option<UserKey>)
    requires Widens(b, e, b', e')
    ensures Sticking(files, b', e') <= Sticking(files, b, e)
    ensures i < |files| && b.Some? && b'.Some? && b'.value <= files[i].smallest.user < b.value
            ==> Sticking(files, b', e') < Sticking(files, b, e)
    ensures i < |files| && e.Some? && e'.Some? && e'.value >= files[i].largest.user > e.value
            ==> Sticking(files, b', e') < Sticking(files, b, e)
  {
    if files != [] {
      WideningUnsticks(files[1..], if i == 0 then 0 else i - 1, b, e, b', e');
    }
  }

  // For level 0: [b, e] is the least range around [begin, end] that takes in every file it meets.
  ghost predicate IsClosure(
    files: Level, begin: Option<UserKey>, end: Option<UserKey>, b: Option<UserKey>, e: Option<UserKey>)
  {
    && Widens(begin, end, b, e) && ClosedRange(files, b, e)
    && forall b', e' :: Widens(begin, end, b', e') && ClosedRange(files, b', e') ==> Widens(b, e, b', e')
  }

  // The files of a level that meet [begin, end].  Level-0 files may overlap each other, so there
  // the range grows to take in every file it meets, and the search restarts.
  method GetOverlappingInputs(files: Level, level0: bool, begin: Option<UserKey>, end: Option<UserKey>)
    returns (inputs: Level, ghost userBegin: Option<UserKey>, ghost userEnd: Option<UserKey>)
    ensures !level0 ==> inputs == Overlapping(files, begin, end)
    ensures level0 ==> exists b, e :: IsClosure(files, begin, end, b, e) && inputs == Overlapping(files, b, e)
    ensures !level0 ==> userBegin == begin && userEnd == end
    ensures level0 ==> IsClosure(files, begin, end, userBegin, userEnd)
    ensures inputs == Overlapping(files, userBegin, userEnd)
  {
    inputs := [];
    var b, e, i := begin, end, 0;
    while i < |files|
      invariant 0 <= i <= |files|
      invariant !level0 ==> b == begin && e == end
      invariant inputs == Overlapping(files[..i], b, e)
      invariant Widens(begin, end, b, e)
      invariant level0 ==> ClosedRange(files[..i], b, e)
      invariant forall b', e' :: Widens(begin, end, b', e') && ClosedRange(files, b', e') ==> Widens(b, e, b', e')
      decreases Sticking(files, b, e), |files| - i
    {
      var f := files[i];
      i := i + 1;
      assert files[..i][..i - 1] == files[..i - 1];
      if b.Some? && f.largest.user < b.value {
      } else if e.Some? && f.smallest.user > e.value {
      } else {
        inputs := inputs + [f];
        assert f in files;
        if level0 {
          forall b', e' | Widens(begin, end, b', e') && ClosedRange(files, b', e') ensures Within(f, b', e') {
            assert Widens(b, e, b', e');
          }
          if b.Some? && f.smallest.user < b.value {
            WideningUnsticks(files, i - 1, b, e, Some(f.smallest.user), e);
            b := Some(f.smallest.user);
            inputs, i := [], 0;
          } else if e.Some? && f.largest.user > e.value {
            WideningUnsticks(files, i - 1, b, e, b, Some(f.largest.user));
            e := Some(f.largest.user);
            inputs, i := [], 0;
          }
        }
      }
    }
    assert files[..i] == files;
    userBegin, userEnd := b, e;
  }

  // ---------- AddBoundaryInputs ----------

  ghost predicate IsLargestKey(files: Level, key: InternalKey) {
    && (exists f :: f in files && f.largest == key)
    && forall f :: f in files ==> f.largest.AtMost(key)
  }

  // f starts after `key` but still with key's user key.
  predicate IsBoundary(f: FileMetaData, key: InternalKey) {
    key.Before(f.smallest) && f.smallest.user == key.user
  }

  ghost predicate IsSmallestBoundary(files: Level, key: InternalKey, b: FileMetaData) {
    && b in files && IsBoundary(b, key)
    && forall f :: f in files && IsBoundary(f, key) ==> b.smallest.AtMost(f.smallest)
  }

  method FindLargestKey(files: Level) returns (largest: InternalKey)
    requires files != []
    ensures IsLargestKey(files, largest)
  {
    largest := files[0].largest;
    for i := 1 to |files|
      invariant IsLargestKey(files[..i], largest)
    {
      assert files[..i + 1] == files[..i] + [files[i]];
      if largest.Before(files[i].largest) {
        largest := files[i].largest;
      }
    }
    assert files[..|files|] == files;
  }

  method FindSmallestBoundaryFile(files: Level, key: InternalKey) returns (b: Option<FileMetaData>)
    ensures b.None? ==> forall f :: f in files ==> !IsBoundary(f, key)
    ensures b.Some? ==> IsSmallestBoundary(files, key, b.value)
  {
    b := None;
    for i := 0 to |files|
      invariant b.None? ==> forall f :: f in files[..i] ==> !IsBoundary(f, key)
      invariant b.Some? ==> IsSmallestBoundary(files[..i], key, b.value)
    {
      var f := files[i];
      assert files[..i + 1] == files[..i] + [f];
      if key.Before(f.smallest) && f.smallest.user == key.user {
        if b == None || f.smallest.Before(b.value.smallest) {
          b := Some(f);
        }
      }
    }
    assert files[..|files|] == files;
  }

  // The files that start after `key`.
  function StartingAfter(files: Level, key: InternalKey): nat {
    if files == [] then 0
    else (if key.Before(files[0].smallest) then 1 else 0) + StartingAfter(files[1..], key)
  }

  lemma {:induction false} FewerStartAfter(files: Level, key: InternalKey, key': InternalKey, b: FileMetaData)
    requires key.AtMost(key')
    ensures StartingAfter(files, key') <= StartingAfter(files, key)
    ensures b in files && key.Before(b.smallest) && b.smallest.AtMost(key')
            ==> StartingAfter(files, key') < StartingAfter(files, key)
  {
    if files != [] {
      FewerStartAfter(files[1..], key, key', b);
    }
  }

  // r extends sub by files each of which is the smallest boundary file of those before it.
  ghost predicate BoundaryChain(files: Level, sub: Level, r: Level)
    decreases |r|
  {
    || r == sub
    || (|r| > |sub| && BoundaryChain(files, sub, r[..|r| - 1]) && BoundaryStep(files, r[..|r| - 1], r[|r| - 1]))
  }

  ghost predicate BoundaryStep(files: Level, taken: Level, b: FileMetaData) {
    exists key :: IsLargestKey(taken, key) && IsSmallestBoundary(files, key, b)
  }

  // Extends compactionFiles with boundary files of `files` until none is left behind.
  method AddBoundaryInputs(files: Level, compactionFiles: Level) returns (r: Level)
    requires ValidFiles(files)
    ensures compactionFiles <= r
    ensures compactionFiles == [] ==> r == []
    ensures BoundaryChain(files, compactionFiles, r)
    ensures compactionFiles != [] ==> NoBoundaryLeft(files, r)
  {
    r := compactionFiles;
    if compactionFiles == [] {
      return;
    }
    var largestKey := FindLargestKey(compactionFiles);
    var continueSearching := true;
    while continueSearching
      invariant compactionFiles <= r
      invariant IsLargestKey(r, largestKey)
      invariant BoundaryChain(files, compactionFiles, r)
      invariant !continueSearching ==> forall f :: f in files ==> !IsBoundary(f, largestKey)
      decreases StartingAfter(files, largestKey), continueSearching
    {
      var b := FindSmallestBoundaryFile(files, largestKey);
      if b.Some? {
        ghost var before := r;
        r := r + [b.value];
        ExtendChain(files, compactionFiles, before, largestKey, b.value);
        FewerStartAfter(files, largestKey, b.value.largest, b.value);
        largestKey := b.value.largest;
      } else {
        continueSearching := false;
      }
    }
  }

  lemma ExtendChain(files: Level, sub: Level, r: Level, key: InternalKey, b: FileMetaData)
    requires ValidFiles(files) && BoundaryChain(files, sub, r) && sub <= r
    requires IsLargestKey(r, key) && IsSmallestBoundary(files, key, b)
    ensures BoundaryChain(files, sub, r + [b]) && sub <= r + [b]
    ensures IsLargestKey(r + [b], b.largest) && key.Before(b.smallest) && b.smallest.AtMost(b.largest)
  {
    assert BoundaryStep(files, r, b);
    assert (r + [b])[..|r|] == r;
    FileEndsAfterStart(b);
    assert b in r + [b];
    forall f | f in r + [b] ensures f.largest.AtMost(b.largest) {
      BeforeIsTotal(f.largest, key, b.smallest);
      BeforeIsTotal(f.largest, b.smallest, b.largest);
    }
  }

  lemma FileEndsAfterStart(f: FileMetaData)
    requires ValidFile(f)
    ensures f.smallest.AtMost(f.largest)
  {
  }

  // ---------- Closure of a choice of inputs ----------

  // f lies wholly before or wholly after all of `files`.
  ghost predicate Apart(f: FileMetaData, files: Level) {
    || (forall g :: g in files ==> f.largest.Before(g.smallest))
    || (forall g :: g in files ==> g.largest.Before(f.smallest))
  }

  // Nothing of the level lies between files of sub.
  ghost predicate Convex(files: Level, sub: Level) {
    && (forall g :: g in sub ==> g in files)
    && forall f :: f in files && f !in sub ==> Apart(f, sub)
  }

  // No file outside sub shares a user key range with a file of sub.
  ghost predicate Separated(files: Level, sub: Level) {
    && (forall g :: g in sub ==> g in files)
    && forall f, g :: f in files && f !in sub && g in sub ==>
      f.largest.user < g.smallest.user || g.largest.user < f.smallest.user
  }

  // What is left behind in the level is newer than what is taken.
  ghost predicate NewerLeftBehind(files: Level, sub: Level) {
    && (forall g :: g in sub ==> g in files)
    && forall f, g :: f in files && f !in sub && g in sub ==> Newer(FileEntries(f), FileEntries(g))
  }

  ghost predicate NoBoundaryLeft(files: Level, sub: Level) {
    exists key :: IsLargestKey(sub, key) && forall f :: f in files ==> !IsBoundary(f, key)
  }

  lemma OverlappingIsConvex(files: Level, begin: Option<UserKey>, end: Option<UserKey>)
    requires ValidFiles(files) && Disjoint(files)
    ensures Convex(files, Overlapping(files, begin, end))
  {
    var sub := Overlapping(files, begin, end);
    forall f | f in files && f !in sub ensures Apart(f, sub) {
      forall g | g in sub
        ensures begin.Some? && f.largest.user < begin.value ==> f.largest.Before(g.smallest)
        ensures end.Some? && f.smallest.user > end.value ==> g.largest.Before(f.smallest)
      {
        DisjointPair(files, f, g);
        FileEndsAfterStart(f);
        FileEndsAfterStart(g);
      }
    }
  }

  lemma DisjointPair(files: Level, f: FileMetaData, g: FileMetaData)
    requires Disjoint(files) && f in files && g in files && f != g
    ensures f.largest.Before(g.smallest) || g.largest.Before(f.smallest)
  {
  }

  // A prefix of a convex list of files, in level order, is convex: truncating the inputs of a
  // manual compaction is harmless.
  lemma PrefixIsConvex(files: Level, begin: Option<UserKey>, end: Option<UserKey>, n: nat)
    requires ValidFiles(files) && Disjoint(files) && 0 < n <= |Overlapping(files, begin, end)|
    ensures Convex(files, Overlapping(files, begin, end)[..n])
  {
    var all := Overlapping(files, begin, end);
    OverlappingIsConvex(files, begin, end);
    OverlappingInOrder(files, begin, end);
    forall f | f in files && f !in all[..n] ensures Apart(f, all[..n]) {
      if f in all {
        var j :| 0 <= j < |all| && all[j] == f;
        assert j >= n;
      } else {
        assert Apart(f, all);
        assert forall g :: g in all[..n] ==> g in all;
      }
    }
  }

  lemma {:induction false} OverlappingInOrder(files: Level, begin: Option<UserKey>, end: Option<UserKey>)
    requires Disjoint(files)
    ensures Disjoint(Overlapping(files, begin, end))
  {
    if files != [] {
      OverlappingInOrder(files[..|files| - 1], begin, end);
      var rest := Overlapping(files[..|files| - 1], begin, end);
      forall g | g in rest ensures g.largest.Before(files[|files| - 1].smallest) {
        var j :| 0 <= j < |files| - 1 && files[j] == g;
      }
    }
  }

  // Adding the smallest boundary file keeps a choice of inputs convex.
  lemma BoundaryKeepsConvex(files: Level, sub: Level, key: InternalKey, b: FileMetaData)
    requires ValidFiles(files) && Disjoint(files) && Convex(files, sub)
    requires IsLargestKey(sub, key) && IsSmallestBoundary(files, key, b)
    ensures Convex(files, sub + [b])
  {
    forall f | f in files && f !in sub + [b] ensures Apart(f, sub + [b]) {
      assert Apart(f, sub);
      DisjointPair(files, f, b);
      FileEndsAfterStart(f);
      var g :| g in sub && g.largest == key;
      FileEndsAfterStart(g);
      if f.largest.Before(g.smallest) {
        assert f.largest.Before(b.smallest);
      } else {
        assert b.largest.Before(f.smallest);
      }
    }
  }

  lemma {:induction false} ChainKeepsConvex(files: Level, sub: Level, r: Level)
    requires ValidFiles(files) && Disjoint(files) && Convex(files, sub)
    requires BoundaryChain(files, sub, r)
    ensures Convex(files, r)
    decreases |r|
  {
    if r != sub {
      var taken, b := r[..|r| - 1], r[|r| - 1];
      ChainKeepsConvex(files, sub, taken);
      var key :| IsLargestKey(taken, key) && IsSmallestBoundary(files, key, b);
      BoundaryKeepsConvex(files, taken, key, b);
      assert r == taken + [b];
    }
  }

  // With no boundary file left behind, what is left behind is newer than what is taken.
  lemma ConvexLeavesNewer(files: Level, sub: Level)
    requires ValidFiles(files) && Convex(files, sub) && NoBoundaryLeft(files, sub)
    requires DistinctSequences(Entries(files))
    ensures NewerLeftBehind(files, sub)
  {
    var key :| IsLargestKey(sub, key) && forall f :: f in files ==> !IsBoundary(f, key);
    forall f, g | f in files && f !in sub && g in sub ensures Newer(FileEntries(f), FileEntries(g)) {
      forall a, b | a in FileEntries(f) && b in FileEntries(g) && a.key.user == b.key.user
        ensures a.key.sequence > b.key.sequence
      {
        LeftBehindIsNewer(files, sub, key, f, g, a, b);
      }
    }
  }

  lemma LeftBehindIsNewer(
      files: Level, sub: Level, key: InternalKey, f: FileMetaData, g: FileMetaData, a: Entry, b: Entry)
    requires ValidFile(f) && ValidFile(g) && f in files && g in files && g in sub && Apart(f, sub)
    requires IsLargestKey(sub, key) && !IsBoundary(f, key)
    requires a in f.entries && b in g.entries && a.key.user == b.key.user
    requires DistinctSequences(Entries(files))
    ensures a.key.sequence > b.key.sequence
  {
    EntryInRange(f, a);
    EntryInRange(g, b);
    FileEndsAfterStart(f);
    FileEndsAfterStart(g);
    assert a in Entries(files) && b in Entries(files);
    assert g.largest.AtMost(key);
    if g.largest.Before(f.smallest) {
      // every file of sub ends before f starts, so f would be a boundary file
      assert false;
    } else {
      assert f.largest.Before(g.smallest);
      assert a.key.Before(b.key);
    }
  }

  lemma SeparatedLeavesNewer(files: Level, sub: Level)
    requires ValidFiles(files) && Separated(files, sub)
    ensures NewerLeftBehind(files, sub)
  {
    forall f, g, a, b | f in files && f !in sub && g in sub && a in FileEntries(f) && b in FileEntries(g)
      ensures a.key.user != b.key.user
    {
      EntryInRange(f, a);
      EntryInRange(g, b);
    }
  }

  // ---------- SetupOtherInputs ----------

  // [low, high] is the range of internal keys covered by the files.
  ghost predicate IsKeyRange(files: Level, low: InternalKey, high: InternalKey) {
    && (exists f :: f in files && f.smallest == low)
    && (forall f :: f in files ==> low.AtMost(f.smallest))
    && IsLargestKey(files, high)
  }

  lemma ExtendRange(
      files: Level, low: InternalKey, high: InternalKey, f: FileMetaData, low': InternalKey, high': InternalKey)
    requires IsKeyRange(files, low, high)
    requires low' == if f.smallest.Before(low) then f.smallest else low
    requires high' == if high.Before(f.largest) then f.largest else high
    ensures IsKeyRange(files + [f], low', high')
  {
    var all := files + [f];
    var first, last :| first in files && first.smallest == low && last in files && last.largest == high;
    assert first in all && last in all && f in all;
    forall g | g in all ensures low'.AtMost(g.smallest) && g.largest.AtMost(high') {
      if g in files {
        BeforeIsTotal(low', low, g.smallest);
        BeforeIsTotal(g.largest, high, high');
      }
    }
  }

  method GetRange(files: Level) returns (low: InternalKey, high: InternalKey)
    requires files != []
    ensures IsKeyRange(files, low, high)
  {
    low, high := files[0].smallest, files[0].largest;
    assert files[..1] == [files[0]];
    for i := 1 to |files|
      invariant IsKeyRange(files[..i], low, high)
    {
      ghost var low0, high0 := low, high;
      if files[i].smallest.Before(low) {
        low := files[i].smallest;
      }
      if high.Before(files[i].largest) {
        high := files[i].largest;
      }
      ExtendRange(files[..i], low0, high0, files[i], low, high);
      assert files[..i + 1] == files[..i] + [files[i]];
    }
    assert files[..|files|] == files;
  }

  function TotalFileSize(files: Level): nat {
    if files == [] then 0 else files[0].fileSize + TotalFileSize(files[1..])
  }

  // What SetupOtherInputs is given: for level 0 a choice cut off from the rest of the level, for
  // the levels above a gapless one.
  ghost predicate Pickable(v: Levels, level: nat, inputs0: Level)
    requires level < |v|
  {
    && inputs0 != []
    && InputOrder(level, inputs0)
    && if level == 0 then Separated(v[0], inputs0) else Convex(v[level], inputs0)
  }

  // How MakeInputIterator needs the inputs of a level: for level 0 without repetitions, above it in
  // key order, since it walks them as one concatenated list.
  ghost predicate InputOrder(level: nat, inputs0: Level) {
    if level == 0 then Once(inputs0) else Disjoint(inputs0)
  }

  // inputs1 is what a level above 0 has in the user key range [low, high].
  ghost predicate CoversRange(files: Level, inputs1: Level, low: UserKey, high: UserKey) {
    inputs1 == Overlapping(files, Some(low), Some(high))
  }

  // The inputs of a compaction from `level` to `level + 1` are complete: what stays in `level` is
  // newer than what leaves it, and level + 1 gives every file the level's inputs reach.
  ghost predicate ClosedInputs(v: Levels, level: nat, inputs0: Level, inputs1: Level) {
    && level + 1 < |v|
    && inputs0 != []
    && NewerLeftBehind(v[level], inputs0)
    && exists low, high :: IsKeyRange(inputs0, low, high) && CoversRange(v[level + 1], inputs1, low.user, high.user)
  }

  // Boundary files complete a choice of inputs.
  method CloseUnderBoundary(v: Levels, level: nat, chosen: Level) returns (inputs0: Level)
    requires ValidVersion(v) && DistinctSequences(AllEntries(v)) && level < |v|
    requires Pickable(v, level, chosen)
    ensures inputs0 != [] && NewerLeftBehind(v[level], inputs0)
    ensures chosen <= inputs0 && BoundaryChain(v[level], chosen, inputs0) && NoBoundaryLeft(v[level], inputs0)
    ensures Pickable(v, level, inputs0)
  {
    inputs0 := AddBoundaryInputs(v[level], chosen);
    assert ValidFiles(v[level]);
    if level == 0 {
      SeparatedHasNoBoundary(v[0], chosen, inputs0);
      SeparatedLeavesNewer(v[0], inputs0);
    } else {
      ChainKeepsConvex(v[level], chosen, inputs0);
      ChainKeepsOrder(v[level], chosen, inputs0);
      forall e | e in Entries(v[level]) ensures e in AllEntries(v) {}
      ConvexLeavesNewer(v[level], inputs0);
    }
  }

  lemma {:induction false} ChainKeepsOrder(files: Level, sub: Level, r: Level)
    requires BoundaryChain(files, sub, r) && Disjoint(sub)
    ensures Disjoint(r)
    decreases |r|
  {
    if r != sub {
      var taken, b := r[..|r| - 1], r[|r| - 1];
      ChainKeepsOrder(files, sub, taken);
      var key :| IsLargestKey(taken, key) && IsSmallestBoundary(files, key, b);
      assert r == taken + [b];
      forall i | 0 <= i < |taken| ensures taken[i].largest.Before(b.smallest) {
        assert taken[i] in taken;
        BeforeIsTotal(taken[i].largest, key, b.smallest);
      }
    }
  }

  ghost predicate Once(files: Level) {
    forall i, j :: 0 <= i < j < |files| ==> files[i] != files[j]
  }

  lemma {:induction false} OverlappingOnce(files: Level, begin: Option<UserKey>, end: Option<UserKey>)
    requires Once(files)
    ensures Once(Overlapping(files, begin, end))
  {
    hide Overlaps;
    if files != [] {
      var init := files[..|files| - 1];
      OverlappingOnce(init, begin, end);
      var rest := Overlapping(init, begin, end);
      forall i | 0 <= i < |rest| ensures rest[i] != files[|files| - 1] {
        assert rest[i] in init;
        var j :| 0 <= j < |init| && init[j] == rest[i];
        assert files[j] != files[|files| - 1];
      }
    }
  }

  // In level 0 there never is a boundary file to add.
  lemma {:induction false} SeparatedHasNoBoundary(files: Level, sub: Level, r: Level)
    requires ValidFiles(files) && Separated(files, sub)
    requires BoundaryChain(files, sub, r)
    ensures r == sub
    decreases |r|
  {
    if r != sub {
      SeparatedHasNoBoundary(files, sub, r[..|r| - 1]);
      var key :| IsLargestKey(sub, key) && IsSmallestBoundary(files, key, r[|r| - 1]);
      var b := r[|r| - 1];
      FileEndsAfterStart(b);
      assert false;
    }
  }

  // A level-0 choice by a closed range is cut off from the rest.
  lemma ClosedRangeSeparates(files: Level, b: Option<UserKey>, e: Option<UserKey>)
    requires ValidFiles(files) && ClosedRange(files, b, e)
    ensures Separated(files, Overlapping(files, b, e))
  {
    forall f, g | f in files && f !in Overlapping(files, b, e) && g in Overlapping(files, b, e)
      ensures f.largest.user < g.smallest.user || g.largest.user < f.smallest.user
    {
      FileEndsAfterStart(f);
    }
  }

  method OverlappingInputs(v: Levels, level: nat, begin: Option<UserKey>, end: Option<UserKey>) returns (inputs: Level)
    requires ValidVersion(v) && level < |v|
    ensures inputs != [] ==> Pickable(v, level, inputs)
    ensures level > 0 ==> inputs == Overlapping(v[level], begin, end)
    ensures level == 0 ==> exists b, e :: IsClosure(v[0], begin, end, b, e) && inputs == Overlapping(v[0], b, e)
    ensures forall f :: f in v[level] && Overlaps(f, begin, end) ==> f in inputs
  {
    ghost var b, e;
    inputs, b, e := GetOverlappingInputs(v[level], level == 0, begin, end);
    if level == 0 {
      ClosedRangeSeparates(v[0], b, e);
      OverlappingOnce(v[0], b, e);
    } else {
      OverlappingIsConvex(v[level], begin, end);
      OverlappingInOrder(v[level], begin, end);
    }
  }

  // inputs1 is what level + 1 has between the least and the greatest user key of inputs0.
  ghost predicate ReachesDown(v: Levels, level: nat, inputs0: Level, inputs1: Level)
    requires level + 1 < |v|
  {
    exists low, high :: IsKeyRange(inputs0, low, high) && CoversRange(v[level + 1], inputs1, low.user, high.user)
  }

  // The files of level + 1 in reach of inputs0.
  method NextLevelInputs(v: Levels, level: nat, inputs0: Level) returns (inputs1: Level, high: InternalKey)
    requires ValidVersion(v) && level + 1 < |v|
    requires inputs0 != [] && NewerLeftBehind(v[level], inputs0)
    ensures ClosedInputs(v, level, inputs0, inputs1)
    ensures IsLargestKey(inputs0, high) && ReachesDown(v, level, inputs0, inputs1)
  {
    var low;
    low, high := GetRange(inputs0);
    inputs1 := OverlappingInputs(v, level + 1, Some(low.user), Some(high.user));
    assert CoversRange(v[level + 1], inputs1, low.user, high.user);
  }

  // ---------- Inputs without gaps ----------

  ghost predicate Has(files: Level, x: UserKey) {
    exists f :: f in files && f.smallest.user <= x <= f.largest.user
  }

  // Every key between two files is in the range of one.
  ghost predicate NoGaps(files: Level) {
    forall f, g, x :: f in files && g in files && f.smallest.user <= x <= g.largest.user ==> Has(files, x)
  }

  lemma OneHasNoGaps(f: FileMetaData)
    ensures NoGaps([f])
  {
    assert f in [f];
  }

  predicate Touch(f: FileMetaData, g: FileMetaData) {
    f.smallest.user <= g.largest.user && g.smallest.user <= f.largest.user
  }

  lemma TouchingLeavesNoGap(files: Level, h: FileMetaData, f: FileMetaData)
    requires NoGaps(files) && h in files && Touch(h, f)
    ensures NoGaps(files + [f])
  {
    var all := files + [f];
    assert f in all && forall g :: g in files ==> g in all;
    forall a, b, x | a in all && b in all && a.smallest.user <= x <= b.largest.user ensures Has(all, x) {
      if !(f.smallest.user <= x <= f.largest.user) {
        var a', b' := if a in files then a else h, if b in files then b else h;
        assert a' in files && b' in files && a'.smallest.user <= x <= b'.largest.user;
        assert Has(files, x);
      }
    }
  }

  // f reaches into the range that the files span.
  ghost predicate Reaches(f: FileMetaData, files: Level) {
    exists a, b ::
      a in files && b in files && a.smallest.user <= f.largest.user && f.smallest.user <= b.largest.user
  }

  lemma ReachesOne(files: Level, f: FileMetaData) returns (h: FileMetaData)
    requires NoGaps(files) && ValidFiles(files) && ValidFile(f) && Reaches(f, files)
    ensures h in files && Touch(h, f)
  {
    var a, b :|
      a in files && b in files && a.smallest.user <= f.largest.user && f.smallest.user <= b.largest.user;
    FileEndsAfterStart(f);
    FileEndsAfterStart(b);
    if b.largest.user < a.smallest.user {
      h := b;
    } else {
      var x := if f.smallest.user < a.smallest.user then a.smallest.user else f.smallest.user;
      assert Has(files, x);
      h :| h in files && h.smallest.user <= x <= h.largest.user;
    }
  }

  lemma {:induction false} ReachingLeaveNoGaps(files: Level, more: Level)
    requires NoGaps(files) && ValidFiles(files) && ValidFiles(more) && forall f :: f in more ==> Reaches(f, files)
    ensures NoGaps(files + more)
    decreases |more|
  {
    if more == [] {
      assert files + more == files;
    } else {
      var init, f := more[..|more| - 1], more[|more| - 1];
      ReachingLeaveNoGaps(files, init);
      var h := ReachesOne(files, f);
      TouchingLeavesNoGap(files + init, h, f);
      assert files + more == (files + init) + [f];
    }
  }

  // Boundary files share a user key with the files before them.
  lemma {:induction false} ChainLeavesNoGaps(files: Level, sub: Level, r: Level, cover: Level)
    requires ValidFiles(files) && ValidFiles(sub) && BoundaryChain(files, sub, r) && NoGaps(cover + sub)
    ensures NoGaps(cover + r) && ValidFiles(r)
    decreases |r|
  {
    if r != sub {
      var taken, b := r[..|r| - 1], r[|r| - 1];
      assert r == taken + [b];
      ChainLeavesNoGaps(files, sub, taken, cover);
      var key :| IsLargestKey(taken, key) && IsSmallestBoundary(files, key, b);
      var h :| h in taken && h.largest == key;
      FileEndsAfterStart(b);
      FileEndsAfterStart(h);
      TouchingLeavesNoGap(cover + taken, h, b);
      assert cover + r == (cover + taken) + [b];
    }
  }

  lemma {:induction false} LeastStart(files: Level, x: UserKey, f: FileMetaData) returns (g: FileMetaData)
    requires f in files && f.smallest.user > x
    ensures g in files && g.smallest.user > x
    ensures forall h :: h in files && h.smallest.user > x ==> g.smallest.user <= h.smallest.user
  {
    var first, rest := files[0], files[1..];
    if h :| h in rest && h.smallest.user > x {
      g := LeastStart(rest, x, h);
      if x < first.smallest.user < g.smallest.user {
        g := first;
      }
    } else {
      g := first;
    }
  }

  lemma {:induction false} GreatestEnd(files: Level, x: UserKey, f: FileMetaData) returns (g: FileMetaData)
    requires f in files && f.largest.user < x
    ensures g in files && g.largest.user < x
    ensures forall h :: h in files && h.largest.user < x ==> h.largest.user <= g.largest.user
  {
    var first, rest := files[0], files[1..];
    if h :| h in rest && h.largest.user < x {
      g := GreatestEnd(rest, x, h);
      if x > first.largest.user > g.largest.user {
        g := first;
      }
    } else {
      g := first;
    }
  }

  // A range closed around [begin, end] without need would not go on beyond a gap.
  lemma NoGapBefore(
      files: Level, begin: UserKey, end: UserKey, b: Option<UserKey>, e: Option<UserKey>, f: FileMetaData, x: UserKey)
    requires ValidFiles(files) && IsClosure(files, Some(begin), Some(end), b, e)
    requires f in Overlapping(files, b, e) && f.smallest.user <= x < begin
    ensures Has(Overlapping(files, b, e), x)
  {
    var inputs := Overlapping(files, b, e);
    if !Has(inputs, x) {
      var later := begin;
      if h :| h in inputs && h.smallest.user > x {
        var g := LeastStart(inputs, x, h);
        later := if g.smallest.user < begin then g.smallest.user else begin;
      }
      assert Within(f, b, e) && !Widens(b, e, Some(later), e);
      assert Widens(Some(begin), Some(end), Some(later), e);
      forall h | h in files && Overlaps(h, Some(later), e) ensures Within(h, Some(later), e) {
        FileEndsAfterStart(h);
        assert Overlaps(h, b, e) && h in inputs;
      }
      assert ClosedRange(files, Some(later), e);
      assert false;
    }
  }

  lemma NoGapAfter(
      files: Level, begin: UserKey, end: UserKey, b: Option<UserKey>, e: Option<UserKey>, f: FileMetaData, x: UserKey)
    requires ValidFiles(files) && IsClosure(files, Some(begin), Some(end), b, e)
    requires f in Overlapping(files, b, e) && end < x <= f.largest.user
    ensures Has(Overlapping(files, b, e), x)
  {
    var inputs := Overlapping(files, b, e);
    if !Has(inputs, x) {
      var earlier := end;
      if h :| h in inputs && h.largest.user < x {
        var g := GreatestEnd(inputs, x, h);
        earlier := if g.largest.user > end then g.largest.user else end;
      }
      assert Within(f, b, e) && !Widens(b, e, b, Some(earlier));
      assert Widens(Some(begin), Some(end), b, Some(earlier));
      forall h | h in files && Overlaps(h, b, Some(earlier)) ensures Within(h, b, Some(earlier)) {
        FileEndsAfterStart(h);
        assert Overlaps(h, b, e) && h in inputs;
      }
      assert ClosedRange(files, b, Some(earlier));
      assert false;
    }
  }

  lemma InCover(cover: Level, low: InternalKey, high: InternalKey, x: UserKey)
    requires NoGaps(cover) && IsKeyRange(cover, low, high) && low.user <= x <= high.user
    ensures Has(cover, x)
  {
    var f, g :| f in cover && f.smallest == low && g in cover && g.largest == high;
  }

  lemma HasMore(files: Level, all: Level, x: UserKey)
    requires Has(files, x) && forall f :: f in files ==> f in all
    ensures Has(all, x)
  {
  }

  // The least closed range around files without gaps has none either.
  lemma ClosureHasNoGaps(
      files: Level, low: InternalKey, high: InternalKey, b: Option<UserKey>, e: Option<UserKey>, cover: Level)
    requires ValidFiles(files) && NoGaps(cover) && IsKeyRange(cover, low, high) && low.user <= high.user
    requires IsClosure(files, Some(low.user), Some(high.user), b, e)
    ensures NoGaps(cover + Overlapping(files, b, e))
  {
    hide ValidFiles, IsClosure, Has;
    var inputs := Overlapping(files, b, e);
    var all := cover + inputs;
    forall f, g, x | f in all && g in all && f.smallest.user <= x <= g.largest.user ensures Has(all, x) {
      if low.user <= x <= high.user {
        InCover(cover, low, high, x);
        HasMore(cover, all, x);
      } else if x < low.user {
        assert f in inputs by {
          assert f in cover ==> low.AtMost(f.smallest);
        }
        NoGapBefore(files, low.user, high.user, b, e, f, x);
        HasMore(inputs, all, x);
      } else {
        assert g in inputs by {
          assert g in cover ==> g.largest.AtMost(high);
        }
        NoGapAfter(files, low.user, high.user, b, e, g, x);
        HasMore(inputs, all, x);
      }
    }
  }

  lemma SameFilesNoGaps(files: Level, all: Level)
    requires NoGaps(files) && forall f :: f in files <==> f in all
    ensures NoGaps(all)
  {
    forall f, g, x | f in all && g in all && f.smallest.user <= x <= g.largest.user ensures Has(all, x) {
      HasMore(files, all, x);
    }
  }

  lemma RangeReaches(files: Level, low: InternalKey, high: InternalKey, f: FileMetaData)
    requires IsKeyRange(files, low, high) && Overlaps(f, Some(low.user), Some(high.user))
    ensures Reaches(f, files)
  {
  }

  lemma RangeIsOrdered(files: Level, low: InternalKey, high: InternalKey)
    requires ValidFiles(files) && IsKeyRange(files, low, high)
    ensures low.user <= high.user
  {
    var f :| f in files && f.smallest == low;
    FileEndsAfterStart(f);
  }

  lemma InputsHaveNoGaps(v: Levels, level: nat, chosen: Level, inputs0: Level, inputs1: Level)
    requires ValidVersion(v) && ClosedInputs(v, level, inputs0, inputs1)
    requires NoGaps(chosen) && (forall f :: f in chosen ==> f in v[level]) && BoundaryChain(v[level], chosen, inputs0)
    ensures NoGaps(inputs0 + inputs1)
  {
    hide ValidFile, NewerLeftBehind, NoGaps, BoundaryChain, Reaches;
    assert [] + chosen == chosen && [] + inputs0 == inputs0;
    ChainLeavesNoGaps(v[level], chosen, inputs0, []);
    var low, high :| IsKeyRange(inputs0, low, high) && CoversRange(v[level + 1], inputs1, low.user, high.user);
    forall f | f in inputs1 ensures Reaches(f, inputs0) {
      RangeReaches(inputs0, low, high, f);
    }
    ReachingLeaveNoGaps(inputs0, inputs1);
  }

  // What OverlappingInputs takes between two user keys.
  ghost predicate TakenBetween(v: Levels, level: nat, begin: UserKey, end: UserKey, inputs: Level)
    requires level < |v|
  {
    if level == 0 then
      exists b, e :: IsClosure(v[0], Some(begin), Some(end), b, e) && inputs == Overlapping(v[0], b, e)
    else inputs == Overlapping(v[level], Some(begin), Some(end))
  }

  lemma TakenLeaveNoGaps(
      v: Levels, level: nat, cover: Level, low: InternalKey, high: InternalKey, taken: Level, inputs: Level)
    requires ValidVersion(v) && level < |v| && ValidFiles(cover) && NoGaps(cover) && IsKeyRange(cover, low, high)
    requires TakenBetween(v, level, low.user, high.user, taken) && BoundaryChain(v[level], taken, inputs)
    ensures ValidFiles(inputs) && NoGaps(cover + inputs)
  {
    hide ValidFile, NoGaps, BoundaryChain, Reaches, IsClosure;
    RangeIsOrdered(cover, low, high);
    if level == 0 {
      var b, e :| IsClosure(v[0], Some(low.user), Some(high.user), b, e) && taken == Overlapping(v[0], b, e);
      ClosureHasNoGaps(v[0], low, high, b, e, cover);
    } else {
      forall f | f in taken ensures Reaches(f, cover) {
        RangeReaches(cover, low, high, f);
      }
      ReachingLeaveNoGaps(cover, taken);
    }
    ChainLeavesNoGaps(v[level], taken, inputs, cover);
  }

  // Larger inputs of the level take everything that smaller ones took.
  lemma ExpandedTakeMore(v: Levels, level: nat, inputs0: Level, inputs1: Level, more0: Level, more1: Level)
    requires ClosedInputs(v, level, inputs0, inputs1) && ClosedInputs(v, level, more0, more1)
    requires forall f :: f in inputs0 ==> f in more0
    ensures forall f :: f in inputs1 ==> f in more1
  {
    hide NewerLeftBehind;
    var low, high :| IsKeyRange(inputs0, low, high) && CoversRange(v[level + 1], inputs1, low.user, high.user);
    var low', high' :| IsKeyRange(more0, low', high') && CoversRange(v[level + 1], more1, low'.user, high'.user);
    assert low'.AtMost(low) && high.AtMost(high');
  }

  lemma ExpandedHaveNoGaps(
      v: Levels, level: nat, inputs0: Level, inputs1: Level, low: InternalKey, high: InternalKey, taken: Level,
      more0: Level, more1: Level)
    requires ValidVersion(v) && ClosedInputs(v, level, inputs0, inputs1) && ClosedInputs(v, level, more0, more1)
    requires NoGaps(inputs0 + inputs1) && IsKeyRange(inputs0 + inputs1, low, high)
    requires TakenBetween(v, level, low.user, high.user, taken) && BoundaryChain(v[level], taken, more0)
    requires forall f :: f in inputs0 ==> f in more0
    ensures NoGaps(more0 + more1)
  {
    hide ValidFile, NoGaps, BoundaryChain, Reaches, IsClosure, TakenBetween, IsKeyRange, Once, Disjoint;
    var cover := inputs0 + inputs1;
    ClosedAreFiles(v, level, inputs0, inputs1);
    ClosedAreFiles(v, level, more0, more1);
    TakenLeaveNoGaps(v, level, cover, low, high, taken, more0);
    var all := cover + more0;
    var low', high' :| IsKeyRange(more0, low', high') && CoversRange(v[level + 1], more1, low'.user, high'.user);
    forall f | f in more1 ensures Reaches(f, all) {
      RangeReaches(more0, low', high', f);
      ReachesMore(f, more0, all);
    }
    ReachingLeaveNoGaps(all, more1);
    ExpandedTakeMore(v, level, inputs0, inputs1, more0, more1);
    SameFilesNoGaps(all + more1, more0 + more1);
  }

  lemma ReachesMore(f: FileMetaData, files: Level, all: Level)
    requires Reaches(f, files) && forall g :: g in files ==> g in all
    ensures Reaches(f, all)
  {
  }

  lemma ClosedAreFiles(v: Levels, level: nat, inputs0: Level, inputs1: Level)
    requires ValidVersion(v) && ClosedInputs(v, level, inputs0, inputs1)
    ensures ValidFiles(inputs0) && ValidFiles(inputs1)
  {
  }

  // How the inputs came about: those that the choice needs, what the level has in the range of all of
  // these, and what that needs in turn.
  datatype Setup = Setup(base0: Level, base1: Level, taken: Level, more0: Level, more1: Level)

  // Nothing is in the inputs but the choice with its boundary files and what that reaches in the next
  // level; or, if the level's inputs can grow within the limit without reaching more files there, all
  // that lies between, completed in the same way.
  ghost predicate IsSetup(
    v: Levels, level: nat, chosen: Level, limit: nat, inputs0: Level, inputs1: Level, how: Setup)
    requires level + 1 < |v|
  {
    && BoundaryChain(v[level], chosen, how.base0) && NoBoundaryLeft(v[level], how.base0)
    && ReachesDown(v, level, how.base0, how.base1)
    && (how.base1 != [] ==>
          exists low, high ::
            && IsKeyRange(how.base0 + how.base1, low, high)
            && TakenBetween(v, level, low.user, high.user, how.taken))
    && (how.base1 != [] && how.taken != [] ==>
          BoundaryChain(v[level], how.taken, how.more0) && NoBoundaryLeft(v[level], how.more0))
    && (how.base1 != [] && how.taken == [] ==> how.more0 == [])
    && if how.base1 != [] && |how.more0| > |how.base0| &&
          TotalFileSize(how.base1) + TotalFileSize(how.more0) < limit
       then
         && ReachesDown(v, level, how.more0, how.more1)
         && inputs0 == (if |how.more1| == |how.base1| then how.more0 else how.base0)
         && inputs1 == (if |how.more1| == |how.base1| then how.more1 else how.base1)
       else inputs0 == how.base0 && inputs1 == how.base1
  }

  // Completes the choice `chosen` of level inputs; `limit` is ExpandedCompactionByteSizeLimit.
  // `high` is the largest key of the level inputs, which becomes the level's compact pointer.
  method SetupOtherInputs(v: Levels, level: nat, chosen: Level, limit: nat)
    returns (inputs0: Level, inputs1: Level, high: InternalKey, ghost how: Setup)
    requires ValidVersion(v) && DistinctSequences(AllEntries(v)) && level + 1 < |v|
    requires Pickable(v, level, chosen)
    ensures ClosedInputs(v, level, inputs0, inputs1) && InputOrder(level, inputs0)
    ensures IsLargestKey(inputs0, high)
    ensures NoGaps(chosen) ==> NoGaps(inputs0 + inputs1)
    ensures forall f :: f in chosen ==> f in inputs0
    ensures IsSetup(v, level, chosen, limit, inputs0, inputs1, how)
  {
    hide ClosedInputs, InputOrder, NoGaps, BoundaryChain, ValidVersion, DistinctSequences, NewerLeftBehind, IsClosure,
         Convex, Separated, IsKeyRange, Overlapping, IsLargestKey, TakenBetween, NoBoundaryLeft, ReachesDown;
    inputs0 := CloseUnderBoundary(v, level, chosen);
    PrefixIsIn(chosen, inputs0);
    inputs1, high := NextLevelInputs(v, level, inputs0);
    how := Setup(inputs0, inputs1, [], [], []);
    if NoGaps(chosen) {
      PickableAreFiles(v, level, chosen);
      InputsHaveNoGaps(v, level, chosen, inputs0, inputs1);
    }
    if inputs1 != [] {
      // see if the level's inputs can grow without picking up more files of level + 1
      var allLow, allHigh := GetRange(inputs0 + inputs1);
      var expanded0 := OverlappingInputs(v, level, Some(allLow.user), Some(allHigh.user));
      ghost var taken := expanded0;
      if expanded0 != [] {
        expanded0 := CloseUnderBoundary(v, level, expanded0);
      }
      GrownIsTaken(v, level, inputs0, inputs1, allLow, allHigh, taken, expanded0);
      how := how.(taken := taken, more0 := expanded0);
      if |expanded0| > |inputs0| && TotalFileSize(inputs1) + TotalFileSize(expanded0) < limit {
        var expanded1, newHigh := NextLevelInputs(v, level, expanded0);
        how := how.(more1 := expanded1);
        if |expanded1| == |inputs1| {
          if NoGaps(chosen) {
            ExpandedHaveNoGaps(v, level, inputs0, inputs1, allLow, allHigh, taken, expanded0, expanded1);
          }
          inputs0, inputs1, high := expanded0, expanded1, newHigh;
        }
      }
    }
  }

  lemma PrefixIsIn(a: Level, b: Level)
    requires a <= b
    ensures forall f :: f in a ==> f in b
  {
    assert a == b[..|a|];
  }

  lemma PickableAreFiles(v: Levels, level: nat, chosen: Level)
    requires level < |v| && Pickable(v, level, chosen)
    ensures forall f :: f in chosen ==> f in v[level]
  {
  }

  lemma GrownIsTaken(
      v: Levels, level: nat, inputs0: Level, inputs1: Level, low: InternalKey, high: InternalKey, taken: Level,
      more0: Level)
    requires ValidVersion(v) && ClosedInputs(v, level, inputs0, inputs1) && IsKeyRange(inputs0 + inputs1, low, high)
    requires forall f :: f in v[level] && Overlaps(f, Some(low.user), Some(high.user)) ==> f in taken
    requires level > 0 ==> taken == Overlapping(v[level], Some(low.user), Some(high.user))
    requires level == 0 ==> exists b, e ::
                 IsClosure(v[0], Some(low.user), Some(high.user), b, e) && taken == Overlapping(v[0], b, e)
    requires taken <= more0
    ensures TakenBetween(v, level, low.user, high.user, taken)
    ensures forall f :: f in inputs0 ==> f in more0
  {
    hide ValidFile, IsClosure, Overlapping;
    ClosedAreFiles(v, level, inputs0, inputs1);
    forall f | f in inputs0 ensures f in more0 {
      assert f in inputs0 + inputs1 && f in v[level];
      FileEndsAfterStart(f);
      assert f in taken && taken == more0[..|taken|];
    }
  }
}
