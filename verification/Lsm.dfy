/** Transitions between versions: adding a flushed table, and replacing the inputs of a compaction
    by its outputs (db/version_set.cc, VersionSet::Builder; db/db_impl.cc). */
module Lsm {
  import opened Dbformat
  import opened Version
  import opened CompactionInputs
  import opened CompactionWork

  // BySmallestKey.
  predicate FileBefore(f: FileMetaData, g: FileMetaData) {
    f.smallest.Before(g.smallest) || (f.smallest == g.smallest && f.number < g.number)
  }

  // The order in which a version keeps the files of every level.
  ghost predicate InFileOrder(files: Level) {
    forall i, j :: 0 <= i < j < |files| ==> FileBefore(files[i], files[j])
  }

  // No two places of a version hold files of the same number.
  ghost predicate UniqueNumbers(v: Levels) {
    forall l, m, f, g :: 0 <= l < |v| && 0 <= m < |v| && f in v[l] && g in v[m] && f.number == g.number ==>
      l == m && f == g
  }

  ghost predicate Ordered(v: Levels) {
    && |v| == NUM_LEVELS
    && UniqueNumbers(v)
    && forall l :: 0 <= l < |v| ==> InFileOrder(v[l])
  }

  datatype VersionEdit = VersionEdit(deletedFiles: set<(nat, nat)>, newFiles: seq<(nat, FileMetaData)>)

  // w is v after the edit: what Builder::Apply and SaveTo produce.
  ghost predicate Applied(v: Levels, edit: VersionEdit, w: Levels) {
    && |w| == |v|
    && forall l :: 0 <= l < |v| ==>
      && InFileOrder(w[l])
      && forall f :: f in w[l] <==> (f in v[l] && (l, f.number) !in edit.deletedFiles) || (l, f) in edit.newFiles
  }

  // Files in file order whose ranges do not meet are disjoint in the sense of Version.
  ghost predicate ApartPair(f: FileMetaData, g: FileMetaData) {
    f.largest.Before(g.smallest) || g.largest.Before(f.smallest)
  }

  lemma InOrderAndApart(files: Level)
    requires InFileOrder(files) && ValidFiles(files)
    requires forall f, g :: f in files && g in files && f != g ==> ApartPair(f, g)
    ensures Disjoint(files)
  {
    forall i, j | 0 <= i < j < |files| ensures files[i].largest.Before(files[j].smallest) {
      var f, g := files[i], files[j];
      assert FileBefore(f, g);
      assert f in files && g in files;
      FileEndsAfterStart(g);
      if f != g && g.largest.Before(f.smallest) {
        BeforeIsTotal(f.smallest, g.smallest, f.smallest);
        BeforeIsTotal(g.smallest, g.largest, f.smallest);
        assert false;
      }
    }
  }

  lemma DisjointApart(files: Level, f: FileMetaData, g: FileMetaData)
    requires Disjoint(files) && f in files && g in files && f != g
    ensures ApartPair(f, g)
  {
  }

  lemma Level0FromUnique(v: Levels)
    requires Ordered(v)
    requires forall f, g :: f in v[0] && g in v[0] && f.number > g.number ==> Newer(FileEntries(f), FileEntries(g))
    ensures Level0Ordered(v[0])
  {
    forall i, j | 0 <= i < |v[0]| && 0 <= j < |v[0]| && i != j ensures v[0][i].number != v[0][j].number {
      assert v[0][i] in v[0] && v[0][j] in v[0];
      assert i < j ==> FileBefore(v[0][i], v[0][j]);
      assert j < i ==> FileBefore(v[0][j], v[0][i]);
    }
  }

  // ---------- Flush ----------

  // No file of the levels 0..level meets f's user key range.
  ghost predicate ClearDownTo(v: Levels, f: FileMetaData, level: nat)
    requires level < |v|
  {
    forall l, g :: 0 <= l <= level && g in v[l] ==> !Overlaps(g, Some(f.smallest.user), Some(f.largest.user))
  }

  lemma UserRange(f: FileMetaData, e: Entry)
    requires ValidFile(f) && e in f.entries
    ensures f.smallest.user <= e.key.user <= f.largest.user
  {
    EntryInRange(f, e);
  }

  lemma NoSharedUser(f: FileMetaData, g: FileMetaData)
    requires ValidFile(f) && ValidFile(g) && !Overlaps(g, Some(f.smallest.user), Some(f.largest.user))
    ensures ApartPair(f, g) && f != g
    ensures forall a, b :: a in FileEntries(f) && b in FileEntries(g) ==> a.key.user != b.key.user
  {
    FileEndsAfterStart(f);
    FileEndsAfterStart(g);
    forall a, b | a in FileEntries(f) && b in FileEntries(g) ensures a.key.user != b.key.user {
      UserRange(f, a);
      UserRange(g, b);
    }
  }

  // A table newer than everything stored can go to level 0, or below files it does not meet.
  lemma FlushKeepsValid(v: Levels, f: FileMetaData, level: nat, w: Levels)
    requires ValidVersion(v) && Ordered(v) && Ordered(w) && level < |v|
    requires ValidFile(f) && Applied(v, VersionEdit({}, [(level, f)]), w)
    requires Newer(FileEntries(f), AllEntries(v))
    requires forall l, g :: 0 <= l < |v| && g in v[l] ==> g.number < f.number
    requires level > 0 ==> ClearDownTo(v, f, level)
    ensures ValidVersion(w)
    ensures AllEntries(w) == AllEntries(v) + FileEntries(f)
  {
    FlushedEntries(v, f, level, w);
    forall l | 0 <= l < |w| ensures ValidFiles(w[l]) && (l > 0 ==> Disjoint(w[l])) {
      FlushKeepsDisjoint(v, f, level, w, l);
    }
    FlushKeepsLevel0(v, f, level, w);
    forall l, m | 0 <= l < m < |w| ensures Newer(Entries(w[l]), Entries(w[m])) {
      FlushKeepsOrder(v, f, level, w, l, m);
    }
  }

  lemma FlushKeepsDisjoint(v: Levels, f: FileMetaData, level: nat, w: Levels, l: nat)
    requires ValidVersion(v) && Ordered(w) && level < |v| && l < |v|
    requires ValidFile(f) && Applied(v, VersionEdit({}, [(level, f)]), w)
    requires level > 0 ==> ClearDownTo(v, f, level)
    ensures ValidFiles(w[l])
    ensures l > 0 ==> Disjoint(w[l])
  {
    assert forall g :: g in w[l] ==> g in v[l] || (g == f && l == level);
    if l > 0 {
      forall g, h | g in w[l] && h in w[l] && g != h ensures ApartPair(g, h) {
        if g in v[l] && h in v[l] {
          DisjointApart(v[l], g, h);
        } else {
          NoSharedUser(f, if g == f then h else g);
        }
      }
      InOrderAndApart(w[l]);
    }
  }

  lemma FlushKeepsLevel0(v: Levels, f: FileMetaData, level: nat, w: Levels)
    requires ValidVersion(v) && Ordered(w) && level < |v|
    requires Applied(v, VersionEdit({}, [(level, f)]), w)
    requires Newer(FileEntries(f), AllEntries(v))
    requires forall l, g :: 0 <= l < |v| && g in v[l] ==> g.number < f.number
    ensures Level0Ordered(w[0])
  {
    forall g, h | g in w[0] && h in w[0] && g.number > h.number ensures Newer(FileEntries(g), FileEntries(h)) {
      assert g in v[0] || g == f;
      assert h in v[0] || h == f;
      if g == f {
        LevelHasFile(v, 0, h);
      }
    }
    Level0FromUnique(w);
  }

  lemma LevelHasFile(v: Levels, l: nat, f: FileMetaData)
    requires l < |v| && f in v[l]
    ensures FileEntries(f) <= Entries(v[l]) <= AllEntries(v)
  {
  }

  lemma FlushedEntries(v: Levels, f: FileMetaData, level: nat, w: Levels)
    requires level < |v| && Applied(v, VersionEdit({}, [(level, f)]), w)
    ensures forall l ::
              0 <= l < |v| ==> Entries(w[l]) == if l == level then Entries(v[l]) + FileEntries(f) else Entries(v[l])
    ensures AllEntries(w) == AllEntries(v) + FileEntries(f)
  {
    forall l | 0 <= l < |v|
      ensures Entries(w[l]) == if l == level then Entries(v[l]) + FileEntries(f) else Entries(v[l])
    {
      assert forall g :: g in w[l] <==> g in v[l] || (l == level && g == f);
    }
    forall e | e in AllEntries(v) + FileEntries(f) ensures e in AllEntries(w) {
      if e in FileEntries(f) {
        assert e in Entries(w[level]);
      } else {
        var l :| 0 <= l < |v| && e in Entries(v[l]);
        assert e in Entries(w[l]);
      }
    }
    forall e | e in AllEntries(w) ensures e in AllEntries(v) + FileEntries(f) {
      var l :| 0 <= l < |w| && e in Entries(w[l]);
      assert e in Entries(v[l]) || e in FileEntries(f);
    }
  }

  lemma FlushKeepsOrder(v: Levels, f: FileMetaData, level: nat, w: Levels, l: nat, m: nat)
    requires ValidVersion(v) && level < |v| && l < m < |w|
    requires ValidFile(f) && Applied(v, VersionEdit({}, [(level, f)]), w)
    requires Newer(FileEntries(f), AllEntries(v))
    requires level > 0 ==> ClearDownTo(v, f, level)
    ensures Newer(Entries(w[l]), Entries(w[m]))
  {
    FlushedEntries(v, f, level, w);
    forall a, b | a in Entries(w[l]) && b in Entries(w[m]) && a.key.user == b.key.user
      ensures a.key.sequence > b.key.sequence
    {
      if a in Entries(v[l]) && b in Entries(v[m]) {
        assert Newer(Entries(v[l]), Entries(v[m]));
      } else if b in Entries(v[m]) {
        assert a in FileEntries(f) && b in AllEntries(v);
      } else {
        assert m == level && b in FileEntries(f) && a in Entries(v[l]);
        var g :| g in v[l] && a in g.entries;
        assert ValidFile(g) && a in FileEntries(g);
        NoSharedUser(f, g);
      }
    }
  }

  // ---------- Replacing inputs by outputs ----------

  // The inputs still are files of v, and what v keeps of the level is newer than what leaves it.
  ghost predicate Taken(v: Levels, level: nat, inputs0: Level, inputs1: Level) {
    && level + 1 < |v|
    && inputs0 != []
    && (forall g :: g in inputs1 ==> g in v[level + 1])
    && NewerLeftBehind(v[level], inputs0)
  }

  // What v keeps of the next level, moreover, lies before or after everything that moves.
  ghost predicate Replaceable(v: Levels, level: nat, inputs0: Level, inputs1: Level) {
    && Taken(v, level, inputs0, inputs1)
    && forall f :: f in v[level + 1] && f !in inputs1 ==> Apart(f, inputs0 + inputs1)
  }

  // Output files: made of input entries, with ranges that do not meet.
  ghost predicate MadeOf(outputs: Level, I: set<Entry>) {
    && ValidFiles(outputs)
    && Entries(outputs) <= I
    && forall o, p :: o in outputs && p in outputs && o != p ==> ApartPair(o, p)
  }

  function CompactionEdit(level: nat, inputs0: Level, inputs1: Level, outputs: Level): VersionEdit {
    VersionEdit(
      (set g | g in inputs0 :: (level, g.number)) + (set g | g in inputs1 :: (level + 1, g.number)),
      seq(|outputs|, i requires 0 <= i < |outputs| => (level + 1, outputs[i])))
  }

  ghost predicate Replaced(v: Levels, level: nat, inputs0: Level, inputs1: Level, outputs: Level, w: Levels) {
    Applied(v, CompactionEdit(level, inputs0, inputs1, outputs), w)
  }

  // What the edit does to each level.
  lemma ReplaceMembership(
      v: Levels, level: nat, inputs0: Level, inputs1: Level, outputs: Level, w: Levels, l: nat, f: FileMetaData)
    requires |v| == NUM_LEVELS && UniqueNumbers(v) && Taken(v, level, inputs0, inputs1) && l < |v|
    requires Replaced(v, level, inputs0, inputs1, outputs, w)
    ensures f in w[l] <==>
              || (l != level && l != level + 1 && f in v[l])
              || (l == level && f in v[l] && f !in inputs0)
              || (l == level + 1 && ((f in v[l] && f !in inputs1) || f in outputs))
  {
    var edit := CompactionEdit(level, inputs0, inputs1, outputs);
    if f in v[l] {
      assert (l, f.number) in edit.deletedFiles <==> (l == level && f in inputs0) || (l == level + 1 && f in inputs1);
    }
    assert (l, f) in edit.newFiles <==> l == level + 1 && f in outputs by {
      if f in outputs && l == level + 1 {
        var i :| 0 <= i < |outputs| && outputs[i] == f;
        assert edit.newFiles[i] == (l, f);
      }
    }
  }

  // An entry of w comes from an output (moved), or from a file of v that is not an input.
  lemma ReplaceOrigin(
      v: Levels, level: nat, inputs0: Level, inputs1: Level, outputs: Level, w: Levels, l: nat, e: Entry)
    returns (moved: bool, f: FileMetaData)
    requires |v| == NUM_LEVELS && UniqueNumbers(v) && Taken(v, level, inputs0, inputs1) && l < |v|
    requires Replaced(v, level, inputs0, inputs1, outputs, w)
    requires e in Entries(w[l])
    ensures moved ==> l == level + 1 && e in Entries(outputs)
    ensures !moved ==> f in v[l] && e in f.entries && e in Entries(v[l]) && e in AllEntries(v)
    ensures !moved ==> (l == level ==> f !in inputs0) && (l == level + 1 ==> f !in inputs1)
  {
    f :| f in w[l] && e in f.entries;
    ReplaceMembership(v, level, inputs0, inputs1, outputs, w, l, f);
    moved := l == level + 1 && f in outputs;
    if !moved {
      assert f in v[l] && e in Entries(v[l]);
    }
  }

  // An entry of the inputs is in v at the level it comes from.
  lemma InputOrigin(v: Levels, level: nat, inputs0: Level, inputs1: Level, e: Entry)
    requires Taken(v, level, inputs0, inputs1) && e in Inputs(inputs0, inputs1)
    ensures e in Entries(inputs0) ==> e in Entries(v[level])
    ensures e in Entries(inputs1) ==> e in Entries(v[level + 1])
    ensures e in AllEntries(v)
  {
    assert e in Entries(v[if e in Entries(inputs0) then level else level + 1]);
  }

  lemma LevelsInOrder(v: Levels, l: nat, m: nat)
    requires ValidVersion(v) && l < m < |v|
    ensures Newer(Entries(v[l]), Entries(v[m]))
  {
  }

  // What stays in the inputs' level or above is newer than the inputs.
  lemma NewerStays(v: Levels, level: nat, inputs0: Level, inputs1: Level, l: nat, f: FileMetaData, a: Entry, e: Entry)
    requires ValidVersion(v) && Taken(v, level, inputs0, inputs1) && l <= level && f in v[l] && a in f.entries
    requires l == level ==> f !in inputs0
    requires e in Inputs(inputs0, inputs1) && a.key.user == e.key.user
    ensures a.key.sequence > e.key.sequence
  {
    InputOrigin(v, level, inputs0, inputs1, e);
    assert a in Entries(v[l]);
    if e in Entries(inputs1) {
      LevelsInOrder(v, l, level + 1);
    } else if l < level {
      LevelsInOrder(v, l, level);
    } else {
      var g :| g in inputs0 && e in g.entries;
      assert Newer(FileEntries(f), FileEntries(g));
      assert a in FileEntries(f) && e in FileEntries(g);
    }
  }

  // What is deeper than the inputs is older.
  lemma OlderBelow(v: Levels, level: nat, inputs0: Level, inputs1: Level, l: nat, a: Entry, e: Entry)
    requires ValidVersion(v) && Taken(v, level, inputs0, inputs1) && level < l < |v| && a in Entries(v[l])
    requires e in Inputs(inputs0, inputs1) && a.key.user == e.key.user
    requires l == level + 1 ==> e in Entries(inputs0)
    ensures a.key.sequence < e.key.sequence
  {
    InputOrigin(v, level, inputs0, inputs1, e);
    LevelsInOrder(v, if e in Entries(inputs0) then level else level + 1, l);
  }

  lemma ReplacedPairOrder(
      v: Levels, level: nat, inputs0: Level, inputs1: Level, outputs: Level, w: Levels, l: nat, m: nat, a: Entry,
      b: Entry)
    requires ValidVersion(v) && UniqueNumbers(v) && Taken(v, level, inputs0, inputs1)
    requires Entries(outputs) <= Inputs(inputs0, inputs1)
    requires Replaced(v, level, inputs0, inputs1, outputs, w)
    requires |v| == |w| == NUM_LEVELS && l < m < |w| && a in Entries(w[l]) && b in Entries(w[m])
    requires a.key.user == b.key.user
    ensures a.key.sequence > b.key.sequence
  {
    hide Taken, UniqueNumbers, Replaced, ValidVersion, Entries, AllEntries, Inputs;
    var movedA, f := ReplaceOrigin(v, level, inputs0, inputs1, outputs, w, l, a);
    var movedB, g := ReplaceOrigin(v, level, inputs0, inputs1, outputs, w, m, b);
    if movedA {
      OlderBelow(v, level, inputs0, inputs1, m, b, a);
    } else if movedB {
      NewerStays(v, level, inputs0, inputs1, l, f, a, b);
    } else {
      LevelsInOrder(v, l, m);
    }
  }

  lemma ReplaceKeepsOrder(
      v: Levels, level: nat, inputs0: Level, inputs1: Level, outputs: Level, w: Levels, l: nat, m: nat)
    requires ValidVersion(v) && UniqueNumbers(v) && Taken(v, level, inputs0, inputs1)
    requires MadeOf(outputs, Inputs(inputs0, inputs1))
    requires Replaced(v, level, inputs0, inputs1, outputs, w)
    requires |v| == |w| == NUM_LEVELS && l < m < |w|
    ensures Newer(Entries(w[l]), Entries(w[m]))
  {
    hide ValidVersion, UniqueNumbers, Taken, Replaced, Entries;
    forall a, b | a in Entries(w[l]) && b in Entries(w[m]) && a.key.user == b.key.user
      ensures a.key.sequence > b.key.sequence
    {
      ReplacedPairOrder(v, level, inputs0, inputs1, outputs, w, l, m, a, b);
    }
  }

  // An entry that moves lies on the same side of a file as all of the inputs.
  lemma OutputApart(v: Levels, level: nat, inputs0: Level, inputs1: Level, o: FileMetaData, f: FileMetaData)
    requires ValidVersion(v) && Replaceable(v, level, inputs0, inputs1)
    requires ValidFile(o) && FileEntries(o) <= Inputs(inputs0, inputs1)
    requires f in v[level + 1] && f !in inputs1
    ensures ApartPair(f, o)
  {
    var all := inputs0 + inputs1;
    assert Apart(f, all);
    assert ValidFiles(v[level]) && ValidFiles(v[level + 1]);
    var first, last := o.entries[0], o.entries[|o.entries| - 1];
    assert first in FileEntries(o) && last in FileEntries(o);
    var g :| g in all && first in g.entries;
    var h :| h in all && last in h.entries;
    EntryInRange(g, first);
    EntryInRange(h, last);
    BeforeIsTotal(f.largest, g.smallest, first.key);
    BeforeIsTotal(last.key, h.largest, f.smallest);
    if forall x :: x in all ==> f.largest.Before(x.smallest) {
      assert f.largest.Before(g.smallest);
    } else {
      assert h.largest.Before(f.smallest);
    }
  }

  // What stays of the next level does not meet the outputs.
  ghost predicate LeftApart(v: Levels, level: nat, inputs1: Level, outputs: Level)
    requires level + 1 < |v|
  {
    forall f, o :: f in v[level + 1] && f !in inputs1 && o in outputs && f != o ==> ApartPair(f, o)
  }

  lemma ReplaceableIsApart(v: Levels, level: nat, inputs0: Level, inputs1: Level, outputs: Level)
    requires ValidVersion(v) && Replaceable(v, level, inputs0, inputs1) && MadeOf(outputs, Inputs(inputs0, inputs1))
    ensures Taken(v, level, inputs0, inputs1) && LeftApart(v, level, inputs1, outputs)
  {
    forall f, o | f in v[level + 1] && f !in inputs1 && o in outputs ensures ApartPair(f, o) {
      OutputsOwn(outputs, o);
      OutputApart(v, level, inputs0, inputs1, o, f);
    }
  }

  lemma ReplacedPairApart(
      v: Levels, level: nat, inputs0: Level, inputs1: Level, outputs: Level, w: Levels, l: nat, f: FileMetaData,
      g: FileMetaData)
    requires ValidVersion(v) && UniqueNumbers(v) && Taken(v, level, inputs0, inputs1) && 0 < l < |v|
    requires |v| == NUM_LEVELS && level + 1 < |v| && Disjoint(v[l])
    requires MadeOf(outputs, Inputs(inputs0, inputs1)) && LeftApart(v, level, inputs1, outputs)
    requires Replaced(v, level, inputs0, inputs1, outputs, w)
    requires f in w[l] && g in w[l] && f != g
    ensures ApartPair(f, g)
  {
    hide ValidVersion, UniqueNumbers, Taken, Replaced;
    ReplaceMembership(v, level, inputs0, inputs1, outputs, w, l, f);
    ReplaceMembership(v, level, inputs0, inputs1, outputs, w, l, g);
    if l == level + 1 && (f in outputs || g in outputs) {
      assert f in outputs && g !in outputs ==> g in v[l] && g !in inputs1;
      assert g in outputs && f !in outputs ==> f in v[l] && f !in inputs1;
    } else {
      DisjointApart(v[l], f, g);
    }
  }

  lemma ReplaceKeepsDisjoint(v: Levels, level: nat, inputs0: Level, inputs1: Level, outputs: Level, w: Levels, l: nat)
    requires ValidVersion(v) && UniqueNumbers(v) && Taken(v, level, inputs0, inputs1) && Ordered(w) && l < |v|
    requires MadeOf(outputs, Inputs(inputs0, inputs1)) && LeftApart(v, level, inputs1, outputs)
    requires Replaced(v, level, inputs0, inputs1, outputs, w)
    ensures ValidFiles(w[l])
    ensures l > 0 ==> Disjoint(w[l])
  {
    forall f | f in w[l] ensures ValidFile(f) {
      ReplaceMembership(v, level, inputs0, inputs1, outputs, w, l, f);
      assert ValidFiles(v[l]);
    }
    if l > 0 {
      forall f, g | f in w[l] && g in w[l] && f != g ensures ApartPair(f, g) {
        ReplacedPairApart(v, level, inputs0, inputs1, outputs, w, l, f, g);
      }
      InOrderAndApart(w[l]);
    }
  }

  lemma OutputsOwn(outputs: Level, o: FileMetaData)
    requires o in outputs
    ensures FileEntries(o) <= Entries(outputs)
  {
  }

  // Replacing inputs by outputs made of them keeps the version in order.
  lemma ReplaceKeepsValid(v: Levels, level: nat, inputs0: Level, inputs1: Level, outputs: Level, w: Levels)
    requires ValidVersion(v) && UniqueNumbers(v) && Taken(v, level, inputs0, inputs1) && Ordered(w)
    requires MadeOf(outputs, Inputs(inputs0, inputs1)) && LeftApart(v, level, inputs1, outputs)
    requires Replaced(v, level, inputs0, inputs1, outputs, w)
    ensures ValidVersion(w)
  {
    forall l | 0 <= l < |w| ensures ValidFiles(w[l]) && (l > 0 ==> Disjoint(w[l])) {
      ReplaceKeepsDisjoint(v, level, inputs0, inputs1, outputs, w, l);
    }
    forall l, m | 0 <= l < m < |w| ensures Newer(Entries(w[l]), Entries(w[m])) {
      ReplaceKeepsOrder(v, level, inputs0, inputs1, outputs, w, l, m);
    }
    forall f | f in w[0] ensures f in v[0] {
      ReplaceMembership(v, level, inputs0, inputs1, outputs, w, 0, f);
    }
    Level0FromUnique(w);
  }

  // The new version is in order if and only if what stays of the next level does not meet the outputs.
  lemma ReplacedIsValidIff(v: Levels, level: nat, inputs0: Level, inputs1: Level, outputs: Level, w: Levels)
    requires ValidVersion(v) && UniqueNumbers(v) && Taken(v, level, inputs0, inputs1) && Ordered(w)
    requires MadeOf(outputs, Inputs(inputs0, inputs1))
    requires Replaced(v, level, inputs0, inputs1, outputs, w)
    ensures |w| == |v|
    ensures Disjoint(w[level + 1]) <==> LeftApart(v, level, inputs1, outputs)
    ensures ValidVersion(w) <==> LeftApart(v, level, inputs1, outputs)
  {
    hide Taken, UniqueNumbers, Ordered, Replaced, MadeOf, Disjoint, Level0Ordered, LevelsOrdered, ValidFiles;
    TakenHasNext(v, level, inputs0, inputs1, outputs, w);
    if LeftApart(v, level, inputs1, outputs) {
      ReplaceKeepsValid(v, level, inputs0, inputs1, outputs, w);
    }
    if Disjoint(w[level + 1]) {
      forall f, o | f in v[level + 1] && f !in inputs1 && o in outputs && f != o ensures ApartPair(f, o) {
        ReplaceMembership(v, level, inputs0, inputs1, outputs, w, level + 1, f);
        ReplaceMembership(v, level, inputs0, inputs1, outputs, w, level + 1, o);
        DisjointApart(w[level + 1], f, o);
      }
    }
  }

  lemma TakenHasNext(v: Levels, level: nat, inputs0: Level, inputs1: Level, outputs: Level, w: Levels)
    requires Taken(v, level, inputs0, inputs1) && Replaced(v, level, inputs0, inputs1, outputs, w)
    ensures level + 1 < |v| == |w|
  {
  }

  // No entry of the inputs is stored a second time elsewhere.
  lemma InputsOnlyOnce(v: Levels, level: nat, inputs0: Level, inputs1: Level, l: nat, f: FileMetaData, e: Entry)
    requires ValidVersion(v) && Replaceable(v, level, inputs0, inputs1) && l < |v| && f in v[l] && e in f.entries
    requires l == level ==> f !in inputs0
    requires l == level + 1 ==> f !in inputs1
    ensures e !in Inputs(inputs0, inputs1)
  {
    hide ValidVersion, Taken;
    if e in Inputs(inputs0, inputs1) {
      assert e in Entries(v[l]);
      if l <= level {
        NewerStays(v, level, inputs0, inputs1, l, f, e, e);
      } else if l > level + 1 || e in Entries(inputs0) {
        OlderBelow(v, level, inputs0, inputs1, l, e, e);
      } else {
        var g :| g in inputs1 && e in g.entries;
        NotInBoth(v, level, inputs0, inputs1, f, g, e);
      }
    }
  }

  lemma NotInBoth(v: Levels, level: nat, inputs0: Level, inputs1: Level, f: FileMetaData, g: FileMetaData, e: Entry)
    requires ValidVersion(v) && Replaceable(v, level, inputs0, inputs1)
    requires f in v[level + 1] && f !in inputs1 && g in inputs1 && e in g.entries
    ensures e !in f.entries
  {
    assert g in inputs0 + inputs1 && Apart(f, inputs0 + inputs1);
    assert ValidFiles(v[level + 1]);
    assert ValidFile(f) && ValidFile(g);
    EntryInRange(g, e);
    if e in f.entries {
      EntryInRange(f, e);
      assert false;
    }
  }

  lemma StoredAfter(v: Levels, level: nat, inputs0: Level, inputs1: Level, outputs: Level, w: Levels, e: Entry)
    requires ValidVersion(v) && UniqueNumbers(v) && Replaceable(v, level, inputs0, inputs1)
    requires Entries(outputs) <= Inputs(inputs0, inputs1)
    requires Replaced(v, level, inputs0, inputs1, outputs, w)
    requires |v| == |w| == NUM_LEVELS && e in AllEntries(w)
    ensures e in AllEntries(v) && (e in Inputs(inputs0, inputs1) ==> e in Entries(outputs))
  {
    hide ValidVersion, UniqueNumbers, Taken, Replaced;
    var l :| 0 <= l < |w| && e in Entries(w[l]);
    var moved, f := ReplaceOrigin(v, level, inputs0, inputs1, outputs, w, l, e);
    if moved {
      InputOrigin(v, level, inputs0, inputs1, e);
    } else {
      InputsOnlyOnce(v, level, inputs0, inputs1, l, f, e);
    }
  }

  lemma StaysStored(v: Levels, level: nat, inputs0: Level, inputs1: Level, outputs: Level, w: Levels, e: Entry)
    requires ValidVersion(v) && UniqueNumbers(v) && Replaceable(v, level, inputs0, inputs1)
    requires Replaced(v, level, inputs0, inputs1, outputs, w)
    requires |v| == |w| == NUM_LEVELS && level + 1 < |v| && e in AllEntries(v)
    requires e in Inputs(inputs0, inputs1) ==> e in Entries(outputs)
    ensures e in AllEntries(w)
  {
    hide ValidVersion, UniqueNumbers, Taken, Replaced;
    if e in Entries(outputs) {
      var o :| o in outputs && e in o.entries;
      ReplaceMembership(v, level, inputs0, inputs1, outputs, w, level + 1, o);
      assert e in Entries(w[level + 1]);
    } else {
      var l :| 0 <= l < |v| && e in Entries(v[l]);
      var f :| f in v[l] && e in f.entries;
      ReplaceMembership(v, level, inputs0, inputs1, outputs, w, l, f);
      assert f in w[l];
      assert e in Entries(w[l]);
    }
  }

  // Exactly the input entries that are in no output disappear.
  lemma ReplacedEntries(v: Levels, level: nat, inputs0: Level, inputs1: Level, outputs: Level, w: Levels)
    requires ValidVersion(v) && UniqueNumbers(v) && Replaceable(v, level, inputs0, inputs1)
    requires Entries(outputs) <= Inputs(inputs0, inputs1)
    requires Replaced(v, level, inputs0, inputs1, outputs, w)
    requires |v| == |w| == NUM_LEVELS && level + 1 < |v|
    ensures AllEntries(w) == AllEntries(v) - (Inputs(inputs0, inputs1) - Entries(outputs))
  {
    hide ValidVersion, UniqueNumbers, Taken, Replaced, AllEntries, Entries;
    var I := Inputs(inputs0, inputs1);
    forall e | e in AllEntries(w) ensures e in AllEntries(v) && (e in I ==> e in Entries(outputs)) {
      StoredAfter(v, level, inputs0, inputs1, outputs, w, e);
    }
    forall e | e in AllEntries(v) && (e in I ==> e in Entries(outputs)) ensures e in AllEntries(w) {
      StaysStored(v, level, inputs0, inputs1, outputs, w, e);
    }
  }
}
