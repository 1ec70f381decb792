/** VersionSet::Builder (db/version_set.cc): applying edits to a version, one or many at a time. */
module VersionBuilder {
  import opened Dbformat
  import opened Version
  import opened Lsm

  // f is in level l after the edits.
  ghost predicate Live(base: Levels, edits: seq<VersionEdit>, l: nat, f: FileMetaData)
    requires l < |base|
    decreases |edits|
  {
    if edits == [] then f in base[l]
    else
      var edit := edits[|edits| - 1];
      (l, f) in edit.newFiles || (Live(base, edits[..|edits| - 1], l, f) && (l, f.number) !in edit.deletedFiles)
  }

  // Distinct numbers make file order total.
  lemma FileOrderIsTotal(f: FileMetaData, g: FileMetaData)
    ensures f.number != g.number ==> FileBefore(f, g) || FileBefore(g, f)
    ensures !(FileBefore(f, g) && FileBefore(g, f))
  {
    BeforeIsTotal(f.smallest, g.smallest, f.smallest);
  }

  lemma FileOrderIsTransitive(f: FileMetaData, g: FileMetaData, h: FileMetaData)
    ensures FileBefore(f, g) && FileBefore(g, h) ==> FileBefore(f, h)
  {
    BeforeIsTotal(f.smallest, g.smallest, h.smallest);
  }

  // A level's files in file order are determined by which files they are.
  lemma {:induction false} FileOrderIsUnique(a: Level, b: Level)
    requires InFileOrder(a) && InFileOrder(b) && forall f :: f in a <==> f in b
    ensures a == b
  {
    hide FileBefore;
    assert a != [] ==> a[0] in a;
    assert b != [] ==> b[0] in b;
    if a != [] {
      FirstIsSame(a, b);
      forall f ensures f in a[1..] <==> f in b[1..] {
        TailMember(a, f);
        TailMember(b, f);
      }
      FileOrderIsUnique(a[1..], b[1..]);
      assert a == [a[0]] + a[1..] && b == [b[0]] + b[1..];
    }
  }

  lemma TailMember(a: Level, f: FileMetaData)
    requires InFileOrder(a) && a != []
    ensures f in a[1..] <==> f in a && f != a[0]
  {
    if f in a[1..] {
      var i :| 1 <= i < |a| && a[i] == f;
      assert FileBefore(a[0], a[i]);
      FileOrderIsTotal(a[0], a[i]);
    }
  }

  lemma FirstIsSame(a: Level, b: Level)
    requires InFileOrder(a) && InFileOrder(b) && a != [] && b != []
    requires forall f :: f in a <==> f in b
    ensures a[0] == b[0]
  {
    hide FileBefore;
    assert a[0] in b && b[0] in a;
    var i :| 0 <= i < |b| && b[i] == a[0];
    var j :| 0 <= j < |a| && a[j] == b[0];
    assert i > 0 ==> FileBefore(b[0], b[i]);
    assert j > 0 ==> FileBefore(a[0], a[j]);
    FileOrderIsTotal(a[0], b[0]);
  }

  // std::set<FileMetaData*, BySmallestKey>::insert of a file with a new number.
  function Insert(files: Level, f: FileMetaData): (r: Level)
    requires InFileOrder(files) && forall g :: g in files ==> g.number != f.number
    ensures forall g :: g in r <==> g in files || g == f
  {
    if files == [] then [f]
    else if FileBefore(f, files[0]) then [f] + files
    else
      assert files == [files[0]] + files[1..];
      [files[0]] + Insert(files[1..], f)
  }

  lemma {:induction false} InsertKeepsOrder(files: Level, f: FileMetaData)
    requires InFileOrder(files) && forall g :: g in files ==> g.number != f.number
    ensures InFileOrder(Insert(files, f))
  {
    hide FileBefore;
    if files != [] {
      FileOrderIsTotal(f, files[0]);
      if FileBefore(f, files[0]) {
        forall i | 0 <= i < |files| ensures FileBefore(f, files[i]) {
          FileOrderIsTransitive(f, files[0], files[i]);
        }
      } else {
        InsertKeepsOrder(files[1..], f);
        var rest := Insert(files[1..], f);
        forall i | 0 <= i < |rest| ensures FileBefore(files[0], rest[i]) {
          assert rest[i] in rest;
          if rest[i] != f {
            var j :| 1 <= j < |files| && files[j] == rest[i];
          }
        }
      }
    }
  }

  ghost predicate NumbersDiffer(a: Level, b: Level) {
    forall f, g :: f in a && g in b ==> f.number != g.number
  }

  // The edit adds no file to a level that has, or had, one of that number.
  ghost predicate AddsNew(base: Levels, added: seq<Level>, edit: VersionEdit)
    requires |base| == |added| == NUM_LEVELS
  {
    && (forall i :: 0 <= i < |edit.newFiles| ==> edit.newFiles[i].0 < NUM_LEVELS)
    && (forall i, g :: 0 <= i < |edit.newFiles| && (g in base[edit.newFiles[i].0] || g in added[edit.newFiles[i].0]) ==>
          g.number != edit.newFiles[i].1.number)
    && forall i, j :: 0 <= i < j < |edit.newFiles| && edit.newFiles[i].0 == edit.newFiles[j].0 ==>
         edit.newFiles[i].1.number != edit.newFiles[j].1.number
  }

  class Builder {
    const base: Levels
    var deletedFiles: seq<set<nat>>
    var addedFiles: seq<Level>
    ghost var edits: seq<VersionEdit>

    ghost predicate Valid()
      reads this
    {
      |deletedFiles| == NUM_LEVELS && InPlace() && Holds()
    }

    ghost predicate InPlace()
      reads this
    {
      && |base| == |addedFiles| == NUM_LEVELS
      && forall l :: 0 <= l < NUM_LEVELS ==>
           InFileOrder(base[l]) && InFileOrder(addedFiles[l]) && NumbersDiffer(addedFiles[l], base[l])
    }

    // The builder stands for its base after the edits it was fed.
    ghost predicate Holds()
      requires |base| == |deletedFiles| == |addedFiles| == NUM_LEVELS
      reads this
    {
      forall l, f :: 0 <= l < NUM_LEVELS ==>
        ((f in base[l] || f in addedFiles[l]) && f.number !in deletedFiles[l] <==> Live(base, edits, l, f))
    }

    constructor (v: Levels)
      requires |v| == NUM_LEVELS && forall l :: 0 <= l < |v| ==> InFileOrder(v[l])
      ensures Valid() && base == v && edits == [] && addedFiles == [[], [], [], [], [], [], []]
    {
      base := v;
      deletedFiles := [{}, {}, {}, {}, {}, {}, {}];
      addedFiles := [[], [], [], [], [], [], []];
      edits := [];
    }

    method Apply(edit: VersionEdit)
      requires Valid() && AddsNew(base, addedFiles, edit)
      modifies this
      ensures Valid() && edits == old(edits) + [edit] && |addedFiles| == NUM_LEVELS
      ensures forall l, f ::
                0 <= l < NUM_LEVELS ==> (f in addedFiles[l] <==> f in old(addedFiles[l]) || (l, f) in edit.newFiles)
    {
      hide Live, FileBefore, AddsNumber;
      ghost var del0, added0 := deletedFiles, addedFiles;
      DeleteFiles(edit);
      AddNewFiles(edit);
      edits := edits + [edit];
      forall l, f | 0 <= l < NUM_LEVELS
        ensures (f in base[l] || f in addedFiles[l]) && f.number !in deletedFiles[l] <==> Live(base, edits, l, f)
      {
        ApplyOne(base, old(edits), edit, l, f, added0[l], del0[l]);
      }
    }

    method DeleteFiles(edit: VersionEdit)
      requires |deletedFiles| == NUM_LEVELS
      modifies `deletedFiles
      ensures |deletedFiles| == NUM_LEVELS
      ensures forall l, n :: 0 <= l < NUM_LEVELS ==>
                (n in deletedFiles[l] <==> n in old(deletedFiles[l]) || (l, n) in edit.deletedFiles)
    {
      for level := 0 to NUM_LEVELS
        invariant |deletedFiles| == NUM_LEVELS
        invariant forall l, n :: 0 <= l < NUM_LEVELS ==>
                    (n in deletedFiles[l] <==> n in old(deletedFiles[l]) || (l < level && (l, n) in edit.deletedFiles))
      {
        deletedFiles := deletedFiles[level := deletedFiles[level] + NumbersOf(edit, level)];
      }
    }

    method AddNewFiles(edit: VersionEdit)
      requires |deletedFiles| == NUM_LEVELS && InPlace() && AddsNew(base, addedFiles, edit)
      modifies `deletedFiles, `addedFiles
      ensures |deletedFiles| == NUM_LEVELS && InPlace()
      ensures forall l, f :: 0 <= l < NUM_LEVELS ==>
                (f in addedFiles[l] <==> f in old(addedFiles[l]) || (l, f) in edit.newFiles)
      ensures forall l, n :: 0 <= l < NUM_LEVELS ==>
                (n in deletedFiles[l] <==> n in old(deletedFiles[l]) && !AddsNumber(edit.newFiles, l, n))
    {
      hide InFileOrder, FileBefore;
      for i := 0 to |edit.newFiles|
        invariant |deletedFiles| == NUM_LEVELS && InPlace()
        invariant forall l, f :: 0 <= l < NUM_LEVELS ==>
                    (f in addedFiles[l] <==> f in old(addedFiles[l]) || (l, f) in edit.newFiles[..i])
        invariant forall l, n :: 0 <= l < NUM_LEVELS ==>
                    (n in deletedFiles[l] <==> n in old(deletedFiles[l]) && !AddsNumber(edit.newFiles[..i], l, n))
      {
        var (level, f) := edit.newFiles[i];
        assert edit.newFiles[..i + 1] == edit.newFiles[..i] + [(level, f)];
        forall g | g in addedFiles[level] ensures g.number != f.number {
          if g !in old(addedFiles[level]) {
            var j :| 0 <= j < i && edit.newFiles[j] == (level, g);
          }
        }
        forall l, n
          ensures AddsNumber(edit.newFiles[..i + 1], l, n) <==>
                    AddsNumber(edit.newFiles[..i], l, n) || (l == level && n == f.number)
        {
          AddsOneMore(edit.newFiles[..i], level, f, l, n);
        }
        deletedFiles := deletedFiles[level := deletedFiles[level] - {f.number}];
        InsertKeepsOrder(addedFiles[level], f);
        addedFiles := addedFiles[level := Insert(addedFiles[level], f)];
      }
      assert edit.newFiles[..|edit.newFiles|] == edit.newFiles;
    }

    // The merge of base and added files, without the deleted ones.
    method SaveTo() returns (v: Levels)
      requires Valid()
      ensures |v| == NUM_LEVELS
      ensures forall l, f :: 0 <= l < NUM_LEVELS ==> (f in v[l] <==> Live(base, edits, l, f))
      ensures forall l :: 0 <= l < NUM_LEVELS ==> InFileOrder(v[l])
    {
      hide Live, FileBefore;
      v := [];
      for level := 0 to NUM_LEVELS
        invariant |v| == level
        invariant forall l, f :: 0 <= l < level ==> (f in v[l] <==> Live(base, edits, l, f))
        invariant forall l :: 0 <= l < level ==> InFileOrder(v[l])
      {
        var files := MergeLevel(base[level], addedFiles[level], deletedFiles[level]);
        v := v + [files];
      }
    }
  }

  function NumbersOf(edit: VersionEdit, l: nat): set<nat> {
    set p | p in edit.deletedFiles && p.0 == l :: p.1
  }

  ghost predicate AddsNumber(newFiles: seq<(nat, FileMetaData)>, l: nat, n: nat) {
    exists i :: 0 <= i < |newFiles| && newFiles[i].0 == l && newFiles[i].1.number == n
  }

  lemma AddsOneMore(newFiles: seq<(nat, FileMetaData)>, level: nat, f: FileMetaData, l: nat, n: nat)
    ensures AddsNumber(newFiles + [(level, f)], l, n) <==> AddsNumber(newFiles, l, n) || (l == level && n == f.number)
  {
    var more := newFiles + [(level, f)];
    assert more[|newFiles|] == (level, f);
    if AddsNumber(newFiles, l, n) {
      var i :| 0 <= i < |newFiles| && newFiles[i].0 == l && newFiles[i].1.number == n;
      assert more[i] == newFiles[i];
    }
  }

  lemma ApplyOne(
      base: Levels, e0: seq<VersionEdit>, edit: VersionEdit, l: nat, f: FileMetaData, added0: Level, del0: set<nat>)
    requires l < |base|
    requires (f in base[l] || f in added0) && f.number !in del0 <==> Live(base, e0, l, f)
    requires forall i, g :: 0 <= i < |edit.newFiles| && edit.newFiles[i].0 == l && (g in base[l] || g in added0) ==>
               g.number != edit.newFiles[i].1.number
    requires forall i, j :: 0 <= i < j < |edit.newFiles| && edit.newFiles[i].0 == edit.newFiles[j].0 ==>
               edit.newFiles[i].1.number != edit.newFiles[j].1.number
    ensures Live(base, e0 + [edit], l, f) <==>
              && (f in base[l] || f in added0 || (l, f) in edit.newFiles)
              && ((f.number !in del0 && (l, f.number) !in edit.deletedFiles) || AddsNumber(edit.newFiles, l, f.number))
  {
    assert (e0 + [edit])[..|e0|] == e0;
    if (l, f) in edit.newFiles {
      var i :| 0 <= i < |edit.newFiles| && edit.newFiles[i] == (l, f);
    }
    if AddsNumber(edit.newFiles, l, f.number) {
      var i :| 0 <= i < |edit.newFiles| && edit.newFiles[i].0 == l && edit.newFiles[i].1.number == f.number;
    }
  }

  // One level of SaveTo.
  method MergeLevel(base: Level, added: Level, deleted: set<nat>) returns (files: Level)
    requires InFileOrder(base) && InFileOrder(added) && NumbersDiffer(added, base)
    ensures InFileOrder(files)
    ensures forall f :: f in files <==> (f in base || f in added) && f.number !in deleted
  {
    hide FileBefore;
    files := [];
    var b := 0;
    for a := 0 to |added|
      invariant 0 <= b <= |base|
      invariant Merging(files, base, b, added, a, deleted)
    {
      // add all smaller files of base
      while b < |base| && !FileBefore(added[a], base[b])
        invariant 0 <= b <= |base|
        invariant Merging(files, base, b, added, a, deleted)
      {
        FileOrderIsTotal(added[a], base[b]);
        assert added[a] in added && base[b] in base;
        TakeBase(files, base, b, added, a, deleted);
        files := MaybeAddFile(files, base[b], deleted);
        b := b + 1;
      }
      TakeAdded(files, base, b, added, a, deleted);
      files := MaybeAddFile(files, added[a], deleted);
    }
    // add the remaining base files
    while b < |base|
      invariant 0 <= b <= |base|
      invariant Merging(files, base, b, added, |added|, deleted)
    {
      TakeBase(files, base, b, added, |added|, deleted);
      files := MaybeAddFile(files, base[b], deleted);
      b := b + 1;
    }
    assert base[..b] == base && added[..|added|] == added;
  }

  function MaybeAddFile(files: Level, f: FileMetaData, deleted: set<nat>): Level {
    if f.number in deleted then files else files + [f]
  }

  // files is the merge of base[..b] and added[..a], and before all the rest.
  ghost predicate Merging(files: Level, base: Level, b: nat, added: Level, a: nat, deleted: set<nat>)
    requires b <= |base| && a <= |added|
  {
    && InFileOrder(files)
    && (forall f :: f in files <==> (f in base[..b] || f in added[..a]) && f.number !in deleted)
    && (forall f, i :: f in files && b <= i < |base| ==> FileBefore(f, base[i]))
    && forall f, i :: f in files && a <= i < |added| ==> FileBefore(f, added[i])
  }

  lemma AppendKeepsOrder(files: Level, f: FileMetaData)
    requires InFileOrder(files) && forall g :: g in files ==> FileBefore(g, f)
    ensures InFileOrder(files + [f])
  {
    hide FileBefore;
    assert forall i :: 0 <= i < |files| ==> files[i] in files;
  }

  lemma TakeBase(files: Level, base: Level, b: nat, added: Level, a: nat, deleted: set<nat>)
    requires InFileOrder(base) && InFileOrder(added) && b < |base| && a <= |added|
    requires Merging(files, base, b, added, a, deleted)
    requires a < |added| ==> FileBefore(base[b], added[a])
    ensures Merging(MaybeAddFile(files, base[b], deleted), base, b + 1, added, a, deleted)
  {
    hide FileBefore;
    var f := base[b];
    assert forall g :: g in base[..b + 1] <==> g in base[..b] || g == f by {
      assert base[..b + 1] == base[..b] + [f];
    }
    assert forall i :: b < i < |base| ==> FileBefore(f, base[i]);
    forall i | a <= i < |added| ensures FileBefore(f, added[i]) {
      FileOrderIsTransitive(f, added[a], added[i]);
    }
    AppendKeepsOrder(files, f);
  }

  lemma TakeAdded(files: Level, base: Level, b: nat, added: Level, a: nat, deleted: set<nat>)
    requires InFileOrder(base) && InFileOrder(added) && b <= |base| && a < |added|
    requires Merging(files, base, b, added, a, deleted)
    requires b < |base| ==> FileBefore(added[a], base[b])
    ensures Merging(MaybeAddFile(files, added[a], deleted), base, b, added, a + 1, deleted)
  {
    hide FileBefore;
    var f := added[a];
    assert forall g :: g in added[..a + 1] <==> g in added[..a] || g == f by {
      assert added[..a + 1] == added[..a] + [f];
    }
    assert forall i :: a < i < |added| ==> FileBefore(f, added[i]);
    forall i | b <= i < |base| ensures FileBefore(f, base[i]) {
      FileOrderIsTransitive(f, base[b], base[i]);
    }
    AppendKeepsOrder(files, f);
  }
}
