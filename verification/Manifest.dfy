/** VersionSet (db/version_set.cc): installing edits one at a time with a record of each in the
    manifest, and rebuilding the version from the manifest. */
module Manifest {
  import opened Dbformat
  import opened Version
  import opened Lsm
  import opened VersionBuilder

  // A manifest record: an edit, with the counters it may set.
  datatype Record = Record(edit: VersionEdit, logNumber: Option<nat>, nextFile: Option<nat>, lastSequence: Option<nat>)

  function Edits(records: seq<Record>): (r: seq<VersionEdit>)
    ensures |r| == |records| && forall i :: 0 <= i < |r| ==> r[i] == records[i].edit
  {
    seq(|records|, i requires 0 <= i < |records| => records[i].edit)
  }

  // The level-and-number pairs an edit adds.
  function Placed(edit: VersionEdit): set<(nat, nat)> {
    set p | p in edit.newFiles :: (p.0, p.1.number)
  }

  function PlacedBy(records: seq<Record>): set<(nat, nat)> {
    if records == [] then {} else PlacedBy(records[..|records| - 1]) + Placed(records[|records| - 1].edit)
  }

  // The edit puts files where no file of that number has been, each number once.
  ghost predicate PlacesNew(edit: VersionEdit, held: set<(nat, nat)>) {
    && (forall i :: 0 <= i < |edit.newFiles| ==>
          edit.newFiles[i].0 < NUM_LEVELS && (edit.newFiles[i].0, edit.newFiles[i].1.number) !in held)
    && forall i, j :: 0 <= i < j < |edit.newFiles| && edit.newFiles[i].0 == edit.newFiles[j].0 ==>
         edit.newFiles[i].1.number != edit.newFiles[j].1.number
  }

  // No file of the manifest has this number or a later one.
  ghost predicate NumbersFree(held: set<(nat, nat)>, next: nat) {
    forall l, n :: (l, n) in held ==> n < next
  }

  ghost predicate NeverReadds(records: seq<Record>) {
    forall i :: 0 <= i < |records| ==> PlacesNew(records[i].edit, PlacedBy(records[..i]))
  }

  // The versions an empty database goes through when the edits are applied one at a time.
  ghost predicate Stepwise(versions: seq<Levels>, records: seq<Record>) {
    && |versions| == |records| + 1
    && versions[0] == NO_FILES
    && forall i :: 0 <= i < |records| ==> Applied(versions[i], records[i].edit, versions[i + 1])
  }

  lemma {:induction false} StepwiseIsLive(versions: seq<Levels>, records: seq<Record>)
    requires Stepwise(versions, records)
    ensures |versions[|records|]| == NUM_LEVELS
    ensures forall l, f :: 0 <= l < NUM_LEVELS ==>
              (f in versions[|records|][l] <==> Live(NO_FILES, Edits(records), l, f))
    ensures forall l :: 0 <= l < NUM_LEVELS ==> InFileOrder(versions[|records|][l])
    decreases |records|
  {
    hide InFileOrder;
    if records == [] {
      EmptyInOrder();
    } else {
      var n := |records| - 1;
      StepwiseIsLive(versions[..n + 1], records[..n]);
      assert Edits(records)[..n] == Edits(records[..n]);
      assert Applied(versions[n], records[n].edit, versions[n + 1]);
    }
  }

  lemma EmptyInOrder()
    ensures forall l :: 0 <= l < NUM_LEVELS ==> InFileOrder(NO_FILES[l])
  {
  }

  // One builder fed all the edits builds what applying them one version at a time builds.
  lemma ReplayIsStepwise(versions: seq<Levels>, records: seq<Record>, w: Levels)
    requires Stepwise(versions, records)
    requires |w| == NUM_LEVELS && forall l :: 0 <= l < NUM_LEVELS ==> InFileOrder(w[l])
    requires forall l, f :: 0 <= l < NUM_LEVELS ==> (f in w[l] <==> Live(NO_FILES, Edits(records), l, f))
    ensures w == versions[|records|]
  {
    hide InFileOrder, Live, Applied;
    StepwiseIsLive(versions, records);
    var v := versions[|records|];
    forall l | 0 <= l < NUM_LEVELS ensures w[l] == v[l] {
      assert forall f :: f in w[l] <==> f in v[l];
      FileOrderIsUnique(w[l], v[l]);
    }
  }

  // The last value the records give a counter.
  function Latest(values: seq<Option<nat>>): Option<nat> {
    if values == [] then None
    else if values[|values| - 1].Some? then values[|values| - 1]
    else Latest(values[..|values| - 1])
  }

  function LogNumbers(records: seq<Record>): seq<Option<nat>> {
    seq(|records|, i requires 0 <= i < |records| => records[i].logNumber)
  }

  function NextFiles(records: seq<Record>): seq<Option<nat>> {
    seq(|records|, i requires 0 <= i < |records| => records[i].nextFile)
  }

  function LastSequences(records: seq<Record>): seq<Option<nat>> {
    seq(|records|, i requires 0 <= i < |records| => records[i].lastSequence)
  }

  lemma LatestOfNone()
    ensures Latest(LogNumbers([])) == Latest(NextFiles([])) == Latest(LastSequences([])) == None
  {
  }

  lemma LatestOfMore(records: seq<Record>, r: Record)
    ensures Latest(LogNumbers(records + [r])) == if r.logNumber.Some? then r.logNumber else Latest(LogNumbers(records))
    ensures Latest(NextFiles(records + [r])) == if r.nextFile.Some? then r.nextFile else Latest(NextFiles(records))
    ensures Latest(LastSequences(records + [r])) ==
              if r.lastSequence.Some? then r.lastSequence else Latest(LastSequences(records))
  {
    var n := |records|;
    assert LogNumbers(records + [r])[..n] == LogNumbers(records);
    assert NextFiles(records + [r])[..n] == NextFiles(records);
    assert LastSequences(records + [r])[..n] == LastSequences(records);
  }

  ghost predicate LeadsTo(records: seq<Record>, v: Levels) {
    && NeverReadds(records)
    && exists versions :: Stepwise(versions, records) && versions[|records|] == v
  }

  // The records lead to this version and these counters.  File numbers allocated, and sequence numbers
  // used, since the last record are not in it, but those of all its files are.
  ghost predicate Describes(records: seq<Record>, v: Levels, logNumber: nat, nextFile: nat, lastSequence: nat) {
    && LeadsTo(records, v)
    && Latest(LogNumbers(records)) == Some(logNumber)
    && Latest(NextFiles(records)).Some? && Latest(NextFiles(records)).value <= nextFile
    && NumbersFree(PlacedBy(records), Latest(NextFiles(records)).value)
    && Latest(LastSequences(records)).Some? && Latest(LastSequences(records)).value <= lastSequence
  }

  ghost predicate NumbersDistinct(files: Level) {
    forall f, g :: f in files && g in files && f.number == g.number ==> f == g
  }

  ghost predicate WellKept(v: Levels, held: set<(nat, nat)>) {
    && |v| == NUM_LEVELS
    && (forall l :: 0 <= l < NUM_LEVELS ==> InFileOrder(v[l]) && NumbersDistinct(v[l]))
    && forall l, f :: 0 <= l < NUM_LEVELS && f in v[l] ==> (l, f.number) in held
  }

  lemma NewFilePlaced(edit: VersionEdit, l: nat, f: FileMetaData)
    requires (l, f) in edit.newFiles
    ensures (l, f.number) in Placed(edit)
  {
    var p := (l, f);
    assert p in edit.newFiles && p.0 == l && p.1.number == f.number;
  }

  lemma NewIsApart(edit: VersionEdit, held: set<(nat, nat)>, l: nat, f: FileMetaData, g: FileMetaData)
    requires PlacesNew(edit, held) && f.number == g.number
    ensures (l, f) in edit.newFiles ==> (l, g.number) !in held && ((l, g) in edit.newFiles ==> f == g)
  {
    if (l, f) in edit.newFiles {
      var i :| 0 <= i < |edit.newFiles| && edit.newFiles[i] == (l, f);
      if (l, g) in edit.newFiles {
        var j :| 0 <= j < |edit.newFiles| && edit.newFiles[j] == (l, g);
      }
    }
  }

  lemma AppliedIsWellKept(v: Levels, held: set<(nat, nat)>, edit: VersionEdit, w: Levels)
    requires WellKept(v, held) && PlacesNew(edit, held) && Applied(v, edit, w)
    ensures WellKept(w, held + Placed(edit))
  {
    hide InFileOrder;
    forall l, f | 0 <= l < NUM_LEVELS && f in w[l] ensures (l, f.number) in held + Placed(edit) {
      if (l, f) in edit.newFiles {
        NewFilePlaced(edit, l, f);
      }
    }
    forall l, f, g | 0 <= l < NUM_LEVELS && f in w[l] && g in w[l] && f.number == g.number ensures f == g {
      NewIsApart(edit, held, l, f, g);
      NewIsApart(edit, held, l, g, f);
    }
  }

  // What the records build keeps one file per number and level, where the records placed it.
  lemma {:induction false} LiveIsPlaced(records: seq<Record>, l: nat, f: FileMetaData)
    requires l < NUM_LEVELS && Live(NO_FILES, Edits(records), l, f)
    ensures (l, f.number) in PlacedBy(records)
    decreases |records|
  {
    if records != [] {
      var n := |records| - 1;
      assert Edits(records)[..n] == Edits(records[..n]);
      if (l, f) in records[n].edit.newFiles {
        NewFilePlaced(records[n].edit, l, f);
      } else {
        LiveIsPlaced(records[..n], l, f);
      }
    }
  }

  lemma {:induction false} LiveIsDistinct(records: seq<Record>, l: nat, f: FileMetaData, g: FileMetaData)
    requires NeverReadds(records) && l < NUM_LEVELS && f.number == g.number
    requires Live(NO_FILES, Edits(records), l, f) && Live(NO_FILES, Edits(records), l, g)
    ensures f == g
    decreases |records|
  {
    if records != [] {
      var n := |records| - 1;
      var init := records[..n];
      var edit := records[n].edit;
      assert forall i :: 0 <= i <= n ==> init[..i] == records[..i];
      assert Edits(records)[..n] == Edits(init);
      NewIsApart(edit, PlacedBy(init), l, f, g);
      NewIsApart(edit, PlacedBy(init), l, g, f);
      if (l, f) in edit.newFiles {
        if (l, g) !in edit.newFiles {
          LiveIsPlaced(init, l, g);
        }
      } else if (l, g) in edit.newFiles {
        LiveIsPlaced(init, l, f);
      } else {
        LiveIsDistinct(init, l, f, g);
      }
    }
  }

  lemma BuiltIsWellKept(records: seq<Record>, w: Levels)
    requires NeverReadds(records)
    requires |w| == NUM_LEVELS && forall l :: 0 <= l < NUM_LEVELS ==> InFileOrder(w[l])
    requires forall l, f :: 0 <= l < NUM_LEVELS ==> (f in w[l] <==> Live(NO_FILES, Edits(records), l, f))
    ensures WellKept(w, Placed(SnapshotEdit(w)))
  {
    hide InFileOrder, Live, NeverReadds;
    forall l, f | 0 <= l < NUM_LEVELS && f in w[l] ensures (l, f.number) in Placed(SnapshotEdit(w)) {
      LocatedHolds(w, l, f);
      NewFilePlaced(SnapshotEdit(w), l, f);
    }
    forall l, f, g | 0 <= l < NUM_LEVELS && f in w[l] && g in w[l] && f.number == g.number ensures f == g {
      LiveIsDistinct(records, l, f, g);
    }
  }

  lemma BuiltNumbersAreFree(records: seq<Record>, w: Levels, next: nat)
    requires |w| == NUM_LEVELS
    requires forall l, f :: 0 <= l < NUM_LEVELS && f in w[l] ==> Live(NO_FILES, Edits(records), l, f)
    ensures NumbersFree(PlacedBy(records), next) ==> NumbersFree(Placed(SnapshotEdit(w)), next + 1)
  {
    hide Live;
    forall l, n | NumbersFree(PlacedBy(records), next) && (l, n) in Placed(SnapshotEdit(w)) ensures n < next + 1 {
      var p :| p in Located(w) && p.0 == l && p.1.number == n;
      LocatedHolds(w, l, p.1);
      LiveIsPlaced(records, l, p.1);
    }
  }

  // A snapshot record leads to the version it lists.
  lemma SnapshotLeads(v: Levels, r: Record)
    requires WellKept(v, Placed(SnapshotEdit(v))) && r.edit == SnapshotEdit(v)
    ensures LeadsTo([r], v)
    ensures PlacedBy([r]) == Placed(r.edit)
  {
    hide InFileOrder, Placed, PlacesNew, Located;
    SnapshotPlacesNew(v);
    assert [r][..0] == [];
    forall l: nat, f ensures l < |v| && f in v[l] <==> (l, f) in Located(v) {
      LocatedHolds(v, l, f);
    }
    assert Applied(NO_FILES, r.edit, v);
    assert Stepwise([NO_FILES, v], [r]);
  }

  lemma SnapshotPlacesNew(v: Levels)
    requires WellKept(v, Placed(SnapshotEdit(v)))
    ensures PlacesNew(SnapshotEdit(v), {})
  {
    hide InFileOrder, Placed;
    var files := Located(v);
    forall i | 0 <= i < |files| ensures files[i].0 < NUM_LEVELS && files[i].1 in v[files[i].0] {
      LocatedHolds(v, files[i].0, files[i].1);
      assert (files[i].0, files[i].1) in files;
    }
    LocatedDistinct(v);
  }

  lemma {:induction false} LocatedDistinct(v: Levels)
    requires forall l :: 0 <= l < |v| ==> InFileOrder(v[l])
    ensures forall i, j :: 0 <= i < j < |Located(v)| ==> Located(v)[i] != Located(v)[j]
  {
    if v != [] {
      var n := |v| - 1;
      LocatedDistinct(v[..n]);
      var before, here := Located(v[..n]), At(n, v[n]);
      forall i | 0 <= i < |before| ensures before[i].0 < n {
        LocatedHolds(v[..n], before[i].0, before[i].1);
        assert (before[i].0, before[i].1) in before;
      }
      forall i, j | 0 <= i < j < |here| ensures here[i] != here[j] {
        assert FileBefore(v[n][i], v[n][j]);
        FileOrderIsTotal(v[n][i], v[n][j]);
      }
    }
  }

  // A builder over v fed one edit builds v after that edit.
  lemma OneEditIsApplied(v: Levels, edit: VersionEdit, w: Levels)
    requires |v| == |w| == NUM_LEVELS && forall l :: 0 <= l < NUM_LEVELS ==> InFileOrder(w[l])
    requires forall l, f :: 0 <= l < NUM_LEVELS ==> (f in w[l] <==> Live(v, [edit], l, f))
    ensures Applied(v, edit, w)
  {
    hide InFileOrder;
    forall l: nat, f | l < NUM_LEVELS
      ensures Live(v, [edit], l, f) <==> (f in v[l] && (l, f.number) !in edit.deletedFiles) || (l, f) in edit.newFiles
    {
      assert Live(v, [edit][..0], l, f) <==> f in v[l];
    }
  }

  lemma NewToBuilder(v: Levels, held: set<(nat, nat)>, edit: VersionEdit)
    requires WellKept(v, held) && PlacesNew(edit, held)
    ensures AddsNew(v, NO_FILES, edit)
  {
  }

  // One more record for one more edit.
  lemma LeadsToMore(records: seq<Record>, v: Levels, r: Record, w: Levels)
    requires LeadsTo(records, v) && PlacesNew(r.edit, PlacedBy(records)) && Applied(v, r.edit, w)
    ensures LeadsTo(records + [r], w)
    ensures PlacedBy(records + [r]) == PlacedBy(records) + Placed(r.edit)
  {
    hide PlacesNew, Applied;
    var more := records + [r];
    var n := |records|;
    assert more[..n] == records;
    assert forall i :: 0 <= i <= n ==> more[..i] == records[..i];
    var versions :| Stepwise(versions, records) && versions[n] == v;
    assert Stepwise(versions + [w], more);
  }

  lemma DescribesMore(records: seq<Record>, v: Levels, r: Record, w: Levels, log: nat, next: nat, last: nat)
    requires LeadsTo(records, v) && PlacesNew(r.edit, PlacedBy(records)) && Applied(v, r.edit, w)
    requires r.logNumber == Some(log) && r.nextFile == Some(next) && r.lastSequence == Some(last)
    requires NumbersFree(PlacedBy(records) + Placed(r.edit), next)
    ensures Describes(records + [r], w, log, next, last)
    ensures Latest(NextFiles(records + [r])) == Some(next) && Latest(LastSequences(records + [r])) == Some(last)
    ensures PlacedBy(records + [r]) == PlacedBy(records) + Placed(r.edit)
  {
    hide PlacesNew, Applied, LeadsTo, Latest, PlacedBy, Placed, NumbersFree;
    LeadsToMore(records, v, r, w);
    LatestOfMore(records, r);
  }

  lemma {:induction false} LocatedHolds(v: Levels, l: nat, f: FileMetaData)
    ensures (l, f) in Located(v) <==> l < |v| && f in v[l]
  {
    if v != [] {
      var n := |v| - 1;
      LocatedHolds(v[..n], l, f);
      assert (l, f) in At(n, v[n]) <==> l == n && f in v[n] by {
        if l == n && f in v[n] {
          var i :| 0 <= i < |v[n]| && v[n][i] == f;
          assert At(n, v[n])[i] == (l, f);
        }
      }
    }
  }

  lemma ReplayAddsNew(records: seq<Record>, i: nat, added: seq<Level>)
    requires NeverReadds(records) && i < |records| && |added| == NUM_LEVELS
    requires forall l, f :: 0 <= l < NUM_LEVELS && f in added[l] ==> (l, f.number) in PlacedBy(records[..i])
    ensures AddsNew(NO_FILES, added, records[i].edit)
  {
    assert PlacesNew(records[i].edit, PlacedBy(records[..i]));
  }

  lemma WellKeptFacts(v: Levels, held: set<(nat, nat)>)
    requires WellKept(v, held)
    ensures |v| == NUM_LEVELS && forall l :: 0 <= l < |v| ==> InFileOrder(v[l])
  {
  }

  lemma DescribesLeads(records: seq<Record>, v: Levels, log: nat, next: nat, last: nat)
    requires Describes(records, v, log, next, last)
    ensures LeadsTo(records, v)
  {
  }

  datatype RecoverStatus = Recovered | NoNextFile | NoLogNumber | NoLastSequence

  class VersionSet {
    var current: Levels
    var nextFileNumber: nat
    var lastSequence: nat
    var logNumber: nat
    var descriptorLog: Option<seq<Record>>  // the manifest being written; None until the first LogAndApply

    constructor ()
      ensures Valid()
      ensures current == NO_FILES && nextFileNumber == 2 && lastSequence == 0 && logNumber == 0 && descriptorLog == None
    {
      current := NO_FILES;
      nextFileNumber := 2;
      lastSequence := 0;
      logNumber := 0;
      descriptorLog := None;
    }

    ghost predicate Valid()
      reads this
    {
      && WellKept(current, Held())
      && (descriptorLog.Some? ==> Describes(descriptorLog.value, current, logNumber, nextFileNumber, lastSequence))
    }

    // Where, according to the manifest, files have been placed.
    ghost function Held(): set<(nat, nat)>
      reads this
    {
      if descriptorLog.Some? then PlacedBy(descriptorLog.value) else Placed(SnapshotEdit(current))
    }

    // Applies the edit to the current version, after writing it to the manifest together with the
    // counters as they are.
    method LogAndApply(edit: VersionEdit, newLogNumber: Option<nat>)
      requires Valid() && PlacesNew(edit, Held()) && NumbersFree(Held() + Placed(edit), nextFileNumber)
      requires newLogNumber.Some? ==> logNumber <= newLogNumber.value < nextFileNumber
      modifies this
      ensures Valid() && descriptorLog.Some?
      ensures Applied(old(current), edit, current)
      ensures logNumber == if newLogNumber.Some? then newLogNumber.value else old(logNumber)
      ensures nextFileNumber == old(nextFileNumber) && lastSequence == old(lastSequence)
      ensures Held() == old(Held()) + Placed(edit)
      ensures Latest(NextFiles(descriptorLog.value)) == Some(nextFileNumber)
      ensures Latest(LastSequences(descriptorLog.value)) == Some(lastSequence)
    {
      hide WellKept, PlacesNew, InFileOrder, AddsNew, Live, NumbersDistinct, NeverReadds, Stepwise, Describes, LeadsTo,
           NumbersFree, Latest, NextFiles, LastSequences;
      WellKeptFacts(current, Held());
      var log := if newLogNumber.Some? then newLogNumber.value else logNumber;
      NewToBuilder(current, Held(), edit);
      var builder := new Builder(current);
      builder.Apply(edit);
      var v := builder.SaveTo();
      assert builder.edits == [edit];
      OneEditIsApplied(current, edit, v);
      AppliedIsWellKept(current, Held(), edit, v);
      if descriptorLog.None? {
        var snapshot := WriteSnapshot();
        SnapshotLeads(current, snapshot);
        descriptorLog := Some([snapshot]);
      } else {
        DescribesLeads(descriptorLog.value, current, logNumber, nextFileNumber, lastSequence);
      }
      var record := Record(edit, Some(log), Some(nextFileNumber), Some(lastSequence));
      DescribesMore(descriptorLog.value, current, record, v, log, nextFileNumber, lastSequence);
      descriptorLog := Some(descriptorLog.value + [record]);
      current := v;
      logNumber := log;
    }

    // The files of current_, as one edit.
    method WriteSnapshot() returns (record: Record)
      requires |current| == NUM_LEVELS
      ensures record == Record(SnapshotEdit(current), None, None, None)
    {
      var newFiles: seq<(nat, FileMetaData)> := [];
      for level := 0 to NUM_LEVELS
        invariant newFiles == Located(current[..level])
      {
        ghost var before := newFiles;
        var files := current[level];
        for i := 0 to |files|
          invariant newFiles == before + At(level, files[..i])
        {
          assert files[..i + 1] == files[..i] + [files[i]];
          newFiles := newFiles + [(level, files[i])];
        }
        assert files[..|files|] == files;
        assert current[..level + 1][..level] == current[..level];
      }
      assert current[..NUM_LEVELS] == current;
      record := Record(VersionEdit({}, newFiles), None, None, None);
    }

    // Rebuilds the version and the counters from a manifest.
    method Recover(records: seq<Record>) returns (status: RecoverStatus)
      requires Valid() && current == NO_FILES && descriptorLog == None
      requires NeverReadds(records)
      modifies this
      ensures Valid() && descriptorLog == None
      ensures status.Recovered? <==>
                Latest(NextFiles(records)).Some? && Latest(LogNumbers(records)).Some? &&
                    Latest(LastSequences(records)).Some?
      ensures !status.Recovered? ==> current == NO_FILES
      ensures status.Recovered? ==>
                && (forall versions :: Stepwise(versions, records) ==> current == versions[|records|])
                && Some(logNumber) == Latest(LogNumbers(records))
                && Some(lastSequence) == Latest(LastSequences(records))
                && nextFileNumber == Latest(NextFiles(records)).value + 1
      ensures forall v, log: nat, next: nat, last: nat :: Describes(records, v, log, next, last) ==>
                && status.Recovered? && current == v && logNumber == log
                && nextFileNumber <= next + 1 && lastSequence <= last && NumbersFree(Held(), nextFileNumber)
    {
      hide WellKept, PlacesNew, InFileOrder, AddsNew, Live, NumbersDistinct, NeverReadds, Applied, Builder.Valid,
           Latest;
      var log: Option<nat>, next: Option<nat>, last: Option<nat> := None, None, None;
      EmptyInOrder();
      LatestOfNone();
      var builder := new Builder(current);
      for i := 0 to |records|
        invariant builder.Valid() && builder.base == NO_FILES && fresh(builder) && |builder.addedFiles| == NUM_LEVELS
        invariant unchanged(this) && builder.edits == Edits(records[..i])
        invariant forall l, f ::
                    0 <= l < NUM_LEVELS && f in builder.addedFiles[l] ==> (l, f.number) in PlacedBy(records[..i])
        invariant log == Latest(LogNumbers(records[..i]))
        invariant next == Latest(NextFiles(records[..i]))
        invariant last == Latest(LastSequences(records[..i]))
      {
        var r := records[i];
        assert records[..i + 1] == records[..i] + [r];
        assert records[..i + 1][..i] == records[..i];
        LatestOfMore(records[..i], r);
        ReplayAddsNew(records, i, builder.addedFiles);
        ghost var added0 := builder.addedFiles;
        builder.Apply(r.edit);
        forall l, f | 0 <= l < NUM_LEVELS && f in builder.addedFiles[l]
          ensures (l, f.number) in PlacedBy(records[..i + 1])
        {
          if f !in added0[l] {
            NewFilePlaced(r.edit, l, f);
          }
        }
        assert Edits(records[..i + 1]) == Edits(records[..i]) + [r.edit];
        if r.logNumber.Some? { log := r.logNumber; }
        if r.nextFile.Some? { next := r.nextFile; }
        if r.lastSequence.Some? { last := r.lastSequence; }
      }
      assert records[..|records|] == records;
      if next.None? {
        status := NoNextFile;
      } else if log.None? {
        status := NoLogNumber;
      } else if last.None? {
        status := NoLastSequence;
      } else {
        status := Recovered;
      }
      if log.Some? {
        MarkFileNumberUsed(log.value);
      }
      if status.Recovered? {
        current := builder.SaveTo();
        BuiltIsWellKept(records, current);
        BuiltNumbersAreFree(records, current, next.value);
        nextFileNumber := next.value + 1;
        lastSequence := last.value;
        logNumber := log.value;
        forall versions | Stepwise(versions, records) ensures current == versions[|records|] {
          ReplayIsStepwise(versions, records, current);
        }
      }
    }

    method NewFileNumber() returns (number: nat)
      requires Valid()
      modifies `nextFileNumber
      ensures Valid() && number == old(nextFileNumber) && nextFileNumber == number + 1
      ensures Held() == old(Held())
    {
      number := nextFileNumber;
      nextFileNumber := nextFileNumber + 1;
    }

    method SetLastSequence(s: nat)
      requires Valid() && s >= lastSequence
      modifies `lastSequence
      ensures Valid() && lastSequence == s && Held() == old(Held())
    {
      lastSequence := s;
    }

    method MarkFileNumberUsed(number: nat)
      modifies `nextFileNumber
      ensures nextFileNumber == if old(nextFileNumber) <= number then number + 1 else old(nextFileNumber)
      ensures old(Valid()) ==> Valid()
      ensures Held() == old(Held())
    {
      if nextFileNumber <= number {
        nextFileNumber := number + 1;
      }
    }
  }

  function At(level: nat, files: Level): seq<(nat, FileMetaData)> {
    seq(|files|, i requires 0 <= i < |files| => (level, files[i]))
  }

  function Located(v: Levels): seq<(nat, FileMetaData)> {
    if v == [] then [] else Located(v[..|v| - 1]) + At(|v| - 1, v[|v| - 1])
  }

  function SnapshotEdit(v: Levels): VersionEdit { VersionEdit({}, Located(v)) }
}
