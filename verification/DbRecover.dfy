/** Opening a database after a crash (db/db_impl.cc, Recover and RecoverLogFile; db/db_impl.cc,
    DB::Open): the logs the manifest still needs are replayed in ascending order. */
module DbRecover {
  import opened Dbformat
  import opened History
  import opened Version
  import opened Lsm
  import opened CompactionRun
  import opened Manifest
  import opened Engine
  import opened Batch
  import EngineSafety

  // ---------- Replayed writes as stretches of the history ----------

  // A record that follows in the listing is the listing of a further stretch.
  lemma NextStretch(h: Writes, p: nat, hi: nat, r: seq<Entry>, rest: seq<Entry>) returns (p': nat)
    requires p <= hi <= |h| && Listed(h[p..hi]) == r + rest
    ensures p <= p' <= hi && Listed(h[p..p']) == r && Listed(h[p'..hi]) == rest
  {
    var c := EngineSafety.ListedPrefix(h[p..hi], |r|);
    p' := p + c;
    assert h[p..hi][..c] == h[p..p'] && h[p..hi] == h[p..p'] + h[p'..hi];
    EngineSafety.ListedAppend(h[p..p'], h[p'..hi]);
  }

  lemma EntrySequences(h: Writes, p: nat, p': nat, e: Entry)
    requires IsHistory(h) && p <= p' <= |h| && e in Listed(h[p..p'])
    ensures p < e.key.sequence <= p'
  {
    EngineSafety.ListedAscends(h, p, p');
    EngineSafety.InSlice(h, p, p', e);
  }

  // WriteBatchInternal::InsertInto, for one record.
  method InsertInto(record: seq<Entry>, mem: seq<Entry>, ghost h: Writes, ghost q: nat, ghost p: nat, ghost p': nat)
    returns (r: seq<Entry>)
    requires IsHistory(h) && q <= p <= p' <= |h|
    requires HoldsSlice(mem, h, q, p) && record == Listed(h[p..p'])
    ensures HoldsSlice(r, h, q, p')
  {
    hide IsHistory, Listed, InternalKey.Before, Add;
    r := mem;
    for i := 0 to |record|
      invariant Sorted(r) && ToSet(r) == ToSet(mem) + ToSet(record[..i])
    {
      var e := record[i];
      NotYetInserted(record, mem, r, h, q, p, p', i);
      AddKeepsSorted(r, e);
      r := Add(r, e);
      assert record[..i + 1] == record[..i] + [e];
    }
    assert record[..|record|] == record;
    EngineSafety.SliceSet(h, q, p, p');
    EngineSafety.ListedAscends(h, p, p');
    assert ToSet(record) == Written(h[p..p']);
  }

  lemma NotYetInserted(record: seq<Entry>, mem: seq<Entry>, r: seq<Entry>, h: Writes, q: nat, p: nat, p': nat, i: nat)
    requires IsHistory(h) && q <= p <= p' <= |h| && HoldsSlice(mem, h, q, p) && record == Listed(h[p..p'])
    requires i < |record| && ToSet(r) == ToSet(mem) + ToSet(record[..i])
    ensures forall x :: x in r ==> x.key != record[i].key
  {
    EntrySequences(h, p, p', record[i]);
    EngineSafety.ListedAscends(h, p, p');
    forall x | x in r ensures x.key.sequence != record[i].key.sequence {
      assert x in ToSet(r);
      if x in ToSet(mem) {
        EngineSafety.InSlice(h, q, p, x);
      } else {
        var j :| 0 <= j < i && record[j] == x;
        assert record[j].key.sequence < record[i].key.sequence;
      }
    }
  }

  // ---------- One log file ----------

  // Tables numbered from `first` up to `next` hold h[lo..q].
  ghost predicate Tables(tables: Level, h: Writes, lo: nat, q: nat, first: nat, next: nat) {
    && RecoveredTables(tables, h, lo, q)
    && AscendingNumbers(tables, first) && first <= next
    && forall f :: f in tables ==> f.number < next
  }

  // WriteLevel0Table with no base version: one more table for level 0, unless there is nothing to write.
  method AddTable(
      tables: Level, mem: seq<Entry>, fileSize: nat, next: nat, ghost h: Writes, ghost lo: nat, ghost q: nat,
      ghost p: nat, ghost first: nat)
    returns (more: Level, next': nat, ghost q': nat)
    requires IsHistory(h) && lo <= q <= p <= |h| && Tables(tables, h, lo, q, first, next) && HoldsSlice(mem, h, q, p)
    ensures Tables(more, h, lo, q', first, next') && next' == next + 1
    ensures q' == (if mem == [] then q else p) && (mem == [] ==> Written(h[q..p]) == {})
  {
    hide InternalKey.Before;
    next' := next + 1;
    if mem == [] {
      more, q' := tables, q;
    } else {
      var f := BuildTable(next, fileSize, mem);
      more, q' := tables + [f], p;
      assert more[..|more| - 1] == tables;
      assert mem[0] in ToSet(mem);
      EngineSafety.InSlice(h, q, p, mem[0]);
      assert RecoveredTables(more, h, lo, p);
    }
  }

  function Contents(mem: Option<seq<Entry>>): seq<Entry> { if mem.Some? then mem.value else [] }

  // RecoverLogFile.  `full` says when a memtable has outgrown the write buffer.  The memtable is kept
  // only for the last log, if it may be reused and nothing was written out of it.
  method RecoverLogFile(
      records: seq<seq<Entry>>, reuse: bool, full: seq<Entry> -> bool, fileSize: nat, tables0: Level, next0: nat,
      maxSequence0: nat, ghost h: Writes, ghost lo: nat, ghost q0: nat, ghost p0: nat, ghost hi: nat,
      ghost rest: seq<Entry>, ghost first: nat)
    returns (tables: Level, next: nat, maxSequence: nat, mem: Option<seq<Entry>>, ghost q: nat, ghost p: nat)
    requires IsHistory(h) && lo <= q0 <= p0 <= hi <= |h| && Tables(tables0, h, lo, q0, first, next0)
    requires HoldsSlice([], h, q0, p0) && Listed(h[p0..hi]) == Flat(records) + rest
    requires (forall e :: e in Listed(h[lo..p0]) ==> e.key.sequence <= maxSequence0) && maxSequence0 <= |h|
    ensures lo <= q <= p <= hi && p0 <= p && Tables(tables, h, lo, q, first, next)
    ensures HoldsSlice(Contents(mem), h, q, p) && Listed(h[p..hi]) == rest
    ensures mem.Some? ==> reuse && q == q0 && tables == tables0 && Listed(h[p0..p]) == Flat(records)
    ensures forall e :: e in Listed(h[lo..p]) ==> e.key.sequence <= maxSequence
    ensures maxSequence0 <= maxSequence <= |h|
  {
    hide IsHistory, Listed, Tables, HoldsSlice, Flat;
    tables, next, maxSequence, mem, q, p := tables0, next0, maxSequence0, None, q0, p0;
    var compactions := 0;
    assert records[0..] == records;
    FlatNone();
    ListedEmpty(h, p0);
    for i := 0 to |records|
      invariant lo <= q <= p <= hi && p0 <= p && Tables(tables, h, lo, q, first, next)
      invariant HoldsSlice(Contents(mem), h, q, p) && Listed(h[p..hi]) == Flat(records[i..]) + rest
      invariant compactions == 0 ==> q == q0 && tables == tables0
      invariant Listed(h[p0..p]) == Flat(records[..i])
      invariant forall e :: e in Listed(h[lo..p]) ==> e.key.sequence <= maxSequence
      invariant maxSequence0 <= maxSequence <= |h|
    {
      var record := records[i];
      FlatFirst(records, i);
      AddAssociates(record, Flat(records[i + 1..]), rest);
      ghost var p' := NextStretch(h, p, hi, record, Flat(records[i + 1..]) + rest);
      if mem.None? {
        mem := Some([]);
      }
      var inserted := InsertInto(record, mem.value, h, q, p, p');
      mem := Some(inserted);
      if record != [] {
        var lastSeq := record[|record| - 1].key.sequence;
        LastIsLargest(h, p, p', record);
        EntrySequences(h, p, p', record[|record| - 1]);
        if lastSeq > maxSequence {
          maxSequence := lastSeq;
        }
      }
      StretchesJoin(h, lo, p, p');
      StretchesJoin(h, p0, p, p');
      FlatOneMore(records[..i], record);
      assert records[..i + 1] == records[..i] + [record];
      p := p';
      if full(inserted) {
        compactions := compactions + 1;
        ghost var q';
        tables, next, q' := AddTable(tables, inserted, fileSize, next, h, lo, q, p, first);
        NothingHeld(h, q', p, inserted == []);
        q := q';
        mem := None;
      }
    }
    assert records[..|records|] == records && records[|records|..] == [];
    FlatNone();
    assert [] + rest == rest;
    if reuse && compactions == 0 {
      mem := Some(Contents(mem));
    } else if mem.Some? {
      ghost var q';
      tables, next, q' := AddTable(tables, mem.value, fileSize, next, h, lo, q, p, first);
      NothingHeld(h, q', p, mem.value == []);
      q := q';
      mem := None;
    }
  }

  lemma ListedEmpty(h: Writes, p: nat)
    requires p <= |h|
    ensures Listed(h[p..p]) == []
  {
  }

  lemma FlatFirst(records: seq<seq<Entry>>, i: nat)
    requires i < |records|
    ensures Flat(records[i..]) == records[i] + Flat(records[i + 1..])
  {
    assert records[i..] == [records[i]] + records[i + 1..];
    FlatAppend([records[i]], records[i + 1..]);
    assert [records[i]][..0] == [];
    assert Flat([records[i]]) == [] + records[i] == records[i];
  }

  lemma StretchesJoin(h: Writes, a: nat, b: nat, c: nat)
    requires a <= b <= c <= |h|
    ensures Listed(h[a..c]) == Listed(h[a..b]) + Listed(h[b..c])
  {
    EngineSafety.ListedAppend(h[a..b], h[b..c]);
    assert h[a..c] == h[a..b] + h[b..c];
  }

  lemma LastIsLargest(h: Writes, p: nat, p': nat, record: seq<Entry>)
    requires IsHistory(h) && p <= p' <= |h| && record == Listed(h[p..p']) && record != []
    ensures forall e :: e in record ==> e.key.sequence <= record[|record| - 1].key.sequence
  {
    hide IsHistory, Listed;
    EngineSafety.ListedAscends(h, p, p');
    forall e | e in record ensures e.key.sequence <= record[|record| - 1].key.sequence {
      var i :| 0 <= i < |record| && record[i] == e;
    }
  }

  // After a table is written an empty memtable stands for what follows it.
  lemma NothingHeld(h: Writes, q: nat, p: nat, nothing: bool)
    requires q <= p <= |h| && (if nothing then Written(h[q..p]) == {} else q == p)
    ensures HoldsSlice([], h, q, p)
  {
  }

  // ---------- All log files ----------

  lemma {:induction false} LogRecordsSplit(logs: map<nat, seq<seq<Entry>>>, lo: nat, mid: nat, hi: nat)
    requires lo <= mid <= hi
    ensures LogRecords(logs, lo, hi) == LogRecords(logs, lo, mid) + LogRecords(logs, mid, hi)
    decreases hi
  {
    if mid < hi {
      LogRecordsSplit(logs, lo, mid, hi - 1);
    }
  }

  lemma NextLog(logs: map<nat, seq<seq<Entry>>>, n: nat, hi: nat)
    requires n < hi
    ensures Flat(LogRecords(logs, n, hi)) == Flat(if n in logs then logs[n] else []) + Flat(LogRecords(logs, n + 1, hi))
  {
    LogRecordsSplit(logs, n, n + 1, hi);
    var here := if n in logs then logs[n] else [];
    assert LogRecords(logs, n, n + 1) == [] + here == here;
    FlatAppend(here, LogRecords(logs, n + 1, hi));
  }

  // DBImpl::Recover: the logs from minLog on, the newest of which may be kept.
  method ReplayLogs(
      logs: map<nat, seq<seq<Entry>>>, minLog: nat, newest: nat, reuseLogs: bool, full: seq<Entry> -> bool,
      fileSize: nat, first: nat, ghost h: Writes, ghost lo: nat)
    returns (tables: Level, next: nat, maxSequence: nat, mem: Option<seq<Entry>>, ghost q: nat)
    requires IsHistory(h) && lo <= |h| && minLog <= newest && newest in logs
    requires Listed(h[lo..]) == Flat(LogRecords(logs, minLog, newest + 1))
    ensures lo <= q <= |h| && Tables(tables, h, lo, q, first, next) && newest < next
    ensures HoldsSlice(Contents(mem), h, q, |h|)
    ensures mem.Some? ==> reuseLogs && Listed(h[q..]) == Flat(logs[newest])
    ensures (forall e :: e in Listed(h[lo..]) ==> e.key.sequence <= maxSequence) && maxSequence <= |h|
  {
    hide IsHistory, Listed, HoldsSlice, Flat, LogRecords;
    tables, next, maxSequence, mem, q := [], first, 0, None, lo;
    ghost var p, hi := lo, |h|;
    ListedEmpty(h, lo);
    NothingHeld(h, lo, lo, false);
    assert h[lo..] == h[lo..hi];
    ghost var q0, p0 := q, p;
    for n := minLog to newest + 1
      invariant lo <= q <= p <= hi && Tables(tables, h, lo, q, first, next)
      invariant HoldsSlice(Contents(mem), h, q, p) && Listed(h[p..hi]) == Flat(LogRecords(logs, n, newest + 1))
      invariant n <= newest ==> mem == None
      invariant n > newest ==> newest < next
      invariant mem.Some? ==>
                  && reuseLogs && lo <= q == q0 <= p0 <= p
                  && Listed(h[p0..p]) == Flat(logs[newest]) && HoldsSlice([], h, q0, p0)
      invariant (forall e :: e in Listed(h[lo..p]) ==> e.key.sequence <= maxSequence) && maxSequence <= |h|
    {
      NextLog(logs, n, newest + 1);
      q0, p0 := q, p;
      if n in logs {
        tables, next, maxSequence, mem, q, p := RecoverLogFile(
          logs[n], reuseLogs && n == newest, full, fileSize, tables, next, maxSequence,
          h, lo, q, p, hi, Flat(LogRecords(logs, n + 1, newest + 1)), first);
        if next <= n {
          next := n + 1;  // MarkFileNumberUsed
        }
      } else {
        FlatNone();
        assert [] + Flat(LogRecords(logs, n + 1, newest + 1)) == Flat(LogRecords(logs, n + 1, newest + 1));
      }
    }
    LogsEnd(logs, newest + 1);
    NothingMore(h, lo, q, p, Contents(mem));
    if mem.Some? {
      StretchesJoin(h, q, p0, p);
      StretchesJoin(h, q, p, hi);
      NothingListed(h, q, p0);
      assert h[q..] == h[q..hi];
    }
  }

  lemma LogsEnd(logs: map<nat, seq<seq<Entry>>>, n: nat)
    ensures Flat(LogRecords(logs, n, n)) == []
  {
  }

  lemma NothingListed(h: Writes, q: nat, p: nat)
    requires q <= p <= |h| && HoldsSlice([], h, q, p)
    ensures Listed(h[q..p]) == []
  {
    forall e ensures e in Listed(h[q..p]) <==> e in Written(h[q..p]) {
      EngineSafety.ListedHolds(h[q..p], e);
    }
    EngineSafety.NobodyIn(Listed(h[q..p]));
  }

  // Nothing is listed after p: the memtable stands for all that follows.
  lemma NothingMore(h: Writes, lo: nat, q: nat, p: nat, mem: seq<Entry>)
    requires lo <= q <= p <= |h| && HoldsSlice(mem, h, q, p) && Listed(h[p..|h|]) == []
    ensures HoldsSlice(mem, h, q, |h|)
    ensures Listed(h[lo..]) == Listed(h[lo..p])
  {
    hide Listed, Sorted;
    EngineSafety.SliceSet(h, q, p, |h|);
    forall e ensures e !in Written(h[p..|h|]) {
      EngineSafety.ListedHolds(h[p..|h|], e);
    }
    StretchesJoin(h, lo, p, |h|);
    assert h[lo..] == h[lo..|h|];
    assert Listed(h[lo..p]) + [] == Listed(h[lo..p]);
  }

  // ---------- Opening ----------

  // The largest sequence number among entries in order.
  function Largest(es: seq<Entry>): nat { if es == [] then 0 else es[|es| - 1].key.sequence }

  // The history the recovered database has: the writes that are left, up to LastSequence.
  ghost function RecoveredHistory(s: State, left: map<nat, seq<seq<Entry>>>, last: nat): Writes
    requires s.flushed <= |s.history|
  {
    var kept := Replayed(s, left);
    Surviving(s.history, s.flushed, kept, if last < Largest(kept) then Largest(kept) else last)
  }

  // What Open needs of the state before the crash.
  lemma CrashFits(s: State, left: map<nat, seq<seq<Entry>>>, last: nat)
    requires Inv(s) && CrashLeaves(s, left) && s.flushed <= last
    ensures s.logNumber <= s.logFile && s.logFile in left && s.logFile in s.durable && s.flushed <= |s.history|
    ensures var kept, h := Replayed(s, left), RecoveredHistory(s, left, last);
            && IsHistory(h) && s.flushed <= |h| == (if last < Largest(kept) then Largest(kept) else last)
            && h == Surviving(s.history, s.flushed, kept, |h|)
            && Listed(h[s.flushed..]) == kept
            && (forall e :: e in kept ==> e.key.sequence <= |h|) && (last <= |s.history| ==> |h| <= |s.history|)
  {
    hide TablesOk, NumbersOk, JobOk, Listed, Flat, LogRecords, Surviving, CrashLeaves, HoldsSlice, IsHistory;
    var kept := Replayed(s, left);
    EngineSafety.ReplayedIsPart(s, left);
    LargestIsLargest(kept);
    var top := if last < Largest(kept) then Largest(kept) else last;
    EngineSafety.SurvivingIsHistory(s.history, s.flushed, kept, top);
    EngineSafety.SurvivingIsListed(s, left, top);
    LogIsLeft(s, left);
  }

  lemma LogIsLeft(s: State, left: map<nat, seq<seq<Entry>>>)
    requires LogsOk(s) && CrashLeaves(s, left)
    ensures s.logFile in left && s.logFile in s.durable
  {
  }

  lemma LargestIsLargest(es: seq<Entry>)
    requires EngineSafety.Ascends(es)
    ensures forall e :: e in es ==> e.key.sequence <= Largest(es)
    ensures es != [] ==> exists e :: e in es && e.key.sequence == Largest(es)
  {
    if es != [] {
      assert es[|es| - 1] in es;
    }
  }

  // DB::Open, once the manifest is recovered: the logs are replayed into tables, which go to level 0, and
  // the database goes on with the last log and its memtable, or with new ones.  A torn record at the end
  // of the last log goes unnoticed.
  method Open(
      versions: VersionSet, left: map<nat, seq<seq<Entry>>>, newest: nat, reuseLogs: bool, full: seq<Entry> -> bool,
      fileSize: nat, ghost torn: bool, ghost s: State)
    returns (mem: seq<Entry>, logFileNumber: nat, log: seq<seq<Entry>>, tables: Level, ghost t: State)
    requires versions.Valid() && versions.current == s.version && versions.logNumber == s.logNumber
    requires NumbersFree(versions.Held(), versions.nextFileNumber) && s.flushed <= versions.lastSequence <= |s.history|
    requires Inv(s) && newest == s.logFile && CrashLeaves(s, left)
    modifies versions
    ensures versions.Valid() && versions.descriptorLog.Some?
    ensures RecoverAnyway(s, t, left, torn, tables, old(versions.nextFileNumber))
    ensures Inv(t.(torn := {})) && (ReusesWhole(s, t, torn) ==> Inv(t))
    ensures logFileNumber == newest ==> reuseLogs
    ensures t.mem == mem && t.logFile == logFileNumber && t.logs == map[logFileNumber := log]
    ensures t.version == versions.current && t.nextFile == versions.nextFileNumber && t.logNumber == versions.logNumber
    ensures |t.history| == versions.lastSequence <= |s.history|
    ensures Latest(LastSequences(versions.descriptorLog.value)) == Some(versions.lastSequence)
    ensures versions.Held() == old(versions.Held()) + Placed(Level0Additions(tables))
    ensures NumbersFree(versions.Held(), versions.nextFileNumber)
  {
    hide Inv, RecoverAnyway, ReusesWhole, Replayed, Listed, Flat, LogRecords, HoldsSlice, VersionSet.Valid,
         VersionSet.Held, PlacesNew, Applied, RecoveredHistory, RecoveredTables, AscendingNumbers, IsHistory,
         NumbersFree, NumberedBelow, CrashLeaves, Surviving, Latest, LastSequences, NextFiles, Placed, Level0Additions,
         Tables;
    ghost var h := RecoveredHistory(s, left, versions.lastSequence);
    CrashFits(s, left, versions.lastSequence);
    HeldAreBelow(versions);
    var first := versions.nextFileNumber;
    var next, maxSequence, reused;
    ghost var q;
    ReplayedLogs(s, left);
    tables, next, maxSequence, reused, q :=
      ReplayLogs(left, versions.logNumber, newest, reuseLogs, full, fileSize, first, h, s.flushed);
    LargestRecovered(s, left, versions.lastSequence, maxSequence);
    TablesFit(tables, h, s.flushed, q, first, next, versions.Held());
    versions.MarkFileNumberUsed(next - 1);
    if versions.lastSequence < maxSequence {
      versions.SetLastSequence(maxSequence);
    }
    match reused {
      case Some(m) =>
        mem, logFileNumber, log := m, newest, left[newest];
      case None =>
        mem, log := [], [];
        logFileNumber := versions.NewFileNumber();
        FlatNone();
        NothingHeldListed(h, q);
    }
    NumbersStillFree(versions.Held(), tables, h, s.flushed, q, first, next, versions.nextFileNumber);
    versions.LogAndApply(Level0Additions(tables), Some(logFileNumber));
    t := State(h, q, q, mem, None, versions.current, [], versions.nextFileNumber, {}, None,
               map[logFileNumber := log], logFileNumber, logFileNumber,
               map[logFileNumber := if reused.Some? then s.durable[newest] else 0],
               if reused.Some? && torn then {logFileNumber} else {});
    EngineSafety.NotTorn(s);
    RecoverIsStep(s, t, left, torn, tables, first, next);
    EngineSafety.AsIfWhole(s, t, left, torn, tables, first);
    EngineSafety.RecoverKeepsInv(s, t.(torn := {}), left, false, tables, first);
  }

  lemma HeldAreBelow(versions: VersionSet)
    requires versions.Valid() && NumbersFree(versions.Held(), versions.nextFileNumber)
    ensures NumberedBelow(versions.current, versions.nextFileNumber)
  {
    hide VersionSet.Held;
    forall l, f | 0 <= l < |versions.current| && f in versions.current[l] ensures f.number < versions.nextFileNumber {
      assert (l, f.number) in versions.Held();
    }
  }

  lemma ReplayedLogs(s: State, left: map<nat, seq<seq<Entry>>>)
    ensures Replayed(s, left) == Flat(LogRecords(left, s.logNumber, s.logFile + 1))
  {
  }

  // LastSequence ends up at the end of the recovered history.
  lemma LargestRecovered(s: State, left: map<nat, seq<seq<Entry>>>, last: nat, maxSequence: nat)
    requires Inv(s) && CrashLeaves(s, left) && s.flushed <= last && s.flushed <= |s.history|
    requires maxSequence <= |RecoveredHistory(s, left, last)|
    requires forall e :: e in Replayed(s, left) ==> e.key.sequence <= maxSequence
    ensures (if last < maxSequence then maxSequence else last) == |RecoveredHistory(s, left, last)|
  {
    hide TablesOk, NumbersOk, JobOk, LogsOk, Listed, Flat, Replayed, CrashLeaves, HoldsSlice;
    hide Inv;
    InOrder(s, left);
    LargestIsLargest(Replayed(s, left));
  }

  lemma InOrder(s: State, left: map<nat, seq<seq<Entry>>>)
    requires Inv(s) && CrashLeaves(s, left)
    ensures EngineSafety.Ascends(Replayed(s, left))
  {
    hide TablesOk, NumbersOk, JobOk, CrashLeaves, Replayed;
    EngineSafety.ReplayedIsPart(s, left);
  }

  lemma TablesFit(tables: Level, h: Writes, lo: nat, q: nat, first: nat, next: nat, held: set<(nat, nat)>)
    requires Tables(tables, h, lo, q, first, next) && NumbersFree(held, first)
    ensures PlacesNew(Level0Additions(tables), held)
  {
  }

  lemma NumbersStillFree(
      held: set<(nat, nat)>, tables: Level, h: Writes, lo: nat, q: nat, first: nat, next: nat, nextFile: nat)
    requires Tables(tables, h, lo, q, first, next) && NumbersFree(held, first) && next <= nextFile
    ensures NumbersFree(held + Placed(Level0Additions(tables)), nextFile)
  {
    var edit := Level0Additions(tables);
    forall l, n | (l, n) in Placed(edit) ensures n < nextFile {
      var p :| p in edit.newFiles && p.0 == l && p.1.number == n;
      var i :| 0 <= i < |tables| && edit.newFiles[i] == p;
    }
  }

  lemma NothingHeldListed(h: Writes, q: nat)
    requires q <= |h| && HoldsSlice([], h, q, |h|)
    ensures Listed(h[q..]) == []
  {
    NothingListed(h, q, |h|);
    assert h[q..] == h[q..|h|];
  }

  lemma RecoverIsStep(
      s: State, t: State, left: map<nat, seq<seq<Entry>>>, torn: bool, tables: Level, first: nat, next: nat)
    requires s.torn == {} && CrashLeaves(s, left) && s.flushed <= |s.history|
    requires t.history == Surviving(s.history, s.flushed, Replayed(s, left), |t.history|)
    requires forall e :: e in Replayed(s, left) ==> e.key.sequence <= |t.history|
    requires t.flushed == t.memStart && s.flushed <= t.flushed <= |t.history|
    requires Tables(tables, t.history, s.flushed, t.flushed, first, next) && next <= t.nextFile && s.logFile < next
    requires NumberedBelow(s.version, first) && Applied(s.version, Level0Additions(tables), t.version)
    requires HoldsSlice(t.mem, t.history, t.memStart, |t.history|)
    requires t.imm == None && t.job == None && t.snapshots == [] && t.pendingOutputs == {}
    requires t.logNumber == t.logFile < t.nextFile && t.logs.Keys == {t.logFile} == t.durable.Keys
    requires Flat(t.logs[t.logFile]) == Listed(t.history[t.memStart..])
    requires s.logFile in left
    requires (t.logFile == s.logFile && t.logs[t.logFile] == left[s.logFile] &&
              t.durable[t.logFile] == s.durable[s.logFile] && t.torn == if torn then {t.logFile} else {})
             || (t.logFile >= next && t.logs[t.logFile] == [] && t.durable[t.logFile] == 0 && t.torn == {})
    ensures RecoverAnyway(s, t, left, torn, tables, first)
  {
    hide Listed, Flat, Replayed, HoldsSlice, RecoveredTables, Applied, NumberedBelow, Surviving;
  }
}
