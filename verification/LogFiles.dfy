/** From the bytes of the log files to a database that is open again (db/db_impl.cc, RecoverLogFile): the
    records of a log are write batches, and a crash cuts the files at any byte past what was synced. */
module LogFiles {
  import opened Dbformat
  import opened Engine
  import opened Log
  import opened LogReader
  import opened LogRoundTrip
  import opened LogReuse
  import opened DbImpl
  import Batch
  import BatchCoding
  import Coding
  import Durability
  import History
  import Updates
  import UserKeys

  // ---------- Records as write batches ----------

  // An operation with the rank of its key.
  function Ranked(op: BatchCoding.Op): Batch.Op {
    match op
    case Put(key, value) => Batch.Put(UserKeys.Rank(key), value)
    case Delete(key) => Batch.Delete(UserKeys.Rank(key))
  }

  // What MemTableInserter makes of the operations of a batch.
  function Entries(ops: seq<BatchCoding.Op>, sequence: nat): seq<Entry> {
    seq(|ops|, i requires 0 <= i < |ops| => Batch.EntryOf(Ranked(ops[i]), sequence + i))
  }

  // The bytes of a batch with these entries.
  ghost predicate IsRecordOf(rep: Bytes, es: seq<Entry>) {
    exists sequence, ops :: BatchCoding.IsBatch(rep, sequence, ops) && es == Entries(ops, sequence)
  }

  // What recovery takes from a record; one that is too small is passed over.
  function EntriesOf(record: Bytes): seq<Entry> {
    if |record| < BatchCoding.HEADER then []
    else Entries(BatchCoding.OpsFrom(record, BatchCoding.HEADER).0, Coding.DecodeFixed(record[..8]))
  }

  function AllEntriesOf(records: seq<Bytes>): (r: seq<seq<Entry>>)
    ensures |r| == |records|
  {
    seq(|records|, i requires 0 <= i < |records| => EntriesOf(records[i]))
  }

  lemma BatchIsRead(rep: Bytes, es: seq<Entry>)
    requires IsRecordOf(rep, es)
    ensures EntriesOf(rep) == es
  {
    hide BatchCoding.IsBatch, BatchCoding.OpsFrom, Coding.DecodeFixed;
    var sequence, ops :| BatchCoding.IsBatch(rep, sequence, ops) && es == Entries(ops, sequence);
    BatchCoding.Parts(rep, sequence, ops);
    BatchCoding.ValidReadsBack(rep, sequence, ops);
  }

  // What reading a log file gives.
  function Contents(file: Bytes): seq<seq<Entry>> { AllEntriesOf(ReadAll(file, Scan(0, 0), []).0) }

  // The loop of RecoverLogFile over the records.
  method ReadLogFile(file: Bytes) returns (log: seq<seq<Entry>>)
    ensures log == Contents(file)
  {
    hide NextLogical, BatchCoding.OpsFrom, Coding.DecodeFixed, BatchCoding.IsBatch, Reader.Valid;
    var reader := new Reader(file);
    log := [];
    ghost var all := ReadAll(file, Scan(0, 0), []);
    ghost var read: seq<Bytes> := [];
    assert read + all.0 == all.0;
    while true
      invariant reader.Valid() && fresh(reader) && reader.file == file && Within(file, reader.scan)
      invariant log == AllEntriesOf(read)
      invariant all.0 == read + ReadAll(file, reader.scan, reader.dropped).0
      decreases |file| - reader.scan.pos
    {
      ghost var rest := ReadAll(file, reader.scan, reader.dropped).0;
      ghost var p := reader.scan.pos;
      var record := reader.ReadRecord();
      if record.None? {
        assert read + [] == read;
        return;
      }
      assert rest == [record.value] + ReadAll(file, reader.scan, reader.dropped).0;
      ghost var more := read + [record.value];
      assert read + rest == more + ReadAll(file, reader.scan, reader.dropped).0;
      var es := ReadBatch(record.value);
      assert AllEntriesOf(more) == AllEntriesOf(read) + [EntriesOf(record.value)];
      log := log + [es];
      read := more;
    }
  }

  method ReadBatch(record: Bytes) returns (es: seq<Entry>)
    ensures es == EntriesOf(record)
  {
    if |record| < BatchCoding.HEADER {
      return [];
    }
    var batch := new BatchCoding.WriteBatch.SetContents(record);
    var ops, ok := batch.Iterate();
    es := Entries(ops, Coding.DecodeFixed(record[..8]));
  }

  // ---------- What a crash leaves on disk ----------

  // The records of the log files as they were written.
  ghost predicate OnDisk(s: State, files: map<nat, seq<Bytes>>) {
    && files.Keys == s.logs.Keys
    && forall n :: n in s.logs ==>
         |files[n]| == |s.logs[n]| && forall i :: 0 <= i < |s.logs[n]| ==> IsRecordOf(files[n][i], s.logs[n][i])
  }

  // Each file is cut at some byte behind its synced records.
  ghost predicate CutBehindSynced(s: State, files: map<nat, seq<Bytes>>, disk: map<nat, Bytes>) {
    && disk.Keys == s.logs.Keys == s.durable.Keys == files.Keys
    && forall n :: n in disk ==>
         && s.durable[n] <= |files[n]|
         && disk[n] <= WriteAll(files[n]) && |WriteAll(files[n][..s.durable[n]])| <= |disk[n]|
  }

  function Left(disk: map<nat, Bytes>): map<nat, seq<seq<Entry>>> { map n | n in disk :: Contents(disk[n]) }

  // A log with these records, cut to this size, cannot be written on as if it ended with a whole record.
  ghost predicate IsTorn(records: seq<Bytes>, size: nat) {
    exists k :: WholeRecords(records, size, k) && !TakesMore(records, size, k)
  }

  // At least the synced records of a cut file are whole.
  lemma SyncedAreWhole(records: seq<Bytes>, d: nat, size: nat, k: nat)
    requires d <= |records| && |WriteAll(records[..d])| <= size && WholeRecords(records, size, k)
    ensures d <= k
  {
    hide WriteAll;
    if k < d {
      RecordsGrow(records, k + 1, d);
    }
  }

  lemma CutFileIsRead(records: seq<Bytes>, log: seq<seq<Entry>>, d: nat, file: Bytes) returns (k: nat)
    requires |records| == |log| && forall i :: 0 <= i < |log| ==> IsRecordOf(records[i], log[i])
    requires d <= |records| && file <= WriteAll(records) && |WriteAll(records[..d])| <= |file|
    ensures d <= k <= |log| && WholeRecords(records, |file|, k)
    ensures Contents(file) == log[..k] && ReadAll(file, Scan(0, 0), []) == (records[..k], [])
  {
    hide IsRecordOf, WriteAll, EntriesOf, ReadAll;
    k := WholeRecordsExist(records, |file|);
    SyncedAreWhole(records, d, |file|, k);
    assert file == WriteAll(records)[..|file|];
    CutLogReadsBack(records, |file|, k);
    forall i | 0 <= i < k ensures EntriesOf(records[..k][i]) == log[i] {
      BatchIsRead(records[i], log[i]);
    }
  }

  // Reading the files after a crash gives of each log the records before its cut, the synced ones among
  // them, and nothing is reported as corrupt.
  lemma CutFilesAreRead(s: State, files: map<nat, seq<Bytes>>, disk: map<nat, Bytes>)
    requires s.torn == {} && OnDisk(s, files) && CutBehindSynced(s, files, disk)
    ensures CrashLeaves(s, Left(disk))
    ensures forall n :: n in disk ==> ReadAll(disk[n], Scan(0, 0), []).1 == []
  {
    hide WriteAll, ReadAll, Contents, IsRecordOf;
    forall n | n in disk
      ensures Contents(disk[n]) <= s.logs[n] && s.durable[n] <= |Contents(disk[n])|
      ensures ReadAll(disk[n], Scan(0, 0), []).1 == []
    {
      var k := CutFileIsRead(files[n], s.logs[n], s.durable[n], disk[n]);
    }
  }

  // A log that is not torn is read back with every record appended to it.
  lemma WholeLogGoesOn(records: seq<Bytes>, log: seq<seq<Entry>>, file: Bytes, rep: Bytes, es: seq<Entry>)
    requires |records| == |log| && forall i :: 0 <= i < |log| ==> IsRecordOf(records[i], log[i])
    requires file <= WriteAll(records) && !IsTorn(records, |file|) && IsRecordOf(rep, es)
    ensures Contents(file + Emitted(|file| % BLOCK_SIZE, rep, true)) == Contents(file) + [es]
  {
    hide IsRecordOf, WriteAll, EntriesOf, ReadAll, Emitted, TakesMore;
    NoRecords();
    assert records[..0] == [];
    var k := CutFileIsRead(records, log, 0, file);
    assert file == WriteAll(records)[..|file|];
    CleanEndTakesMore(records, |file|, k, rep);
    BatchIsRead(rep, es);
    assert AllEntriesOf(records[..k] + [rep]) == AllEntriesOf(records[..k]) + [EntriesOf(rep)];
  }

  // ---------- What a log says ----------

  // The last of the operations that is about the key.
  function LastOn(ops: seq<BatchCoding.Op>, key: Bytes): Option<BatchCoding.Op> {
    if ops == [] then None
    else if ops[|ops| - 1].key == key then Some(ops[|ops| - 1])
    else LastOn(ops[..|ops| - 1], key)
  }

  // What a read of the key gives after it.
  function Said(op: Option<BatchCoding.Op>, before: History.Lookup): History.Lookup {
    match op
    case None => before
    case Some(Put(_, value)) => History.Found(value)
    case Some(Delete(_)) => History.NotFound
  }

  function AllOps(opss: seq<seq<BatchCoding.Op>>): seq<BatchCoding.Op> {
    if opss == [] then [] else AllOps(opss[..|opss| - 1]) + opss[|opss| - 1]
  }

  function RankedOps(ops: seq<BatchCoding.Op>): (r: seq<Batch.Op>)
    ensures |r| == |ops|
  {
    seq(|ops|, i requires 0 <= i < |ops| => Ranked(ops[i]))
  }

  lemma EntriesAreNumbered(ops: seq<BatchCoding.Op>, n: nat)
    ensures Entries(ops, n + 1) == Batch.NumberedFrom(RankedOps(ops), n)
  {
  }

  lemma {:induction false} LastOfRanked(ops: seq<BatchCoding.Op>, key: Bytes, before: History.Lookup)
    ensures Updates.Effect(Updates.LastAbout(RankedOps(ops), UserKeys.Rank(key)), before) ==
            Said(LastOn(ops, key), before)
  {
    hide UserKeys.Rank;
    if ops != [] {
      var init, last := ops[..|ops| - 1], ops[|ops| - 1];
      UserKeys.RankIsOrderEmbedding(last.key, key);
      assert RankedOps(ops)[..|ops| - 1] == RankedOps(init);
      LastOfRanked(init, key, before);
    }
  }

  // Each record is the bytes of a batch that is numbered on from the one before.
  ghost predicate NumberedOn(records: seq<Bytes>, opss: seq<seq<BatchCoding.Op>>, n: nat) {
    && |records| == |opss|
    && forall i :: 0 <= i < |opss| ==> BatchCoding.IsBatch(records[i], n + |AllOps(opss[..i])| + 1, opss[i])
  }

  ghost function EntriesOn(opss: seq<seq<BatchCoding.Op>>, n: nat): (r: seq<seq<Entry>>)
    ensures |r| == |opss|
  {
    seq(|opss|, i requires 0 <= i < |opss| => Entries(opss[i], n + |AllOps(opss[..i])| + 1))
  }

  lemma EntriesOnPrefix(opss: seq<seq<BatchCoding.Op>>, n: nat, k: nat)
    requires k <= |opss|
    ensures EntriesOn(opss, n)[..k] == EntriesOn(opss[..k], n)
  {
    hide Entries, AllOps;
    assert forall i :: 0 <= i < k ==> opss[..k][..i] == opss[..i];
  }

  lemma RankedConcat(a: seq<BatchCoding.Op>, b: seq<BatchCoding.Op>)
    ensures RankedOps(a + b) == RankedOps(a) + RankedOps(b)
  {
    hide Ranked;
  }

  lemma {:induction false} FlatIsNumbered(opss: seq<seq<BatchCoding.Op>>, n: nat)
    ensures Flat(EntriesOn(opss, n)) == Batch.NumberedFrom(RankedOps(AllOps(opss)), n)
  {
    hide RankedOps, Entries, EntriesOn, Batch.NumberedFrom;
    if opss == [] {
      assert RankedOps([]) == [];
    } else {
      var init, last := opss[..|opss| - 1], opss[|opss| - 1];
      FlatIsNumbered(init, n);
      EntriesOnPrefix(opss, n, |opss| - 1);
      LastEntriesOn(opss, n);
      EntriesAreNumbered(last, n + |AllOps(init)|);
      RankedConcat(AllOps(init), last);
      Batch.NumberedConcat(RankedOps(AllOps(init)), RankedOps(last), n);
    }
  }

  lemma LastEntriesOn(opss: seq<seq<BatchCoding.Op>>, n: nat)
    requires opss != []
    ensures EntriesOn(opss, n)[|opss| - 1] == Entries(opss[|opss| - 1], n + |AllOps(opss[..|opss| - 1])| + 1)
  {
    hide Entries, AllOps;
  }

  // Replayed onto the writes before it, what is left of a log after any cut says of every key what the last
  // operation about it in the whole records says.
  lemma CutLogSays(
      h: History.Writes, records: seq<Bytes>, opss: seq<seq<BatchCoding.Op>>, file: Bytes, key: Bytes) returns (k: nat)
    requires History.IsHistory(h) && NumberedOn(records, opss, |h|) && file <= WriteAll(records)
    ensures k <= |opss| && WholeRecords(records, |file|, k)
    ensures var all := h + Somes(Flat(Contents(file)));
            History.Read(all, UserKeys.Rank(key), |all|) ==
            Said(LastOn(AllOps(opss[..k]), key), History.Read(h, UserKeys.Rank(key), |h|))
  {
    hide IsRecordOf, WriteAll, Contents, ReadAll, UserKeys.Rank, History.Read, Entries, LastOn, Updates.LastAbout, Flat,
         EntriesOn, NumberedOn, RankedOps, AllOps, Batch.NumberedFrom, History.IsHistory;
    var log := EntriesOn(opss, |h|);
    RecordsHold(records, opss, |h|);
    NoRecords();
    assert records[..0] == [];
    k := CutFileIsRead(records, log, 0, file);
    EntriesOnPrefix(opss, |h|, k);
    FlatIsNumbered(opss[..k], |h|);
    Updates.ReadAfterOps(h, RankedOps(AllOps(opss[..k])), UserKeys.Rank(key));
    LastOfRanked(AllOps(opss[..k]), key, History.Read(h, UserKeys.Rank(key), |h|));
  }

  lemma RecordsHold(records: seq<Bytes>, opss: seq<seq<BatchCoding.Op>>, n: nat)
    requires NumberedOn(records, opss, n)
    ensures |records| == |opss| && forall i :: 0 <= i < |opss| ==> IsRecordOf(records[i], EntriesOn(opss, n)[i])
  {
    hide BatchCoding.IsBatch, IsRecordOf, AllOps, Entries;
    forall i | 0 <= i < |opss| ensures IsRecordOf(records[i], EntriesOn(opss, n)[i]) {
      BatchOf(records[i], n + |AllOps(opss[..i])| + 1, opss[i]);
    }
  }

  lemma BatchOf(rep: Bytes, sequence: nat, ops: seq<BatchCoding.Op>)
    requires BatchCoding.IsBatch(rep, sequence, ops)
    ensures IsRecordOf(rep, Entries(ops, sequence))
  {
    hide BatchCoding.IsBatch;
  }

  // ---------- From end to end ----------

  method ReadLogFiles(disk: map<nat, Bytes>) returns (left: map<nat, seq<seq<Entry>>>)
    ensures left == Left(disk)
  {
    hide Contents;
    left := map[];
    var rest := disk.Keys;
    while rest != {}
      invariant rest <= disk.Keys && left.Keys == disk.Keys - rest
      invariant forall n :: n in left ==> left[n] == Contents(disk[n])
      decreases |rest|
    {
      var n :| n in rest;
      var log := ReadLogFile(disk[n]);
      left := left[n := log];
      rest := rest - {n};
    }
  }

  // The database object dies at any moment and each log file is cut at any byte behind its synced
  // records.  Read back and opened again, the database has every write that was durable where it was; it
  // is right unless it goes on with a log that is torn.
  method CrashAndReopenFiles(
      db: DBImpl, disk: map<nat, Bytes>, reuseLogs: bool, full: seq<Entry> -> bool, fileSize: nat,
      ghost files: map<nat, seq<Bytes>>, ghost s: State)
    returns (reopened: DBImpl)
    requires db.Valid() && db.CrashesAs(s) && |s.history| <= MAX_SEQUENCE_NUMBER
    requires OnDisk(s, files) && CutBehindSynced(s, files, disk)
    ensures fresh(reopened) && fresh(reopened.versions) && reopened.Sound()
    ensures s.logFile in files && CrashLeaves(s, Left(disk))
    ensures var torn := IsTorn(files[s.logFile], |disk[s.logFile]|);
            && (exists tables, first :: RecoverAnyway(s, reopened.state, Left(disk), torn, tables, first))
            && (reopened.Valid() <==> !(torn && reopened.logFileNumber == s.logFile))
    ensures forall e :: Durability.IsDurable(db.state, e) ==>
              && Durability.IsDurable(reopened.state, e)
              && 1 <= e.key.sequence <= |reopened.state.history|
              && reopened.state.history[e.key.sequence - 1] == Some(e)
  {
    hide OnDisk, CutBehindSynced, IsTorn, CrashLeaves, RecoverAnyway, Durability.IsDurable, Inv, DBImpl.CrashesAs;
    db.ManifestSuffices(s);
    LogIsThere(s, files, disk);
    CutFilesAreRead(s, files, disk);
    var left := ReadLogFiles(disk);
    ghost var torn := IsTorn(files[s.logFile], |disk[s.logFile]|);
    reopened := CrashAndReopen(db, left, reuseLogs, full, fileSize, torn, s);
  }

  lemma LogIsThere(s: State, files: map<nat, seq<Bytes>>, disk: map<nat, Bytes>)
    requires Inv(s) && OnDisk(s, files) && CutBehindSynced(s, files, disk)
    ensures s.torn == {} && s.logFile in files && s.logFile in disk
  {
    hide MemOk, TablesOk, NumbersOk, JobOk;
  }
}
