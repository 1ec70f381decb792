/** What the log reader returns for a file the log writer wrote, whole or cut short by a crash. */
module LogRoundTrip {
  import opened Dbformat
  import opened Log
  import opened LogReader
  import Crc32c

  // The offset of the scan position in its block; the end of a block counts as BLOCK_SIZE.
  ghost predicate At(s: Scan, offset: nat) {
    && offset <= BLOCK_SIZE
    && s.end % BLOCK_SIZE == 0
    && s.pos + BLOCK_SIZE == s.end + offset
  }

  // The bytes b lie in the file from p on.
  ghost predicate Lies(file: Bytes, p: nat, b: Bytes) {
    p + |b| <= |file| && file[p..p + |b|] == b
  }

  lemma LiesSplit(file: Bytes, p: nat, a: Bytes, b: Bytes)
    requires Lies(file, p, a + b)
    ensures Lies(file, p, a) && Lies(file, p + |a|, b)
  {
    assert file[p..p + |a|] == file[p..p + |a + b|][..|a|];
    assert file[p + |a|..p + |a| + |b|] == file[p..p + |a + b|][|a|..];
  }

  lemma StoredHeader(file: Bytes, p: nat, kind: byte, payload: Bytes)
    requires |payload| <= 0xffff && Lies(file, p, Fragment(kind, payload))
    ensures LengthOf(file[p + 4], file[p + 5]) == |payload| && file[p + 6] == kind
    ensures file[p + HEADER_SIZE..p + HEADER_SIZE + |payload|] == payload
    ensures Crc32c.Unmask(DecodeFixed32(file[p..p + 4])) == Checksum(kind, payload)
  {
    hide Crc32c.Mask, Crc32c.Unmask, EncodeFixed32, DecodeFixed32, Checksum;
    var crc := Crc32c.Mask(Checksum(kind, payload));
    var header := EncodeFixed32(crc) + [|payload| % 256, |payload| / 256, kind];
    LiesSplit(file, p, header, payload);
    assert header[4] == file[p..p + 7][4] && header[5] == file[p..p + 7][5] && header[6] == file[p..p + 7][6];
    assert file[p..p + 4] == file[p..p + 7][..4] == EncodeFixed32(crc);
    DecodeUndoesEncode(crc);
    Crc32c.UnmaskUndoesMask(Checksum(kind, payload));
  }

  lemma WholeFragment(file: Bytes, s: Scan, kind: byte, payload: Bytes)
    requires Within(file, s) && kind != ZERO_TYPE && HEADER_SIZE + |payload| <= Limit(file, s) - s.pos
    requires LengthOf(file[s.pos + 4], file[s.pos + 5]) == |payload| && file[s.pos + 6] == kind
    requires file[s.pos + HEADER_SIZE..s.pos + HEADER_SIZE + |payload|] == payload
    requires Crc32c.Unmask(DecodeFixed32(file[s.pos..s.pos + 4])) == Checksum(kind, payload)
    ensures NextPhysical(file, s) == (Part(kind, payload), Scan(s.end, s.pos + HEADER_SIZE + |payload|))
  {
    hide Crc32c.Unmask, DecodeFixed32, Checksum, LengthOf;
  }

  lemma TruncatedFragment(file: Bytes, s: Scan, length: nat)
    requires Within(file, s) && AtEof(file, s) && |file| - s.pos < HEADER_SIZE + length
    requires HEADER_SIZE <= |file| - s.pos ==> LengthOf(file[s.pos + 4], file[s.pos + 5]) == length
    ensures NextPhysical(file, s).0 == Eof
  {
    hide Crc32c.Unmask, DecodeFixed32, Checksum, LengthOf;
  }

  lemma SliceOfCut(file: Bytes, n: nat, a: nat, b: nat)
    requires a <= b <= n <= |file|
    ensures file[..n][a..b] == file[a..b]
  {
  }

  // The file ends inside the fragment that starts at p and stops at `stop`: its header says so, or is
  // not all there.  Only the first n bytes of the file are the log's own.
  ghost predicate EndsInside(size: nat, n: nat, p: nat, stop: nat) {
    size < stop && (n < p + HEADER_SIZE ==> size < p + HEADER_SIZE)
  }

  ghost predicate Agree(file: Bytes, cut: Bytes, n: nat) {
    n <= |file| && n <= |cut| && cut[..n] == file[..n]
  }

  lemma AgreeAt(file: Bytes, cut: Bytes, n: nat, a: nat, b: nat)
    requires Agree(file, cut, n) && a <= b <= n
    ensures cut[a..b] == file[a..b]
    ensures a < b ==> cut[a] == file[a] && cut[b - 1] == file[b - 1]
  {
    assert cut[a..b] == cut[..n][a..b] && file[a..b] == file[..n][a..b];
    assert a < b ==> cut[a] == cut[a..b][0] && file[a] == file[a..b][0];
    assert a < b ==> cut[b - 1] == cut[a..b][b - 1 - a] && file[b - 1] == file[a..b][b - 1 - a];
  }

  // A fragment is read if all of it is in the first n bytes; if the file ends inside it, that is not
  // taken for corruption.
  lemma FragmentIsRead(file: Bytes, cut: Bytes, n: nat, s: Scan, kind: byte, payload: Bytes)
    requires Agree(file, cut, n) && Within(cut, s) && kind != ZERO_TYPE
    requires s.pos + HEADER_SIZE + |payload| <= s.end && |payload| <= 0xffff
    requires Lies(file, s.pos, Fragment(kind, payload))
    ensures var stop := s.pos + HEADER_SIZE + |payload|;
            && (stop <= n ==> NextPhysical(cut, s) == (Part(kind, payload), Scan(s.end, stop)))
            && (stop > n && EndsInside(|cut|, n, s.pos, stop) ==> NextPhysical(cut, s).0 == Eof)
  {
    hide Crc32c.Unmask, DecodeFixed32, Checksum, Fragment, LengthOf, NextPhysical, Agree;
    StoredHeader(file, s.pos, kind, payload);
    var stop := s.pos + HEADER_SIZE + |payload|;
    if s.pos + HEADER_SIZE <= n {
      AgreeAt(file, cut, n, s.pos + 4, s.pos + 5);
      AgreeAt(file, cut, n, s.pos + 5, s.pos + 6);
      AgreeAt(file, cut, n, s.pos + 6, s.pos + 7);
    }
    if stop <= n {
      AgreeAt(file, cut, n, s.pos + HEADER_SIZE, stop);
      AgreeAt(file, cut, n, s.pos, s.pos + 4);
      AgreeIsLong(file, cut, n);
      WholeFragment(cut, s, kind, payload);
    } else if EndsInside(|cut|, n, s.pos, stop) {
      TruncatedFragment(cut, s, |payload|);
    }
  }

  lemma AgreeIsLong(file: Bytes, cut: Bytes, n: nat)
    requires Agree(file, cut, n)
    ensures n <= |file| && n <= |cut|
  {
  }

  lemma TrailerIsSkipped(file: Bytes, s: Scan)
    requires Within(file, s) && s.end - s.pos < HEADER_SIZE
    ensures if AtEof(file, s) then NextPhysical(file, s).0 == Eof
            else NextPhysical(file, s) == NextPhysical(file, Scan(s.end + BLOCK_SIZE, s.end))
  {
    hide Crc32c.Unmask, DecodeFixed32, Checksum, LengthOf;
  }

  // The same from wherever the writer was in its block: a trailer is skipped first.
  lemma PieceIsRead(file: Bytes, cut: Bytes, n: nat, s: Scan, offset: nat, data: Bytes, begin: bool)
    requires Agree(file, cut, n) && Within(cut, s) && At(s, offset)
    requires Lies(file, s.pos, Piece(offset, data, begin))
    ensures var m := FragmentLength(offset, |data|);
            var stop := s.pos + |Piece(offset, data, begin)|;
            && stop == s.pos + |Trailer(offset)| + HEADER_SIZE + m
            && (stop <= n ==>
                  && NextPhysical(cut, s).0 == Part(FragmentType(begin, m == |data|), data[..m])
                  && NextPhysical(cut, s).1.pos == stop
                  && At(NextPhysical(cut, s).1, Start(offset) + HEADER_SIZE + m))
            && (stop > n && EndsInside(|cut|, n, s.pos + |Trailer(offset)|, stop) ==> NextPhysical(cut, s).0 == Eof)
  {
    hide Fragment, NextPhysical, Agree;
    AgreeIsLong(file, cut, n);
    var m := FragmentLength(offset, |data|);
    var kind := FragmentType(begin, m == |data|);
    LiesSplit(file, s.pos, Trailer(offset), Fragment(kind, data[..m]));
    if BLOCK_SIZE - offset < HEADER_SIZE {
      if !AtEof(cut, s) {
        var next := Scan(s.end + BLOCK_SIZE, s.end);
        FragmentIsRead(file, cut, n, next, kind, data[..m]);
      }
      TrailerIsSkipped(cut, s);
    } else {
      FragmentIsRead(file, cut, n, s, kind, data[..m]);
    }
  }

  lemma EofEndsRecord(file: Bytes, s: Scan, scratch: Bytes, inFragmented: bool, start: nat, dropped: seq<nat>)
    requires Within(file, s) && NextPhysical(file, s).0 == Eof
    ensures var next := NextLogical(file, s, scratch, inFragmented, start, dropped);
            next.record == None && next.dropped == dropped
  {
    hide NextPhysical;
  }

  // The fragments of a record, as the writer types them, are put together without a report.
  lemma PartIsGathered(
      file: Bytes, s: Scan, scratch: Bytes, begin: bool, end: bool, data: Bytes, start: nat, dropped: seq<nat>)
    requires Within(file, s) && NextPhysical(file, s).0 == Part(FragmentType(begin, end), data)
    requires begin ==> scratch == []
    ensures var s' := NextPhysical(file, s).1;
            var from := if begin then s'.pos - HEADER_SIZE - |data| else start;
            NextLogical(file, s, scratch, !begin, start, dropped) ==
            if end then Logical(Some((scratch + data, from)), s', dropped)
            else NextLogical(file, s', scratch + data, true, from, dropped)
  {
    hide NextPhysical;
    assert dropped + [] == dropped;
    assert begin ==> scratch + data == data;
  }

  // If the first n bytes do not have all of what is left of a record, from p on, then the file ends
  // inside the fragment they end in.
  ghost predicate TearsIn(size: nat, n: nat, p: nat, offset: nat, left: nat)
    requires offset <= BLOCK_SIZE
    decreases left, BLOCK_SIZE - offset
  {
    var m := FragmentLength(offset, left);
    var stop := p + |Trailer(offset)| + HEADER_SIZE + m;
    if stop <= n then m == left || TearsIn(size, n, stop, Start(offset) + HEADER_SIZE + m, left - m)
    else EndsInside(size, n, p + |Trailer(offset)|, stop)
  }

  // A plain cut is one.
  lemma {:induction false} CutTears(n: nat, p: nat, offset: nat, left: nat)
    requires offset <= BLOCK_SIZE
    ensures TearsIn(n, n, p, offset, left)
    decreases left, BLOCK_SIZE - offset
  {
    var m := FragmentLength(offset, left);
    var stop := p + |Trailer(offset)| + HEADER_SIZE + m;
    if stop <= n && m < left {
      CutTears(n, stop, Start(offset) + HEADER_SIZE + m, left - m);
    }
  }

  // A record, or what is left of one, is read if all of it is in the first n bytes; if it is torn, the
  // reader comes to the end of the file without a report.
  lemma {:induction false} RecordIsRead(
      file: Bytes, cut: Bytes, n: nat, s: Scan, offset: nat, scratch: Bytes, data: Bytes, begin: bool, start: nat,
      dropped: seq<nat>)
    requires Agree(file, cut, n) && Within(cut, s) && At(s, offset)
    requires Lies(file, s.pos, Emitted(offset, data, begin))
    requires begin ==> scratch == []
    ensures var next := NextLogical(cut, s, scratch, !begin, start, dropped);
            var stop := s.pos + |Emitted(offset, data, begin)|;
            && (stop <= n ==>
                  && next.dropped == dropped
                  && next.record == Some((scratch + data, if begin then s.pos + |Trailer(offset)| else start))
                  && next.scan.pos == stop
                  && next.scan.end % BLOCK_SIZE == 0 && stop <= next.scan.end < stop + BLOCK_SIZE)
            && (stop > n && TearsIn(|cut|, n, s.pos, offset, |data|) ==> next.record == None && next.dropped == dropped)
    decreases |data|, BLOCK_SIZE - offset
  {
    hide Piece, NextPhysical, NextLogical, Emitted, FragmentLength, FragmentType, Start, Trailer, Lies, Agree;
    var m := FragmentLength(offset, |data|);
    var piece := Piece(offset, data, begin);
    var off := Start(offset) + HEADER_SIZE + m;
    var rest := if m == |data| then [] else Emitted(off, data[m..], false);
    EmittedUnfolds(offset, data, begin);
    LiesSplit(file, s.pos, piece, rest);
    PieceIsRead(file, cut, n, s, offset, data, begin);
    if s.pos + |piece| > n {
      if TearsIn(|cut|, n, s.pos, offset, |data|) {
        EofEndsRecord(cut, s, scratch, !begin, start, dropped);
      }
    } else {
      PartIsGathered(cut, s, scratch, begin, m == |data|, data[..m], start, dropped);
      if m == |data| {
        assert data[..m] == data;
      } else {
        var s' := NextPhysical(cut, s).1;
        FragmentsProgress(offset, |data|);
        RecordIsRead(file, cut, n, s', off, scratch + data[..m], data[m..], false,
                     if begin then s.pos + |Trailer(offset)| else start, dropped);
        assert scratch + data == (scratch + data[..m]) + data[m..];
      }
    }
  }

  // ---------- Whole files ----------

  lemma {:induction false} EarlierRecordsFirst(records: seq<Bytes>, i: nat)
    requires i <= |records|
    ensures |WriteAll(records[..i])| <= |WriteAll(records)|
    ensures WriteAll(records)[..|WriteAll(records[..i])|] == WriteAll(records[..i])
    decreases |records|
  {
    hide Emitted;
    if i == |records| {
      assert records[..i] == records;
    } else {
      var init := records[..|records| - 1];
      EarlierRecordsFirst(init, i);
      assert init[..i] == records[..i];
    }
  }

  // Where record i lies.
  lemma RecordLies(records: seq<Bytes>, i: nat)
    requires i < |records|
    ensures var p := |WriteAll(records[..i])|;
            var bytes := Emitted(p % BLOCK_SIZE, records[i], true);
            && Lies(WriteAll(records), p, bytes) && p + |bytes| == |WriteAll(records[..i + 1])|
  {
    hide Emitted;
    var file := WriteAll(records);
    var more := WriteAll(records[..i + 1]);
    EarlierRecordsFirst(records, i + 1);
    assert records[..i + 1][..i] == records[..i];
    var p := |WriteAll(records[..i])|;
    var bytes := Emitted(p % BLOCK_SIZE, records[i], true);
    assert more == WriteAll(records[..i]) + bytes;
    assert file[p..p + |bytes|] == file[..|more|][p..] == bytes;
  }

  // k is the number of records that lie wholly inside the first n bytes.
  ghost predicate WholeRecords(records: seq<Bytes>, n: nat, k: nat) {
    && k <= |records|
    && |WriteAll(records[..k])| <= n
    && (k < |records| ==> n < |WriteAll(records[..k + 1])|)
  }

  // The writer's block offset for a position, as the reader sees it.
  lemma ReaderOffset(s: Scan) returns (offset: nat)
    requires s.end % BLOCK_SIZE == 0 && s.pos <= s.end && s.end < s.pos + BLOCK_SIZE
    ensures At(s, offset)
    ensures offset == s.pos % BLOCK_SIZE || (offset == BLOCK_SIZE && s.pos % BLOCK_SIZE == 0)
  {
    offset := s.pos + BLOCK_SIZE - s.end;
  }

  // The file tears record k, or ends where the records do.
  ghost predicate TearsRecord(records: seq<Bytes>, size: nat, n: nat, k: nat)
    requires k <= |records|
  {
    var p := |WriteAll(records[..k])|;
    if k == |records| then size == n == p
    else
      && TearsIn(size, n, p, p % BLOCK_SIZE, |records[k]|)
      && (p % BLOCK_SIZE == 0 ==> TearsIn(size, n, p, BLOCK_SIZE, |records[k]|))
  }

  lemma {:induction false} ReadFrom(records: seq<Bytes>, cut: Bytes, n: nat, k: nat, i: nat, s: Scan, dropped: seq<nat>)
    requires Agree(WriteAll(records), cut, n) && WholeRecords(records, n, k) && i <= k
    requires TearsRecord(records, |cut|, n, k)
    requires Within(cut, s) && s.pos == |WriteAll(records[..i])|
    requires s.end % BLOCK_SIZE == 0 && s.end < s.pos + BLOCK_SIZE
    requires s.pos <= s.end
    ensures ReadAll(cut, s, dropped) == (records[i..k], dropped)
    decreases k - i
  {
    hide Emitted, NextLogical, WriteAll, Agree, TearsIn;
    var file := WriteAll(records);
    if i == |records| {
      assert records[..i] == records;
      NothingLeft(cut, s, dropped);
    } else {
      RecordLies(records, i);
      var offset := ReaderOffset(s);
      BlockEndIsBlockStart(records[i], true);
      RecordIsRead(file, cut, n, s, offset, [], records[i], true, 0, dropped);
      var next := NextLogical(cut, s, [], false, 0, dropped);
      assert [] + records[i] == records[i];
      if i < k {
        RecordsGrow(records, i + 1, k);
        ReadFrom(records, cut, n, k, i + 1, next.scan, dropped);
        assert [records[i]] + records[i + 1..k] == records[i..k];
      } else {
        assert records[i..k] == [];
      }
    }
  }

  lemma {:induction false} RecordsGrow(records: seq<Bytes>, i: nat, k: nat)
    requires i <= k <= |records|
    ensures |WriteAll(records[..i])| <= |WriteAll(records[..k])|
  {
    EarlierRecordsFirst(records[..k], i);
    assert records[..k][..i] == records[..i];
  }

  lemma NothingLeft(file: Bytes, s: Scan, dropped: seq<nat>)
    requires Within(file, s) && s.pos == |file| <= s.end
    ensures ReadAll(file, s, dropped) == ([], dropped)
  {
    hide Crc32c.Unmask, DecodeFixed32, Checksum, LengthOf;
    assert NextPhysical(file, s).0 == Eof;
  }

  // Cut the file of any records (empty ones, ones of many blocks, written by one writer or by several in
  // turn) at any byte: reading it returns exactly the records that lie wholly before the cut, in order,
  // and nothing is reported as corrupt.
  lemma CutLogReadsBack(records: seq<Bytes>, n: nat, k: nat)
    requires n <= |WriteAll(records)| && WholeRecords(records, n, k)
    ensures ReadAll(WriteAll(records)[..n], Scan(0, 0), []) == (records[..k], [])
  {
    hide Emitted, ReadAll;
    var p := |WriteAll(records[..k])|;
    if k < |records| {
      CutTears(n, p, p % BLOCK_SIZE, |records[k]|);
      CutTears(n, p, BLOCK_SIZE, |records[k]|);
    } else {
      assert records[..k] == records;
    }
    TornLogReadsBack(records, WriteAll(records)[..n], n, k);
  }

  // The same if anything at all has been appended to the cut log, as long as the file still ends inside
  // the fragment that was torn and whose header is there.
  lemma TornLogReadsBack(records: seq<Bytes>, file: Bytes, n: nat, k: nat)
    requires Agree(WriteAll(records), file, n) && WholeRecords(records, n, k) && TearsRecord(records, |file|, n, k)
    ensures ReadAll(file, Scan(0, 0), []) == (records[..k], [])
  {
    hide Agree, TearsRecord;
    assert records[..0] == [];
    ReadFrom(records, file, n, k, 0, Scan(0, 0), []);
    assert records[0..k] == records[..k];
  }

  // For every cut there is such a number of whole records, and a whole file has them all.
  lemma {:induction false} WholeRecordsExist(records: seq<Bytes>, n: nat) returns (k: nat)
    ensures WholeRecords(records, n, k)
    ensures n >= |WriteAll(records)| ==> k == |records|
  {
    hide Emitted;
    if records == [] {
      k := 0;
    } else if |WriteAll(records)| <= n {
      k := |records|;
      assert records[..k] == records;
    } else {
      var init := records[..|records| - 1];
      k := WholeRecordsExist(init, n);
      assert forall i :: 0 <= i <= |init| ==> init[..i] == records[..i];
      assert records[..|records|] == records;
    }
  }

  lemma LogReadsBack(records: seq<Bytes>)
    ensures ReadAll(WriteAll(records), Scan(0, 0), []) == (records, [])
  {
    var file := WriteAll(records);
    assert file[..|file|] == file && records[..|records|] == records;
    CutLogReadsBack(records, |file|, |records|);
  }

  // A log that ends at a record can be reopened and written to.
  lemma ReopenedLogReadsBack(records: seq<Bytes>, more: Bytes)
    ensures ReadAll(WriteAll(records) + Emitted(|WriteAll(records)| % BLOCK_SIZE, more, true), Scan(0, 0), []) ==
            (records + [more], [])
  {
    hide Emitted;
    assert (records + [more])[..|records|] == records;
    LogReadsBack(records + [more]);
  }

  // A log cut inside a record cannot.  This is one way for it to go wrong, in which nothing is reported:
  // the cut is behind a fragment's header, and a record appended there, as happens when a log is reused,
  // ends before the torn fragment would have.  LogReuse says exactly for which cuts every record is safe.
  lemma TornLogHidesAppended(records: seq<Bytes>, n: nat, k: nat, more: Bytes)
    requires n <= |WriteAll(records)| && WholeRecords(records, n, k) && k < |records|
    requires TearsRecord(records, n + |Emitted(n % BLOCK_SIZE, more, true)|, n, k)
    ensures ReadAll(WriteAll(records)[..n] + Emitted(n % BLOCK_SIZE, more, true), Scan(0, 0), []) == (records[..k], [])
  {
    hide Emitted, ReadAll, TearsRecord, WriteAll, Agree, WholeRecords;
    AgreeWithAppended(WriteAll(records), n, Emitted(n % BLOCK_SIZE, more, true));
    TornLogReadsBack(records, WriteAll(records)[..n] + Emitted(n % BLOCK_SIZE, more, true), n, k);
  }

  lemma AgreeWithAppended(file: Bytes, n: nat, more: Bytes)
    requires n <= |file|
    ensures Agree(file, file[..n] + more, n)
  {
  }

  // Where that is so: in the first fragment of a record, after the header and with room left.
  lemma TornInFirstFragment(records: seq<Bytes>, n: nat, k: nat, size: nat)
    requires k < |records|
    requires var p := |WriteAll(records[..k])|;
             var offset := p % BLOCK_SIZE;
             var a := p + |Trailer(offset)|;
             a + HEADER_SIZE <= n <= size < a + HEADER_SIZE + FragmentLength(offset, |records[k]|)
    ensures TearsRecord(records, size, n, k)
  {
    assert Trailer(BLOCK_SIZE) == Trailer(0);
  }

  // A cut in the trailer before a record does no harm: the appended record fills the trailer up.
  lemma CutInTrailerIsHarmless(records: seq<Bytes>, n: nat, k: nat, more: Bytes)
    requires k < |records| && n <= |WriteAll(records)|
    requires var p := |WriteAll(records[..k])|; p <= n <= p + |Trailer(p % BLOCK_SIZE)|
    ensures ReadAll(WriteAll(records)[..n] + Emitted(n % BLOCK_SIZE, more, true), Scan(0, 0), []) ==
              (records[..k] + [more], [])
  {
    hide ReadAll, Emitted, WriteAll, Trailer;
    var before := WriteAll(records[..k]);
    var p := |before|;
    var offset := p % BLOCK_SIZE;
    var file, appended := WriteAll(records), Emitted(n % BLOCK_SIZE, more, true);
    var bytes := Emitted(offset, records[k], true);
    RecordLies(records, k);
    EarlierRecordsFirst(records, k);
    EmittedStartsWithTrailer(offset, records[k]);
    assert file[p..n] == file[p..p + |bytes|][..n - p] == Trailer(offset)[..n - p];
    assert file[..n] == before + Trailer(offset)[..n - p];
    TrailerIsFilledUp(p, n - p, more);
    assert file[..n] + appended == before + Emitted(offset, more, true);
    AppendedIsWritten(records[..k], more);
    LogReadsBack(records[..k] + [more]);
  }

  lemma AppendedIsWritten(records: seq<Bytes>, more: Bytes)
    ensures WriteAll(records + [more]) == WriteAll(records) + Emitted(|WriteAll(records)| % BLOCK_SIZE, more, true)
  {
    hide Emitted;
    assert (records + [more])[..|records|] == records;
  }

  lemma EmittedStartsWithTrailer(offset: nat, data: Bytes)
    requires offset <= BLOCK_SIZE
    ensures |Trailer(offset)| <= |Emitted(offset, data, true)|
    ensures Emitted(offset, data, true)[..|Trailer(offset)|] == Trailer(offset)
  {
    hide Fragment, Trailer, Emitted;
    EmittedUnfolds(offset, data, true);
  }

  // The rest of a trailer, from the place p + d on, and then the record.
  lemma TrailerIsFilledUp(p: nat, d: nat, more: Bytes)
    requires d <= |Trailer(p % BLOCK_SIZE)|
    ensures Trailer(p % BLOCK_SIZE)[..d] + Emitted((p + d) % BLOCK_SIZE, more, true) ==
              Emitted(p % BLOCK_SIZE, more, true)
  {
    hide Fragment, Emitted;
    var offset := p % BLOCK_SIZE;
    if d == 0 {
      assert [] + Emitted(offset, more, true) == Emitted(offset, more, true);
    } else {
      var later := (p + d) % BLOCK_SIZE;
      assert later == if offset + d == BLOCK_SIZE then 0 else offset + d;
      assert Trailer(offset)[..d] + Trailer(later) == Trailer(offset);
      assert Start(later) == Start(offset) == 0;
      EmittedUnfolds(offset, more, true);
      EmittedUnfolds(later, more, true);
      var n := FragmentLength(offset, |more|);
      var piece := Fragment(FragmentType(true, n == |more|), more[..n]);
      var rest := if n == |more| then [] else Emitted(HEADER_SIZE + n, more[n..], false);
      AddAssociates(Trailer(later), piece, rest);
      AddAssociates(Trailer(offset), piece, rest);
      AddAssociates(Trailer(offset)[..d], Trailer(later), piece + rest);
    }
  }
}
