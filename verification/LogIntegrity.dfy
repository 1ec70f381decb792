/** What the log reader gives for any file, however damaged (db/log_reader.cc): nothing but what lies in it
    fragment by fragment, with the right checksums and in the right order. */
module LogIntegrity {
  import opened Dbformat
  import opened Log
  import opened LogReader
  import Crc32c

  lemma MaskUndoesUnmask(w: bv32)
    ensures Crc32c.Mask(Crc32c.Unmask(w)) == w
  {
  }

  // A fragment lies in the file as it would be written: its checksum, length, type and data.
  ghost predicate IsFragmentAt(file: Bytes, start: nat, kind: byte, data: Bytes) {
    && |data| <= 0xffff && start + HEADER_SIZE + |data| <= |file|
    && DecodeFixed32(file[start..start + 4]) == Crc32c.Mask(Checksum(kind, data))
    && file[start + 4..start + HEADER_SIZE] == [|data| % 256, |data| / 256, kind]
    && file[start + HEADER_SIZE..start + HEADER_SIZE + |data|] == data
  }

  // Every fragment that is read lies in the file just as it would be written, within one block.
  lemma {:induction false} PartIsFragment(file: Bytes, s: Scan)
    requires Within(file, s) && s.end <= s.pos + BLOCK_SIZE
    ensures var (part, s') := NextPhysical(file, s);
            part.Part? ==>
              var start := s'.pos - HEADER_SIZE - |part.data|;
              && s.pos <= start && IsFragmentAt(file, start, part.kind, part.data)
              && start <= s'.pos <= s'.end <= start + BLOCK_SIZE
    decreases |file| + BLOCK_SIZE - s.end
  {
    hide Checksum, Crc32c.Mask, Crc32c.Unmask, DecodeFixed32, IsFragmentAt, LengthOf;
    var limit := Limit(file, s);
    if limit - s.pos < HEADER_SIZE {
      if !AtEof(file, s) {
        PartIsFragment(file, Scan(s.end + BLOCK_SIZE, s.end));
      }
    } else if NextPhysical(file, s).0.Part? {
      var part := NextPhysical(file, s).0;
      MaskUndoesUnmask(DecodeFixed32(file[s.pos..s.pos + 4]));
      HeaderSaysSo(file, s.pos, part.kind, part.data);
    }
  }

  lemma HeaderSaysSo(file: Bytes, start: nat, kind: byte, data: Bytes)
    requires start + HEADER_SIZE + |data| <= |file| && file[start + 6] == kind
    requires |data| == LengthOf(file[start + 4], file[start + 5])
    requires DecodeFixed32(file[start..start + 4]) == Crc32c.Mask(Checksum(kind, data))
    requires file[start + HEADER_SIZE..start + HEADER_SIZE + |data|] == data
    ensures IsFragmentAt(file, start, kind, data)
  {
    hide Checksum, Crc32c.Mask, DecodeFixed32;
    assert file[start + 4..start + HEADER_SIZE] == [file[start + 4], file[start + 5], file[start + 6]];
  }

  // From s on the file has fragments of the middle of a record and then of its end; `rest` is what they hold.
  ghost predicate GoesOn(file: Bytes, s: Scan, end: Scan, rest: Bytes)
    requires Within(file, s)
    decreases |file| - s.pos
  {
    var (part, s') := NextPhysical(file, s);
    && part.Part? && part.data <= rest
    && ((part.kind == LAST_TYPE && s' == end && rest == part.data) ||
        (part.kind == MIDDLE_TYPE && GoesOn(file, s', end, rest[|part.data|..])))
  }

  // A record lies there: in one fragment, or from a first one on to a last one, with nothing in between.
  ghost predicate IsRecordAt(file: Bytes, s: Scan, end: Scan, record: Bytes)
    requires Within(file, s)
  {
    var (part, s') := NextPhysical(file, s);
    && part.Part? && part.data <= record
    && ((part.kind == FULL_TYPE && s' == end && record == part.data) ||
        (part.kind == FIRST_TYPE && GoesOn(file, s', end, record[|part.data|..])))
  }

  // What has been gathered since s0 is the beginning of a record.
  ghost predicate Gathered(file: Bytes, s0: Scan, s: Scan, scratch: Bytes)
    requires Within(file, s0) && Within(file, s)
  {
    forall end, rest :: GoesOn(file, s, end, rest) ==> IsRecordAt(file, s0, end, scratch + rest)
  }

  lemma GathersFirst(file: Bytes, s: Scan)
    requires Within(file, s)
    ensures var (part, s') := NextPhysical(file, s);
            part.Part? && part.kind == FIRST_TYPE ==> Gathered(file, s, s', part.data)
  {
    hide NextPhysical;
    var (part, s') := NextPhysical(file, s);
    if part.Part? && part.kind == FIRST_TYPE {
      forall end, rest | GoesOn(file, s', end, rest) ensures IsRecordAt(file, s, end, part.data + rest) {
        assert (part.data + rest)[|part.data|..] == rest;
      }
    }
  }

  lemma GathersMore(file: Bytes, s0: Scan, s: Scan, scratch: Bytes)
    requires Within(file, s0) && Within(file, s) && Gathered(file, s0, s, scratch)
    ensures var (part, s') := NextPhysical(file, s);
            && (part.Part? && part.kind == MIDDLE_TYPE ==> Gathered(file, s0, s', scratch + part.data))
            && (part.Part? && part.kind == LAST_TYPE ==> IsRecordAt(file, s0, s', scratch + part.data))
  {
    hide NextPhysical, IsRecordAt;
    var (part, s') := NextPhysical(file, s);
    if part.Part? && part.kind == MIDDLE_TYPE {
      forall end, rest | GoesOn(file, s', end, rest) ensures IsRecordAt(file, s0, end, scratch + part.data + rest) {
        assert (part.data + rest)[|part.data|..] == rest;
        assert GoesOn(file, s, end, part.data + rest);
        assert scratch + part.data + rest == scratch + (part.data + rest);
      }
    } else if part.Part? && part.kind == LAST_TYPE {
      assert GoesOn(file, s, s', part.data);
    }
  }

  // Whatever is damaged, a record that is returned lies in the file as a record.
  lemma {:induction false} RecordLiesThere(
      file: Bytes, s: Scan, scratch: Bytes, inFragmented: bool, start: nat, dropped: seq<nat>, s0: Scan)
    returns (at: Scan)
    requires Within(file, s) && Within(file, s0) && s0.pos <= s.pos && (inFragmented ==> Gathered(file, s0, s, scratch))
    ensures Within(file, at)
    ensures var next := NextLogical(file, s, scratch, inFragmented, start, dropped);
            next.record.Some? ==> s0.pos <= at.pos && IsRecordAt(file, at, next.scan, next.record.value.0)
    decreases |file| - s.pos
  {
    hide NextPhysical, IsRecordAt, Gathered;
    at := s0;
    var (part, s') := NextPhysical(file, s);
    match part
    case Eof =>
    case Bad(bytes) =>
      if inFragmented {
        at := RecordLiesThere(file, s', [], false, start, dropped + bytes + [|scratch|], s0);
      } else {
        at := RecordLiesThere(file, s', scratch, false, start, dropped + bytes, s0);
      }
    case Part(kind, data) =>
      var offset := s'.pos - HEADER_SIZE - |data|;
      var broken := if inFragmented && scratch != [] then [|scratch|] else [];
      if kind == FULL_TYPE {
        at := s;
        WholeRecord(file, s);
      } else if kind == FIRST_TYPE {
        GathersFirst(file, s);
        at := RecordLiesThere(file, s', data, true, offset, dropped + broken, s);
      } else if kind == MIDDLE_TYPE || kind == LAST_TYPE {
        if inFragmented {
          GathersMore(file, s0, s, scratch);
          if kind == MIDDLE_TYPE {
            at := RecordLiesThere(file, s', scratch + data, true, start, dropped, s0);
          }
        } else {
          at := RecordLiesThere(file, s', scratch, false, start, dropped + [|data|], s0);
        }
      } else {
        at := RecordLiesThere(file, s', [], false, start,
                              dropped + [|data| + (if inFragmented then |scratch| else 0)], s0);
      }
  }

  lemma WholeRecord(file: Bytes, s: Scan)
    requires Within(file, s)
    ensures var (part, s') := NextPhysical(file, s);
            part.Part? && part.kind == FULL_TYPE ==> IsRecordAt(file, s, s', part.data)
  {
    hide NextPhysical;
  }

  // Every record that reading a file gives lies in the file as a record, each behind the one before.
  ghost predicate LieInOrder(file: Bytes, from: nat, records: seq<Bytes>)
    decreases |records|
  {
    records != [] ==>
      exists at: Scan, end: Scan ::
        && Within(file, at) && from <= at.pos <= end.pos && IsRecordAt(file, at, end, records[0])
        && LieInOrder(file, end.pos, records[1..])
  }

  lemma {:induction false} ReadRecordsLieThere(file: Bytes, s: Scan, dropped: seq<nat>)
    requires Within(file, s)
    ensures LieInOrder(file, s.pos, ReadAll(file, s, dropped).0)
    decreases |file| - s.pos
  {
    hide NextLogical, IsRecordAt;
    var next := NextLogical(file, s, [], false, 0, dropped);
    if next.record.Some? {
      var at := RecordLiesThere(file, s, [], false, 0, dropped, s);
      ReadRecordsLieThere(file, next.scan, next.dropped);
      var records := ReadAll(file, s, dropped).0;
      assert records[1..] == ReadAll(file, next.scan, next.dropped).0;
      RecordHasRoom(file, at, next.scan, records[0]);
    }
  }

  lemma RecordHasRoom(file: Bytes, at: Scan, end: Scan, record: Bytes)
    requires Within(file, at) && IsRecordAt(file, at, end, record)
    ensures at.pos <= end.pos
  {
    hide NextPhysical;
    var (part, s') := NextPhysical(file, at);
    if part.kind == FIRST_TYPE {
      RestHasRoom(file, s', end, record[|part.data|..]);
    }
  }

  lemma {:induction false} RestHasRoom(file: Bytes, s: Scan, end: Scan, rest: Bytes)
    requires Within(file, s) && GoesOn(file, s, end, rest)
    ensures s.pos <= end.pos
    decreases |file| - s.pos
  {
    hide NextPhysical;
    var (part, s') := NextPhysical(file, s);
    if part.kind == MIDDLE_TYPE {
      RestHasRoom(file, s', end, rest[|part.data|..]);
    }
  }
}
