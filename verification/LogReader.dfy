/** Reading a log file back (db/log_reader.cc, from its start and with checksums). */
module LogReader {
  import opened Dbformat
  import opened Log
  import Crc32c

  // ---------- What the reader makes of any file ----------

  // The reader has read the file up to the block boundary `end`, or to the file's end if that comes
  // first, and what it has not used of that starts at `pos`.
  datatype Scan = Scan(end: nat, pos: nat)

  function Limit(file: Bytes, s: Scan): nat {
    if s.end < |file| then s.end else |file|
  }

  predicate Within(file: Bytes, s: Scan) {
    s.pos <= Limit(file, s) && s.end <= |file| + BLOCK_SIZE
  }

  // The last read came up short.
  predicate AtEof(file: Bytes, s: Scan) { |file| < s.end }

  datatype Physical = Eof | Bad(dropped: seq<nat>) | Part(kind: byte, data: Bytes)

  function LengthOf(low: byte, high: byte): nat { low as int + 256 * (high as int) }

  // The next fragment.  `dropped` are the byte counts reported as corrupt.
  function NextPhysical(file: Bytes, s: Scan): (r: (Physical, Scan))
    requires Within(file, s)
    ensures Within(file, r.1) && s.pos <= r.1.pos
    ensures !r.0.Eof? ==> s.pos < r.1.pos
    ensures r.0.Part? ==> s.pos + HEADER_SIZE + |r.0.data| <= r.1.pos
    decreases |file| + BLOCK_SIZE - s.end
  {
    var limit := Limit(file, s);
    if limit - s.pos < HEADER_SIZE then
      // a trailer to skip, or a truncated header
      if AtEof(file, s) then (Eof, Scan(s.end, limit)) else NextPhysical(file, Scan(s.end + BLOCK_SIZE, s.end))
    else
      var length := LengthOf(file[s.pos + 4], file[s.pos + 5]);
      var kind := file[s.pos + 6];
      if HEADER_SIZE + length > limit - s.pos then
        (if AtEof(file, s) then Eof else Bad([limit - s.pos]), Scan(s.end, limit))
      else if kind == ZERO_TYPE && length == 0 then (Bad([]), Scan(s.end, limit))
      else
        var data := file[s.pos + HEADER_SIZE..s.pos + HEADER_SIZE + length];
        if Crc32c.Unmask(DecodeFixed32(file[s.pos..s.pos + 4])) != Checksum(kind, data) then
          (Bad([limit - s.pos]), Scan(s.end, limit))
        else (Part(kind, data), Scan(s.end, s.pos + HEADER_SIZE + length))
  }

  // A record and the offset it was found at; none at the end of the file.
  datatype Logical = Logical(record: Option<(Bytes, nat)>, scan: Scan, dropped: seq<nat>)

  // The next record, given the fragments gathered of it so far, the offset of the first one, and
  // what has been reported.
  function NextLogical(
      file: Bytes, s: Scan, scratch: Bytes, inFragmented: bool, start: nat, dropped: seq<nat>): (r: Logical)
    requires Within(file, s)
    ensures Within(file, r.scan)
    ensures r.record.Some? ==> s.pos < r.scan.pos
    decreases |file| - s.pos
  {
    var (physical, s') := NextPhysical(file, s);
    match physical
    case Eof => Logical(None, s', dropped)
    case Bad(bytes) =>
      if inFragmented then NextLogical(file, s', [], false, start, dropped + bytes + [|scratch|])
      else NextLogical(file, s', scratch, false, start, dropped + bytes)
    case Part(kind, data) =>
      var offset := s'.pos - HEADER_SIZE - |data|;
      var broken := if inFragmented && scratch != [] then [|scratch|] else [];
      if kind == FULL_TYPE then Logical(Some((data, offset)), s', dropped + broken)
      else if kind == FIRST_TYPE then NextLogical(file, s', data, true, offset, dropped + broken)
      else if kind == MIDDLE_TYPE then
        if inFragmented then NextLogical(file, s', scratch + data, true, start, dropped)
        else NextLogical(file, s', scratch, false, start, dropped + [|data|])
      else if kind == LAST_TYPE then
        if inFragmented then Logical(Some((scratch + data, start)), s', dropped)
        else NextLogical(file, s', scratch, false, start, dropped + [|data|])
      else
        NextLogical(file, s', [], false, start, dropped + [|data| + (if inFragmented then |scratch| else 0)])
  }

  // All records from a scan position on, and all reports made on the way.
  function ReadAll(file: Bytes, s: Scan, dropped: seq<nat>): (seq<Bytes>, seq<nat>)
    requires Within(file, s)
    decreases |file| - s.pos
  {
    var next := NextLogical(file, s, [], false, 0, dropped);
    if next.record.None? then ([], next.dropped)
    else
      var rest := ReadAll(file, next.scan, next.dropped);
      ([next.record.value.0] + rest.0, rest.1)
  }

  class Reader {
    const file: Bytes
    var buffer: Bytes
    var eof: bool
    var endOfBufferOffset: nat
    var lastRecordOffset: nat
    var dropped: seq<nat>     // the reporter's calls
    ghost var scan: Scan      // where the reader is

    ghost predicate Valid()
      reads this
    {
      && Within(file, scan)
      && buffer == file[scan.pos..Limit(file, scan)]
      && eof == AtEof(file, scan)
      && endOfBufferOffset == Limit(file, scan)
    }

    constructor (contents: Bytes)
      ensures Valid() && file == contents && scan == Scan(0, 0) && dropped == []
    {
      file, buffer, eof, endOfBufferOffset, lastRecordOffset, dropped := contents, [], false, 0, 0, [];
      scan := Scan(0, 0);
    }

    method ReportCorruption(bytes: nat)
      modifies `dropped
      ensures dropped == old(dropped) + [bytes]
    {
      dropped := dropped + [bytes];
    }

    // SequentialFile::Read: as many of the next n bytes as the file has.
    method ReadFile(n: nat) returns (bytes: Bytes)
      requires endOfBufferOffset <= |file|
      ensures bytes == file[endOfBufferOffset..if endOfBufferOffset + n < |file| then endOfBufferOffset + n else |file|]
    {
      var limit := if endOfBufferOffset + n < |file| then endOfBufferOffset + n else |file|;
      bytes := file[endOfBufferOffset..limit];
    }

    // buffer_.clear()
    method Clear()
      requires Valid()
      modifies `buffer, `scan
      ensures Valid() && scan == Scan(old(scan).end, Limit(file, old(scan)))
    {
      scan := Scan(scan.end, Limit(file, scan));
      buffer := [];
    }

    // The trailer of a block is skipped with the read of the next one.
    method ReadBlock()
      requires Valid() && !eof
      modifies `buffer, `eof, `endOfBufferOffset, `scan
      ensures Valid() && scan == Scan(old(scan).end + BLOCK_SIZE, old(scan).end)
    {
      scan := Scan(scan.end + BLOCK_SIZE, scan.end);
      buffer := ReadFile(BLOCK_SIZE);
      endOfBufferOffset := endOfBufferOffset + |buffer|;
      if |buffer| < BLOCK_SIZE {
        eof := true;
      }
    }

    method ReadPhysicalRecord() returns (result: Physical)
      requires Valid()
      modifies `buffer, `eof, `endOfBufferOffset, `dropped, `scan
      ensures Valid() && (result, scan) == NextPhysical(file, old(scan))
      ensures dropped == old(dropped) + (if result.Bad? then result.dropped else [])
    {
      hide Checksum, DecodeFixed32, Crc32c.Unmask, LengthOf;
      while |buffer| < HEADER_SIZE
        invariant Valid() && NextPhysical(file, scan) == NextPhysical(file, old(scan))
        invariant dropped == old(dropped)
        decreases |file| + BLOCK_SIZE - scan.end
      {
        if !eof {
          ReadBlock();
        } else {
          // a truncated header at the end of the file is not an error
          Clear();
          return Eof;
        }
      }
      result := ParseRecord();
    }

    method ParseRecord() returns (result: Physical)
      requires Valid() && |buffer| >= HEADER_SIZE
      modifies `buffer, `dropped, `scan
      ensures Valid() && (result, scan) == NextPhysical(file, old(scan))
      ensures dropped == old(dropped) + (if result.Bad? then result.dropped else [])
    {
      hide Checksum, DecodeFixed32, Crc32c.Unmask, LengthOf;
      var length := LengthOf(buffer[4], buffer[5]);
      var kind := buffer[6];
      var dropSize := |buffer|;
      if HEADER_SIZE + length > |buffer| {
        Clear();
        if !eof {
          ReportCorruption(dropSize);
          return Bad([dropSize]);
        }
        return Eof;
      }
      if kind == ZERO_TYPE && length == 0 {
        Clear();
        return Bad([]);
      }
      var data := buffer[HEADER_SIZE..HEADER_SIZE + length];
      assert data == file[scan.pos + HEADER_SIZE..scan.pos + HEADER_SIZE + length];
      assert buffer[..4] == file[scan.pos..scan.pos + 4];
      var expectedCrc := Crc32c.Unmask(DecodeFixed32(buffer[..4]));
      if Checksum(kind, data) != expectedCrc {
        Clear();
        ReportCorruption(dropSize);
        return Bad([dropSize]);
      }
      scan := Scan(scan.end, scan.pos + HEADER_SIZE + length);
      buffer := buffer[HEADER_SIZE + length..];
      return Part(kind, data);
    }

    method ReadRecord() returns (record: Option<Bytes>)
      requires Valid()
      modifies `buffer, `eof, `endOfBufferOffset, `dropped, `scan, `lastRecordOffset
      ensures Valid()
      ensures var next := NextLogical(file, old(scan), [], false, 0, old(dropped));
              && scan == next.scan && dropped == next.dropped
              && record == (if next.record.Some? then Some(next.record.value.0) else None)
              && lastRecordOffset == (if next.record.Some? then next.record.value.1 else old(lastRecordOffset))
    {
      hide NextPhysical;
      var scratch: Bytes := [];
      var inFragmentedRecord := false;
      var prospectiveRecordOffset: nat := 0;
      ghost var next := NextLogical(file, scan, [], false, 0, dropped);
      while true
        invariant Valid() && lastRecordOffset == old(lastRecordOffset)
        invariant NextLogical(file, scan, scratch, inFragmentedRecord, prospectiveRecordOffset, dropped) == next
        decreases |file| - scan.pos
      {
        assert dropped + [] == dropped;
        var fragment := ReadPhysicalRecord();
        assert dropped + [] == dropped;
        match fragment
        case Eof =>
          return None;
        case Bad(_) =>
          if inFragmentedRecord {
            ReportCorruption(|scratch|);
            inFragmentedRecord := false;
            scratch := [];
          }
        case Part(kind, data) =>
          var physicalRecordOffset := endOfBufferOffset - |buffer| - HEADER_SIZE - |data|;
          if kind == FULL_TYPE {
            if inFragmentedRecord && scratch != [] {
              ReportCorruption(|scratch|);
            }
            lastRecordOffset := physicalRecordOffset;
            return Some(data);
          } else if kind == FIRST_TYPE {
            if inFragmentedRecord && scratch != [] {
              ReportCorruption(|scratch|);
            }
            prospectiveRecordOffset := physicalRecordOffset;
            scratch := data;
            inFragmentedRecord := true;
          } else if kind == MIDDLE_TYPE {
            if !inFragmentedRecord {
              ReportCorruption(|data|);
            } else {
              scratch := scratch + data;
            }
          } else if kind == LAST_TYPE {
            if !inFragmentedRecord {
              ReportCorruption(|data|);
            } else {
              lastRecordOffset := prospectiveRecordOffset;
              return Some(scratch + data);
            }
          } else {
            ReportCorruption(|data| + (if inFragmentedRecord then |scratch| else 0));
            inFragmentedRecord := false;
            scratch := [];
          }
      }
    }
  }
}
