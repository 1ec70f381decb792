/** A log that a crash has cut and that is opened again to be written on (db/db_impl.cc, RecoverLogFile,
    with reuse_logs; db/log_writer.cc): exactly when a record appended to it is read back. */
module LogReuse {
  import opened Dbformat
  import opened Log
  import opened LogReader
  import opened LogRoundTrip
  import Crc32c

  // What reading gives after the first n bytes of a log have been written on.
  function Reused(records: seq<Bytes>, n: nat, more: Bytes): (seq<Bytes>, seq<nat>)
    requires n <= |WriteAll(records)|
  {
    ReadAll(WriteAll(records)[..n] + Emitted(n % BLOCK_SIZE, more, true), Scan(0, 0), [])
  }

  // The first d bytes from a block offset on of what is written for a record of this length end in its
  // trailer, or in a header so close to the end of its block that the next fragment cannot follow in the
  // block.  The rest of the block is then filled with zeros, and what there is of the header passes for
  // padding: its length and type are still zero, or the fragment was an empty first one.
  predicate EndsClean(offset: nat, length: nat, d: nat)
    requires offset <= BLOCK_SIZE
  {
    var j := d - |Trailer(offset)|;
    j <= 0 || (Start(offset) + j + HEADER_SIZE > BLOCK_SIZE && j <= if FragmentLength(offset, length) > 0 then 4 else 7)
  }

  // The log goes on after byte n as if it ended with its k-th record.
  predicate TakesMore(records: seq<Bytes>, n: nat, k: nat)
    requires k <= |records|
  {
    var p := |WriteAll(records[..k])|;
    n <= p || (k < |records| && EndsClean(p % BLOCK_SIZE, |records[k]|, n - p))
  }

  // ---------- What a reader cannot get over ----------

  // The next record is not the empty one, or something is reported first.
  ghost predicate Spoilt(next: Logical, dropped: seq<nat>) {
    next.record.None? || next.record.value.0 != [] || |next.dropped| > |dropped|
  }

  lemma {:induction false} ReportsStay(
      file: Bytes, s: Scan, scratch: Bytes, inFragmented: bool, start: nat, dropped: seq<nat>)
    requires Within(file, s)
    ensures |NextLogical(file, s, scratch, inFragmented, start, dropped).dropped| >= |dropped|
    decreases |file| - s.pos
  {
    hide NextPhysical;
    var (physical, s') := NextPhysical(file, s);
    match physical
    case Eof =>
    case Bad(bytes) =>
      if inFragmented {
        ReportsStay(file, s', [], false, start, dropped + bytes + [|scratch|]);
      } else {
        ReportsStay(file, s', scratch, false, start, dropped + bytes);
      }
    case Part(kind, data) =>
      var broken := if inFragmented && scratch != [] then [|scratch|] else [];
      if kind == FIRST_TYPE {
        ReportsStay(file, s', data, true, s'.pos - HEADER_SIZE - |data|, dropped + broken);
      } else if kind == MIDDLE_TYPE {
        if inFragmented {
          ReportsStay(file, s', scratch + data, true, start, dropped);
        } else {
          ReportsStay(file, s', scratch, false, start, dropped + [|data|]);
        }
      } else if kind == LAST_TYPE {
        if !inFragmented {
          ReportsStay(file, s', scratch, false, start, dropped + [|data|]);
        }
      } else if kind != FULL_TYPE {
        ReportsStay(file, s', [], false, start, dropped + [|data| + (if inFragmented then |scratch| else 0)]);
      }
  }

  lemma {:induction false} AllReportsStay(file: Bytes, s: Scan, dropped: seq<nat>)
    requires Within(file, s)
    ensures |ReadAll(file, s, dropped).1| >= |dropped|
    decreases |file| - s.pos
  {
    hide NextLogical;
    ReportsStay(file, s, [], false, 0, dropped);
    var next := NextLogical(file, s, [], false, 0, dropped);
    if next.record.Some? {
      AllReportsStay(file, next.scan, next.dropped);
    }
  }

  lemma SpoiltIsSeen(file: Bytes, s: Scan, dropped: seq<nat>)
    requires Within(file, s) && Spoilt(NextLogical(file, s, [], false, 0, dropped), dropped)
    ensures ReadAll(file, s, dropped) != ([[]], dropped)
  {
    hide NextLogical;
    var next := NextLogical(file, s, [], false, 0, dropped);
    if next.record.Some? {
      AllReportsStay(file, next.scan, next.dropped);
      assert ReadAll(file, s, dropped).0[0] == next.record.value.0;
    }
  }

  // A record of which some bytes have been gathered comes out non-empty, or is reported, or never comes.
  lemma {:induction false} ScratchSpoils(file: Bytes, s: Scan, scratch: Bytes, start: nat, dropped: seq<nat>)
    requires Within(file, s) && scratch != []
    ensures Spoilt(NextLogical(file, s, scratch, true, start, dropped), dropped)
    decreases |file| - s.pos
  {
    hide NextPhysical;
    var (physical, s') := NextPhysical(file, s);
    match physical
    case Eof =>
    case Bad(bytes) => ReportsStay(file, s', [], false, start, dropped + bytes + [|scratch|]);
    case Part(kind, data) =>
      if kind == FIRST_TYPE {
        ReportsStay(file, s', data, true, s'.pos - HEADER_SIZE - |data|, dropped + [|scratch|]);
      } else if kind == MIDDLE_TYPE {
        ScratchSpoils(file, s', scratch + data, start, dropped);
      } else if kind != FULL_TYPE && kind != LAST_TYPE {
        ReportsStay(file, s', [], false, start, dropped + [|data| + |scratch|]);
      }
  }

  // So does a fragment with data in it, and one of an unknown type.
  lemma PartSpoils(file: Bytes, s: Scan, scratch: Bytes, inFragmented: bool, start: nat, dropped: seq<nat>)
    requires Within(file, s) && NextPhysical(file, s).0.Part?
    requires var part := NextPhysical(file, s).0; part.data != [] || part.kind == ZERO_TYPE || part.kind > LAST_TYPE
    ensures Spoilt(NextLogical(file, s, scratch, inFragmented, start, dropped), dropped)
  {
    hide NextPhysical;
    var (physical, s') := NextPhysical(file, s);
    var (kind, data) := (physical.kind, physical.data);
    var broken := if inFragmented && scratch != [] then [|scratch|] else [];
    if kind == FIRST_TYPE {
      ScratchSpoils(file, s', data, s'.pos - HEADER_SIZE - |data|, dropped + broken);
    } else if kind == MIDDLE_TYPE {
      if inFragmented {
        ScratchSpoils(file, s', scratch + data, start, dropped);
      } else {
        ReportsStay(file, s', scratch, false, start, dropped + [|data|]);
      }
    } else if kind == LAST_TYPE {
      if !inFragmented {
        ReportsStay(file, s', scratch, false, start, dropped + [|data|]);
      }
    } else if kind != FULL_TYPE {
      ReportsStay(file, s', [], false, start, dropped + [|data| + (if inFragmented then |scratch| else 0)]);
    }
  }

  lemma BadSpoils(file: Bytes, s: Scan, scratch: Bytes, inFragmented: bool, start: nat, dropped: seq<nat>)
    requires Within(file, s) && NextPhysical(file, s).0.Bad?
    requires NextPhysical(file, s).0.dropped != [] || inFragmented || NextPhysical(file, s).1.pos == |file|
    ensures Spoilt(NextLogical(file, s, scratch, inFragmented, start, dropped), dropped)
  {
    hide NextPhysical;
    var (physical, s') := NextPhysical(file, s);
    var bytes := physical.dropped;
    if inFragmented {
      ReportsStay(file, s', [], false, start, dropped + bytes + [|scratch|]);
    } else if bytes != [] {
      ReportsStay(file, s', scratch, false, start, dropped + bytes);
    } else {
      NothingFollows(file, s');
      EofEndsRecord(file, s', scratch, false, start, dropped + bytes);
    }
  }

  lemma NothingFollows(file: Bytes, s: Scan)
    requires Within(file, s) && s.pos == |file|
    ensures NextPhysical(file, s).0 == Eof
  {
    hide Crc32c.Unmask, DecodeFixed32, Checksum, LengthOf;
    if !AtEof(file, s) {
      assert NextPhysical(file, Scan(s.end + BLOCK_SIZE, s.end)).0 == Eof;
    }
  }

  // Whatever the checksum says.
  lemma HeaderSpoils(file: Bytes, s: Scan, scratch: Bytes, inFragmented: bool, start: nat, dropped: seq<nat>)
    requires Within(file, s) && s.pos + HEADER_SIZE <= Limit(file, s)
    requires LengthOf(file[s.pos + 4], file[s.pos + 5]) == 0 ==>
               var kind := file[s.pos + 6];
               kind > LAST_TYPE || (kind == ZERO_TYPE && (inFragmented || Limit(file, s) == |file|))
    ensures Spoilt(NextLogical(file, s, scratch, inFragmented, start, dropped), dropped)
  {
    hide Crc32c.Unmask, DecodeFixed32, Checksum, LengthOf, NextLogical;
    var physical := NextPhysical(file, s).0;
    if physical.Eof? {
      EofEndsRecord(file, s, scratch, inFragmented, start, dropped);
    } else if physical.Bad? {
      BadSpoils(file, s, scratch, inFragmented, start, dropped);
    } else {
      PartSpoils(file, s, scratch, inFragmented, start, dropped);
    }
  }

  // ---------- The empty record ----------

  lemma ChecksumOfEmpty()
    ensures Crc32c.Mask(Checksum(FULL_TYPE, [])) == 0x43282b05
  {
    assert Octets([FULL_TYPE] + []) == [1];
    OneByte();
    assert ((0xa016d052 as bv32 >> 15) | (0xa016d052 as bv32 << 17)) + Crc32c.MASK_DELTA == 0x43282b05;
  }

  lemma OneByte()
    ensures Crc32c.Value([1]) == 0xa016d052
  {
    var l: bv32 := Crc32c.Xor(Crc32c.Xor(0, Crc32c.CRC32_XOR), Crc32c.Wide(1));
    assert l == 0xfffffffe;
    EightBits();
    assert [1 as bv8][1..] == [];
    assert Crc32c.Fold(Crc32c.Xor(0, Crc32c.CRC32_XOR), [1]) == Crc32c.Bits(l, 8);
  }

  lemma EightBits()
    ensures Crc32c.Bits(0xfffffffe, 8) == 0x5fe92fad
  {
    assert Crc32c.Bit(0xfffffffe) == 0x7fffffff && Crc32c.Bit(0x7fffffff) == 0xbd09c487;
    assert Crc32c.Bit(0xbd09c487) == 0xdc72d93b && Crc32c.Bit(0xdc72d93b) == 0xeccf57e5;
    assert Crc32c.Bit(0xeccf57e5) == 0xf491908a && Crc32c.Bit(0xf491908a) == 0x7a48c845;
    assert Crc32c.Bit(0x7a48c845) == 0xbfd25f5a && Crc32c.Bit(0xbfd25f5a) == 0x5fe92fad;
    hide Crc32c.Bit;
    assert Crc32c.Bits(0xbfd25f5a, 1) == Crc32c.Bits(0x5fe92fad, 0) == 0x5fe92fad;
    assert Crc32c.Bits(0xf491908a, 3) == Crc32c.Bits(0x7a48c845, 2) == Crc32c.Bits(0xbfd25f5a, 1);
    assert Crc32c.Bits(0xdc72d93b, 5) == Crc32c.Bits(0xeccf57e5, 4) == Crc32c.Bits(0xf491908a, 3);
    assert Crc32c.Bits(0x7fffffff, 7) == Crc32c.Bits(0xbd09c487, 6) == Crc32c.Bits(0xdc72d93b, 5);
  }

  // The seven bytes it takes.
  lemma EmptyRecord(offset: nat)
    requires offset < BLOCK_SIZE
    ensures Emitted(offset, [], true) == Trailer(offset) + [0x05, 0x2b, 0x28, 0x43, 0, 0, FULL_TYPE]
  {
    hide Checksum, Crc32c.Mask;
    ChecksumOfEmpty();
    var none: Bytes := [];
    assert none[..0] == none;
    assert EncodeFixed32(0x43282b05) == [0x05, 0x2b, 0x28, 0x43];
    EmittedUnfolds(offset, [], true);
  }

  // ---------- The torn fragment ----------

  // What is appended right after byte n.
  ghost predicate Continues(file: Bytes, n: nat, more: Bytes) {
    n <= |file| && file[n..] == more
  }

  lemma AppendedAt(file: Bytes, n: nat, more: Bytes, i: nat)
    requires Continues(file, n, more) && n <= i < n + |more|
    ensures |file| == n + |more| && file[i] == more[i - n]
  {
    assert file[i] == file[n..][i - n];
  }

  // The header of the torn fragment, as far as it is there, is the one that was written.
  lemma HeaderByte(file: Bytes, cut: Bytes, n: nat, p: nat, kind: byte, payload: Bytes, i: nat)
    requires Agree(file, cut, n) && |payload| <= 0xffff && Lies(file, p, Fragment(kind, payload))
    requires p + 4 <= i < n && i < p + HEADER_SIZE
    ensures cut[i] == [|payload| % 256, |payload| / 256, kind][i - p - 4]
  {
    hide Checksum, Crc32c.Mask, EncodeFixed32;
    AgreeAt(file, cut, n, i, i + 1);
    var b := Fragment(kind, payload);
    assert file[i] == file[p..p + |b|][i - p] == b[i - p];
  }

  // A fragment torn in its header, and the empty record right behind it.
  lemma TornHeaderSpoils(
      file: Bytes, cut: Bytes, n: nat, s: Scan, kind: byte, payload: Bytes, scratch: Bytes, inFragmented: bool,
      start: nat, dropped: seq<nat>)
    requires Agree(file, cut, n) && Within(cut, s) && |payload| <= 0xffff
    requires Lies(file, s.pos, Fragment(kind, payload))
    requires s.pos < n < s.pos + HEADER_SIZE && n + HEADER_SIZE <= s.end
    requires Continues(cut, n, [0x05, 0x2b, 0x28, 0x43, 0, 0, FULL_TYPE])
    ensures Spoilt(NextLogical(cut, s, scratch, inFragmented, start, dropped), dropped)
  {
    hide NextLogical, Agree, Lies, Fragment, Spoilt;
    AppendedAt(cut, n, [0x05, 0x2b, 0x28, 0x43, 0, 0, FULL_TYPE], s.pos + 6);
    assert cut[s.pos + 6] in {0x05, 0x2b, 0x28, 0x43, 0};
    HeaderSpoils(cut, s, scratch, inFragmented, start, dropped);
  }

  lemma ZerosAre(k: nat, more: Bytes)
    ensures forall i :: 0 <= i < k ==> (Zeros(k) + more)[i] == 0
  {
  }

  // A byte of the header is what was written or padding.
  lemma PaddedByte(
      file: Bytes, cut: Bytes, n: nat, p: nat, kind: byte, payload: Bytes, pad: Bytes, k: nat, i: nat)
    requires Agree(file, cut, n) && |payload| <= 0xffff && Lies(file, p, Fragment(kind, payload))
    requires p + 4 <= i < p + HEADER_SIZE && Continues(cut, n, pad) && i < n + k && k <= |pad|
    requires forall j :: 0 <= j < k ==> pad[j] == 0
    ensures i < |cut| && cut[i] == if i < n then [|payload| % 256, |payload| / 256, kind][i - p - 4] else 0
  {
    hide Agree, Lies, Fragment;
    if i < n {
      HeaderByte(file, cut, n, p, kind, payload, i);
    } else {
      AppendedAt(cut, n, pad, i);
    }
  }

  // Torn in its header at the end of a block, with the next record in the next block.
  lemma PaddedHeaderSpoils(
      file: Bytes, cut: Bytes, n: nat, s: Scan, kind: byte, payload: Bytes, scratch: Bytes, inFragmented: bool,
      start: nat, dropped: seq<nat>, more: Bytes)
    requires Agree(file, cut, n) && Within(cut, s) && |payload| <= 0xffff
    requires Lies(file, s.pos, Fragment(kind, payload))
    requires s.pos < n < s.pos + HEADER_SIZE && s.pos + HEADER_SIZE + |payload| <= s.end < n + HEADER_SIZE
    requires Continues(cut, n, Zeros(s.end - n) + more)
    requires inFragmented || (payload != [] && n - s.pos > 4)
    ensures Spoilt(NextLogical(cut, s, scratch, inFragmented, start, dropped), dropped)
  {
    hide NextLogical, Agree, Lies, Fragment, Spoilt, Continues, Zeros;
    var pad := Zeros(s.end - n) + more;
    ZerosAre(s.end - n, more);
    AppendedAt(cut, n, pad, s.pos + 6);
    PaddedByte(file, cut, n, s.pos, kind, payload, pad, s.end - n, s.pos + 4);
    PaddedByte(file, cut, n, s.pos, kind, payload, pad, s.end - n, s.pos + 5);
    HeaderSpoils(cut, s, scratch, inFragmented, start, dropped);
  }

  // Torn behind its header.
  lemma TornPayloadSpoils(
      file: Bytes, cut: Bytes, n: nat, s: Scan, kind: byte, payload: Bytes, scratch: Bytes, inFragmented: bool,
      start: nat, dropped: seq<nat>)
    requires Agree(file, cut, n) && Within(cut, s) && |payload| <= 0xffff
    requires Lies(file, s.pos, Fragment(kind, payload))
    requires s.pos + HEADER_SIZE <= n < s.pos + HEADER_SIZE + |payload| <= s.end
    ensures Spoilt(NextLogical(cut, s, scratch, inFragmented, start, dropped), dropped)
  {
    hide NextLogical, Lies, Fragment, Spoilt;
    HeaderByte(file, cut, n, s.pos, kind, payload, s.pos + 4);
    HeaderByte(file, cut, n, s.pos, kind, payload, s.pos + 5);
    HeaderSpoils(cut, s, scratch, inFragmented, start, dropped);
  }

  // Wherever it is torn, unless what is there passes for padding.
  lemma TornFragmentSpoils(
      file: Bytes, cut: Bytes, n: nat, s: Scan, kind: byte, payload: Bytes, scratch: Bytes, inFragmented: bool,
      start: nat, dropped: seq<nat>)
    requires Agree(file, cut, n) && Within(cut, s) && |payload| <= 0xffff
    requires Lies(file, s.pos, Fragment(kind, payload))
    requires s.end % BLOCK_SIZE == 0 && s.end <= s.pos + BLOCK_SIZE
    requires s.pos < n < s.pos + HEADER_SIZE + |payload| <= s.end
    requires Continues(cut, n, Emitted(n % BLOCK_SIZE, [], true))
    requires n + HEADER_SIZE <= s.end || inFragmented || (payload != [] && n - s.pos > 4)
    ensures Spoilt(NextLogical(cut, s, scratch, inFragmented, start, dropped), dropped)
  {
    hide NextLogical, Agree, Lies, Fragment, Spoilt, Emitted, Within;
    if s.pos + HEADER_SIZE <= n {
      TornPayloadSpoils(file, cut, n, s, kind, payload, scratch, inFragmented, start, dropped);
    } else {
      EmptyRecord(n % BLOCK_SIZE);
      OffsetInBlock(n, s.end);
      var empty: Bytes := [0x05, 0x2b, 0x28, 0x43, 0, 0, FULL_TYPE];
      if n + HEADER_SIZE <= s.end {
        assert [] + empty == empty;
        TornHeaderSpoils(file, cut, n, s, kind, payload, scratch, inFragmented, start, dropped);
      } else {
        PaddedHeaderSpoils(file, cut, n, s, kind, payload, scratch, inFragmented, start, dropped, empty);
      }
    }
  }

  lemma OffsetInBlock(n: nat, end: nat)
    requires end % BLOCK_SIZE == 0 && n < end <= n + BLOCK_SIZE
    ensures n % BLOCK_SIZE == n + BLOCK_SIZE - end
  {
  }

  // ---------- The torn record ----------

  lemma SamePhysical(
      file: Bytes, s: Scan, s': Scan, scratch: Bytes, inFragmented: bool, start: nat, dropped: seq<nat>)
    requires Within(file, s) && Within(file, s') && NextPhysical(file, s) == NextPhysical(file, s')
    ensures NextLogical(file, s, scratch, inFragmented, start, dropped) ==
            NextLogical(file, s', scratch, inFragmented, start, dropped)
  {
    hide NextPhysical;
  }

  // The scan position of the fragment itself, past the trailer.
  function AtFragment(s: Scan, offset: nat): Scan {
    if BLOCK_SIZE - offset < HEADER_SIZE then Scan(s.end + BLOCK_SIZE, s.end) else s
  }

  lemma FragmentIsNext(
      cut: Bytes, s: Scan, offset: nat, scratch: Bytes, inFragmented: bool, start: nat, dropped: seq<nat>)
    requires Within(cut, s) && At(s, offset) && s.pos + |Trailer(offset)| < |cut|
    ensures var s' := AtFragment(s, offset);
            && Within(cut, s') && s'.pos == s.pos + |Trailer(offset)| && s'.end == s'.pos + BLOCK_SIZE - Start(offset)
            && s'.end % BLOCK_SIZE == 0 && NextPhysical(cut, s) == NextPhysical(cut, s')
            && NextLogical(cut, s, scratch, inFragmented, start, dropped) ==
               NextLogical(cut, s', scratch, inFragmented, start, dropped)
  {
    hide NextPhysical, NextLogical;
    if BLOCK_SIZE - offset < HEADER_SIZE {
      TrailerIsSkipped(cut, s);
    }
    SamePhysical(cut, s, AtFragment(s, offset), scratch, inFragmented, start, dropped);
  }

  // What is left of a record from a fragment on, when nothing of the record has been gathered so far.
  lemma TornPieceSpoils(
      file: Bytes, cut: Bytes, n: nat, s: Scan, offset: nat, data: Bytes, begin: bool, start: nat, dropped: seq<nat>)
    requires Agree(file, cut, n) && Within(cut, s) && At(s, offset) && Lies(file, s.pos, Piece(offset, data, begin))
    requires s.pos + |Trailer(offset)| < n < s.pos + |Piece(offset, data, begin)|
    requires Continues(cut, n, Emitted(n % BLOCK_SIZE, [], true))
    requires !begin || !EndsClean(offset, |data|, n - s.pos)
    ensures Spoilt(NextLogical(cut, s, [], !begin, start, dropped), dropped)
  {
    hide NextLogical, NextPhysical, Agree, Fragment, Spoilt, Emitted;
    AgreeIsLong(file, cut, n);
    var m := FragmentLength(offset, |data|);
    var kind := FragmentType(begin, m == |data|);
    LiesSplit(file, s.pos, Trailer(offset), Fragment(kind, data[..m]));
    FragmentIsNext(cut, s, offset, [], !begin, start, dropped);
    TornFragmentSpoils(file, cut, n, AtFragment(s, offset), kind, data[..m], [], !begin, start, dropped);
  }

  lemma TornRecordSpoils(file: Bytes, cut: Bytes, n: nat, s: Scan, offset: nat, data: Bytes, dropped: seq<nat>)
    requires Agree(file, cut, n) && Within(cut, s) && At(s, offset) && Lies(file, s.pos, Emitted(offset, data, true))
    requires s.pos <= n < s.pos + |Emitted(offset, data, true)| && !EndsClean(offset, |data|, n - s.pos)
    requires Continues(cut, n, Emitted(n % BLOCK_SIZE, [], true))
    ensures Spoilt(NextLogical(cut, s, [], false, 0, dropped), dropped)
  {
    hide NextLogical, NextPhysical, Agree, Piece, Spoilt, Emitted, Trailer, Lies, Continues, FragmentType;
    var m := FragmentLength(offset, |data|);
    var piece := Piece(offset, data, true);
    EmittedUnfolds(offset, data, true);
    var rest := if m == |data| then [] else Emitted(Start(offset) + HEADER_SIZE + m, data[m..], false);
    LiesSplit(file, s.pos, piece, rest);
    PieceIsRead(file, cut, n, s, offset, data, true);
    if n < s.pos + |piece| {
      TornPieceSpoils(file, cut, n, s, offset, data, true, 0, dropped);
    } else {
      PartIsGathered(cut, s, [], true, m == |data|, data[..m], 0, dropped);
      var s' := NextPhysical(cut, s).1;
      if m > 0 {
        ScratchSpoils(cut, s', [] + data[..m], s'.pos - HEADER_SIZE - m, dropped);
      } else {
        assert data[m..] == data;
        LaterFragmentSpoils(file, cut, n, s', data, s'.pos - HEADER_SIZE, dropped);
      }
    }
  }

  // The second fragment, after an empty first one.
  lemma LaterFragmentSpoils(file: Bytes, cut: Bytes, n: nat, s: Scan, data: Bytes, start: nat, dropped: seq<nat>)
    requires Agree(file, cut, n) && Within(cut, s) && At(s, BLOCK_SIZE)
    requires data != [] && Lies(file, s.pos, Emitted(BLOCK_SIZE, data, false))
    requires s.pos < n && Continues(cut, n, Emitted(n % BLOCK_SIZE, [], true))
    ensures Spoilt(NextLogical(cut, s, [], true, start, dropped), dropped)
  {
    hide NextLogical, NextPhysical, Agree, Piece, Spoilt, Emitted, Lies, Continues, FragmentType;
    var m := FragmentLength(BLOCK_SIZE, |data|);
    var piece := Piece(BLOCK_SIZE, data, false);
    EmittedUnfolds(BLOCK_SIZE, data, false);
    var rest := if m == |data| then [] else Emitted(Start(BLOCK_SIZE) + HEADER_SIZE + m, data[m..], false);
    LiesSplit(file, s.pos, piece, rest);
    PieceIsRead(file, cut, n, s, BLOCK_SIZE, data, false);
    if n < s.pos + |piece| {
      TornPieceSpoils(file, cut, n, s, BLOCK_SIZE, data, false, start, dropped);
    } else {
      PartSpoils(cut, s, [], true, start, dropped);
    }
  }

  // ---------- What ends clean ----------

  // The next record starts a new block, after zeros.
  lemma ZerosComeFirst(n: nat, end: nat, more: Bytes)
    requires end % BLOCK_SIZE == 0 && n <= end < n + HEADER_SIZE
    ensures Emitted(n % BLOCK_SIZE, more, true) == Zeros(end - n) + Emitted(BLOCK_SIZE, more, true)
  {
    hide Fragment, Emitted;
    BlockEndIsBlockStart(more, true);
    if n == end {
      assert Zeros(0) == [] && [] + Emitted(0, more, true) == Emitted(0, more, true);
    } else {
      OffsetInBlock(n, end);
      var offset := n % BLOCK_SIZE;
      EmittedUnfolds(offset, more, true);
      EmittedUnfolds(BLOCK_SIZE, more, true);
      var m := FragmentLength(offset, |more|);
      var piece := Fragment(FragmentType(true, m == |more|), more[..m]);
      var rest := if m == |more| then [] else Emitted(HEADER_SIZE + m, more[m..], false);
      assert [] + piece == piece;
      AddAssociates(Trailer(offset), piece, rest);
    }
  }

  // A record at the start of a block and at the end of the file is read, whether or not an empty first
  // fragment came before it.
  lemma LastRecordIsRead(file: Bytes, s: Scan, more: Bytes, inFragmented: bool, start: nat)
    requires Within(file, s) && At(s, BLOCK_SIZE) && s.pos <= |file| && file[s.pos..] == Emitted(BLOCK_SIZE, more, true)
    ensures var next := NextLogical(file, s, [], inFragmented, start, []);
            && Within(file, next.scan) && next.record.Some? && next.record.value.0 == more && next.dropped == []
            && ReadAll(file, next.scan, []) == ([], [])
  {
    hide NextLogical, NextPhysical, ReadAll, Emitted, Piece;
    var b := Emitted(BLOCK_SIZE, more, true);
    assert file[s.pos..s.pos + |b|] == file[s.pos..] == b;
    assert Agree(file, file, |file|);
    RecordIsRead(file, file, |file|, s, BLOCK_SIZE, [], more, true, start, []);
    assert [] + more == more;
    var next := NextLogical(file, s, [], false, start, []);
    NothingLeft(file, next.scan, []);
    if inFragmented {
      EmittedUnfolds(BLOCK_SIZE, more, true);
      var m := FragmentLength(BLOCK_SIZE, |more|);
      var rest := if m == |more| then [] else Emitted(Start(BLOCK_SIZE) + HEADER_SIZE + m, more[m..], false);
      LiesSplit(file, s.pos, Piece(BLOCK_SIZE, more, true), rest);
      PieceIsRead(file, file, |file|, s, BLOCK_SIZE, more, true);
      NothingGathered(file, s, start);
    }
  }

  lemma NothingGathered(file: Bytes, s: Scan, start: nat)
    requires Within(file, s) && NextPhysical(file, s).0.Part? && NextPhysical(file, s).0.kind in {FULL_TYPE, FIRST_TYPE}
    ensures NextLogical(file, s, [], true, start, []) == NextLogical(file, s, [], false, start, [])
  {
    hide NextPhysical;
  }

  // A header that passes for padding.
  lemma PaddingIsSkipped(file: Bytes, cut: Bytes, n: nat, s: Scan, kind: byte, payload: Bytes, more: Bytes)
    requires Agree(file, cut, n) && Within(cut, s) && |payload| <= 0xffff
    requires Lies(file, s.pos, Fragment(kind, payload))
    requires s.pos < n < s.pos + HEADER_SIZE <= s.end < n + HEADER_SIZE && n - s.pos <= (if payload == [] then 6 else 4)
    requires Continues(cut, n, Zeros(s.end - n) + more)
    ensures NextPhysical(cut, s) == (Bad([]), Scan(s.end, s.end))
  {
    hide Agree, Lies, Fragment, NextPhysical;
    var pad := Zeros(s.end - n) + more;
    ZerosAre(s.end - n, more);
    AppendedAt(cut, n, pad, s.pos + 6);
    PaddedByte(file, cut, n, s.pos, kind, payload, pad, s.end - n, s.pos + 4);
    PaddedByte(file, cut, n, s.pos, kind, payload, pad, s.end - n, s.pos + 5);
    ZeroHeader(cut, s);
  }

  lemma ZeroHeader(file: Bytes, s: Scan)
    requires Within(file, s) && s.pos + HEADER_SIZE <= s.end <= |file|
    requires file[s.pos + 4] == 0 && file[s.pos + 5] == 0 && file[s.pos + 6] == ZERO_TYPE
    ensures NextPhysical(file, s) == (Bad([]), Scan(s.end, s.end))
  {
    hide Crc32c.Unmask, DecodeFixed32, Checksum;
  }

  // The position after the first k records of a log, in any file that has them.
  lemma {:induction false} FirstRecordsRead(records: seq<Bytes>, cut: Bytes, n: nat, k: nat, i: nat, s: Scan)
    returns (s': Scan)
    requires Agree(WriteAll(records), cut, n) && i <= k <= |records| && |WriteAll(records[..k])| <= n
    requires Within(cut, s) && s.pos == |WriteAll(records[..i])|
    requires s.end % BLOCK_SIZE == 0 && s.pos <= s.end < s.pos + BLOCK_SIZE
    ensures Within(cut, s') && s'.pos == |WriteAll(records[..k])|
    ensures s'.end % BLOCK_SIZE == 0 && s'.pos <= s'.end < s'.pos + BLOCK_SIZE
    ensures ReadAll(cut, s, []) == (records[i..k] + ReadAll(cut, s', []).0, ReadAll(cut, s', []).1)
    decreases k - i
  {
    hide Emitted, NextLogical, WriteAll, Agree, TearsIn;
    if i == k {
      s' := s;
      assert records[i..k] == [] && [] + ReadAll(cut, s, []).0 == ReadAll(cut, s, []).0;
    } else {
      RecordLies(records, i);
      var offset := ReaderOffset(s);
      BlockEndIsBlockStart(records[i], true);
      RecordsGrow(records[..k], i + 1, k);
      assert records[..k][..i + 1] == records[..i + 1] && records[..k][..k] == records[..k];
      RecordIsRead(WriteAll(records), cut, n, s, offset, [], records[i], true, 0, []);
      var next := NextLogical(cut, s, [], false, 0, []);
      assert [] + records[i] == records[i];
      s' := FirstRecordsRead(records, cut, n, k, i + 1, next.scan);
      OneMoreRead(records, i, k, ReadAll(cut, s', []).0);
    }
  }

  lemma OneMoreRead(records: seq<Bytes>, i: nat, k: nat, rest: seq<Bytes>)
    requires i < k <= |records|
    ensures [records[i]] + (records[i + 1..k] + rest) == records[i..k] + rest
  {
  }

  lemma AnyOffset(s: Scan, offset: nat, length: nat, d: nat)
    requires At(s, offset) && (offset == s.pos % BLOCK_SIZE || (offset == BLOCK_SIZE && s.pos % BLOCK_SIZE == 0))
    ensures EndsClean(offset, length, d) == EndsClean(s.pos % BLOCK_SIZE, length, d)
  {
    assert Trailer(BLOCK_SIZE) == Trailer(0);
  }

  // ---------- Exactly when a cut log can be written on ----------

  // After any cut of any log: every record appended is read back, behind those that are whole, and
  // nothing is reported, if and only if the cut is at the end of a record, in its trailer, or in a header
  // that passes for padding.
  lemma ReusedLogReadsBackIff(records: seq<Bytes>, n: nat, k: nat)
    requires n <= |WriteAll(records)| && WholeRecords(records, n, k)
    ensures (forall more :: Reused(records, n, more) == (records[..k] + [more], [])) <==> TakesMore(records, n, k)
  {
    hide Reused, TakesMore, WriteAll;
    if TakesMore(records, n, k) {
      forall more ensures Reused(records, n, more) == (records[..k] + [more], []) {
        CleanEndTakesMore(records, n, k, more);
      }
    } else {
      UncleanEndDoesNot(records, n, k);
    }
  }

  lemma UncleanEndDoesNot(records: seq<Bytes>, n: nat, k: nat)
    requires n <= |WriteAll(records)| && WholeRecords(records, n, k) && !TakesMore(records, n, k)
    ensures Reused(records, n, []) != (records[..k] + [[]], [])
  {
    hide Emitted, ReadAll, NextLogical, Spoilt, EndsClean, WriteAll;
    var file, more := WriteAll(records), Emitted(n % BLOCK_SIZE, [], true);
    var cut := file[..n] + more;
    assert records[..|records|] == records && records[..0] == [] && records[0..k] == records[..k];
    assert Agree(file, cut, n) && Continues(cut, n, more);
    NoRecords();
    var s := FirstRecordsRead(records, cut, n, k, 0, Scan(0, 0));
    RecordLies(records, k);
    var offset := ReaderOffset(s);
    BlockEndIsBlockStart(records[k], true);
    AnyOffset(s, offset, |records[k]|, n - s.pos);
    TornRecordSpoils(file, cut, n, s, offset, records[k], []);
    SpoiltIsSeen(cut, s, []);
    LastIsOther(records[..k], ReadAll(cut, s, []).0);
  }

  lemma NoRecords()
    ensures WriteAll([]) == []
  {
  }

  lemma LastIsOther(a: seq<Bytes>, b: seq<Bytes>)
    ensures a + b == a + [[]] ==> b == [[]]
  {
    if a + b == a + [[]] {
      assert b == (a + b)[|a|..] == (a + [[]])[|a|..];
    }
  }

  lemma CleanEndTakesMore(records: seq<Bytes>, n: nat, k: nat, more: Bytes)
    requires n <= |WriteAll(records)| && WholeRecords(records, n, k) && TakesMore(records, n, k)
    ensures Reused(records, n, more) == (records[..k] + [more], [])
  {
    hide Emitted, ReadAll, WriteAll, Trailer;
    var p := |WriteAll(records[..k])|;
    if n == p {
      EarlierRecordsFirst(records, k);
      ReopenedLogReadsBack(records[..k], more);
    } else if n <= p + |Trailer(p % BLOCK_SIZE)| {
      CutInTrailerIsHarmless(records, n, k, more);
    } else {
      PaddingTakesMore(records, n, k, more);
    }
  }

  lemma PaddingTakesMore(records: seq<Bytes>, n: nat, k: nat, more: Bytes)
    requires n <= |WriteAll(records)| && WholeRecords(records, n, k) && k < |records|
    requires var p := |WriteAll(records[..k])|;
             p + |Trailer(p % BLOCK_SIZE)| < n && EndsClean(p % BLOCK_SIZE, |records[k]|, n - p)
    ensures Reused(records, n, more) == (records[..k] + [more], [])
  {
    hide Emitted, ReadAll, NextLogical, EndsClean, WriteAll;
    var file, appended := WriteAll(records), Emitted(n % BLOCK_SIZE, more, true);
    var cut := file[..n] + appended;
    assert records[..0] == [] && records[0..k] == records[..k];
    assert Agree(file, cut, n) && Continues(cut, n, appended);
    NoRecords();
    var s := FirstRecordsRead(records, cut, n, k, 0, Scan(0, 0));
    RecordLies(records, k);
    var offset := ReaderOffset(s);
    BlockEndIsBlockStart(records[k], true);
    AnyOffset(s, offset, |records[k]|, n - s.pos);
    assert Trailer(BLOCK_SIZE) == Trailer(0);
    PaddedRecordIsSkipped(file, cut, n, s, offset, records[k], more);
  }

  lemma PaddedRecordIsSkipped(
      file: Bytes, cut: Bytes, n: nat, s: Scan, offset: nat, data: Bytes, more: Bytes)
    requires Agree(file, cut, n) && Within(cut, s) && At(s, offset) && Lies(file, s.pos, Emitted(offset, data, true))
    requires s.pos + |Trailer(offset)| < n < s.pos + |Emitted(offset, data, true)|
    requires EndsClean(offset, |data|, n - s.pos) && Continues(cut, n, Emitted(n % BLOCK_SIZE, more, true))
    ensures ReadAll(cut, s, []) == ([more], [])
  {
    hide NextLogical, NextPhysical, Agree, Fragment, Emitted, Lies, ReadAll;
    AgreeIsLong(file, cut, n);
    var m := FragmentLength(offset, |data|);
    var kind := FragmentType(true, m == |data|);
    EmittedUnfolds(offset, data, true);
    var rest := if m == |data| then [] else Emitted(Start(offset) + HEADER_SIZE + m, data[m..], false);
    LiesSplit(file, s.pos, Piece(offset, data, true), rest);
    FragmentIsNext(cut, s, offset, [], false, 0, []);
    var at := AtFragment(s, offset);
    ZerosComeFirst(n, at.end, more);
    NextBlock(cut, n, at.end, more);
    if n < at.pos + HEADER_SIZE {
      LiesSplit(file, s.pos, Trailer(offset), Fragment(kind, data[..m]));
      PaddingIsSkipped(file, cut, n, at, kind, data[..m], Emitted(BLOCK_SIZE, more, true));
      NothingReported(cut, at);
      LastRecordIsRead(cut, Scan(at.end, at.end), more, false, 0);
    } else {
      EmptyFirstIsSkipped(file, cut, n, s, offset, data, more);
    }
    FirstOfAll(cut, s);
  }

  // All that is there of the record is a first fragment of nothing.
  lemma EmptyFirstIsSkipped(file: Bytes, cut: Bytes, n: nat, s: Scan, offset: nat, data: Bytes, more: Bytes)
    requires Agree(file, cut, n) && Within(cut, s) && At(s, offset) && Lies(file, s.pos, Piece(offset, data, true))
    requires FragmentLength(offset, |data|) == 0 < |data| && n == s.pos + |Trailer(offset)| + HEADER_SIZE
    requires n <= |cut| && n % BLOCK_SIZE == 0 && cut[n..] == Emitted(BLOCK_SIZE, more, true)
    ensures var next := NextLogical(cut, s, [], false, 0, []);
            && Within(cut, next.scan) && next.record.Some? && next.record.value.0 == more && next.dropped == []
            && ReadAll(cut, next.scan, []) == ([], [])
  {
    hide NextLogical, NextPhysical, Agree, Fragment, Emitted, Lies, ReadAll, Piece;
    PieceIsRead(file, cut, n, s, offset, data, true);
    PartIsGathered(cut, s, [], true, false, data[..0], 0, []);
    var s' := NextPhysical(cut, s).1;
    assert [] + data[..0] == [];
    LastRecordIsRead(cut, s', more, true, s'.pos - HEADER_SIZE);
  }

  lemma NextBlock(cut: Bytes, n: nat, end: nat, more: Bytes)
    requires n <= end && Continues(cut, n, Zeros(end - n) + Emitted(BLOCK_SIZE, more, true))
    ensures end <= |cut| && cut[end..] == Emitted(BLOCK_SIZE, more, true)
  {
    hide Emitted;
    assert cut[end..] == cut[n..][end - n..];
  }

  lemma NothingReported(file: Bytes, s: Scan)
    requires Within(file, s) && NextPhysical(file, s).0 == Bad([])
    ensures NextLogical(file, s, [], false, 0, []) == NextLogical(file, NextPhysical(file, s).1, [], false, 0, [])
  {
    hide NextPhysical;
    var none: seq<nat> := [];
    assert none + none == none;
  }

  lemma FirstOfAll(file: Bytes, s: Scan)
    requires Within(file, s)
    ensures var next := NextLogical(file, s, [], false, 0, []);
            next.record.Some? && ReadAll(file, next.scan, next.dropped) == ([], []) ==>
              ReadAll(file, s, []) == ([next.record.value.0], [])
  {
    hide NextLogical;
    var next := NextLogical(file, s, [], false, 0, []);
    if next.record.Some? {
      assert [next.record.value.0] + [] == [next.record.value.0];
    }
  }

  // ---------- Two cuts ----------

  // A record of twenty bytes is cut after its header and one byte more.  An empty record appended there
  // is lost, and nothing is reported.
  lemma AppendedRecordIsLost()
    ensures |WriteAll([Zeros(20)])| == 27 && Reused([Zeros(20)], 8, []) == ([], [])
    ensures !TakesMore([Zeros(20)], 8, 0)
  {
    hide ReadAll;
    var records := [Zeros(20)];
    OneRecord(Zeros(20));
    EmptyRecord(8);
    assert records[..0] == [] && records[..1] == records;
    TornLogHidesAppended(records, 8, 0, []);
  }

  // A record fills the first block but for seven bytes, which the header of the next one takes.  Cut
  // inside that header, the log can be written on.
  lemma HeaderAtBlockEndIsHarmless(r: Bytes, j: nat, more: Bytes)
    requires 0 < j < HEADER_SIZE
    ensures var filling := Zeros(BLOCK_SIZE - 2 * HEADER_SIZE);
            var n := BLOCK_SIZE - HEADER_SIZE + j;
            n <= |WriteAll([filling, r])| && Reused([filling, r], n, more) == ([filling, more], [])
  {
    hide ReadAll, Emitted, Zeros;
    var filling := Zeros(BLOCK_SIZE - 2 * HEADER_SIZE);
    var records, n := [filling, r], BLOCK_SIZE - HEADER_SIZE + j;
    OneRecord(filling);
    assert records[..1] == [filling] && records[..2] == records;
    var at := BLOCK_SIZE - HEADER_SIZE;
    EmittedUnfolds(at, r, true);
    assert |Piece(at, r, true)| == HEADER_SIZE;
    assert WriteAll(records) == WriteAll([filling]) + Emitted(at, r, true);
    CleanEndTakesMore(records, n, 1, more);
    assert [filling] + [more] == [filling, more];
  }

  lemma OneRecord(data: Bytes)
    requires |data| <= BLOCK_SIZE - HEADER_SIZE
    ensures |WriteAll([data])| == HEADER_SIZE + |data|
  {
    hide Emitted, Fragment;
    assert [data][..0] == [];
    EmittedUnfolds(0, data, true);
  }
}
