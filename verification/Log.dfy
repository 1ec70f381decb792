/** The log file format (db/log_format.h, db/log_writer.cc, db/log_reader.cc): records cut into
    checksummed fragments that never cross a 32 KiB block boundary. */
module Log {
  import opened Dbformat
  import Crc32c

  const BLOCK_SIZE: nat := 32768
  const HEADER_SIZE: nat := 7

  const ZERO_TYPE: byte := 0
  const FULL_TYPE: byte := 1
  const FIRST_TYPE: byte := 2
  const MIDDLE_TYPE: byte := 3
  const LAST_TYPE: byte := 4

  // ---------- Checksums and headers ----------

  function Octets(data: Bytes): (r: seq<bv8>)
    ensures |r| == |data|
  {
    seq(|data|, i requires 0 <= i < |data| => data[i] as bv8)
  }

  lemma OctetsConcat(a: Bytes, b: Bytes)
    ensures Octets(a + b) == Octets(a) + Octets(b)
  {
  }

  function ToByte(b: bv8): byte { b as int }

  lemma OctetUndoesToByte(b: bv8)
    ensures ToByte(b) as bv8 == b
  {
  }

  function EncodeFixed32(v: bv32): (r: Bytes)
    ensures |r| == 4
  {
    [ToByte(Crc32c.Low(v)), ToByte(Crc32c.Low(v >> 8)), ToByte(Crc32c.Low(v >> 16)), ToByte(Crc32c.Low(v >> 24))]
  }

  function DecodeFixed32(b: Bytes): bv32
    requires |b| == 4
  {
    Crc32c.Word(b[0] as bv8, b[1] as bv8, b[2] as bv8, b[3] as bv8)
  }

  lemma DecodeUndoesEncode(v: bv32)
    ensures DecodeFixed32(EncodeFixed32(v)) == v
  {
    hide Crc32c.Low, Crc32c.Word, ToByte;
    OctetUndoesToByte(Crc32c.Low(v));
    OctetUndoesToByte(Crc32c.Low(v >> 8));
    OctetUndoesToByte(Crc32c.Low(v >> 16));
    OctetUndoesToByte(Crc32c.Low(v >> 24));
    Crc32c.WordOfBytes(v);
  }

  // The checksum of a fragment covers its type and its data.
  function Checksum(kind: byte, payload: Bytes): bv32 { Crc32c.Value(Octets([kind] + payload)) }

  // A fragment as it is stored.
  function Fragment(kind: byte, payload: Bytes): (r: Bytes)
    requires |payload| <= 0xffff
    ensures |r| == HEADER_SIZE + |payload|
  {
    EncodeFixed32(Crc32c.Mask(Checksum(kind, payload))) + [|payload| % 256, |payload| / 256, kind] + payload
  }

  // ---------- What the writer writes ----------

  function Zeros(n: nat): (r: Bytes)
    ensures |r| == n
  {
    seq(n, _ => 0)
  }

  // The block trailer filled before a fragment at this block offset.
  function Trailer(offset: nat): (r: Bytes)
    requires offset <= BLOCK_SIZE
    ensures |r| == if BLOCK_SIZE - offset < HEADER_SIZE then BLOCK_SIZE - offset else 0
  {
    if BLOCK_SIZE - offset < HEADER_SIZE then Zeros(BLOCK_SIZE - offset) else []
  }

  // The block offset of the fragment itself.
  function Start(offset: nat): (r: nat)
    requires offset <= BLOCK_SIZE
    ensures r + HEADER_SIZE <= BLOCK_SIZE
  {
    if BLOCK_SIZE - offset < HEADER_SIZE then 0 else offset
  }

  function FragmentLength(offset: nat, left: nat): (n: nat)
    requires offset <= BLOCK_SIZE
    ensures n <= left && n <= 0xffff && Start(offset) + HEADER_SIZE + n <= BLOCK_SIZE
  {
    var avail := BLOCK_SIZE - Start(offset) - HEADER_SIZE;
    if left < avail then left else avail
  }

  function FragmentType(begin: bool, end: bool): (t: byte)
    ensures t != ZERO_TYPE
  {
    if begin && end then FULL_TYPE else if begin then FIRST_TYPE else if end then LAST_TYPE else MIDDLE_TYPE
  }

  // One fragment of what is left of a record, after the trailer if it starts a new block.
  function Piece(offset: nat, data: Bytes, begin: bool): Bytes
    requires offset <= BLOCK_SIZE
  {
    var n := FragmentLength(offset, |data|);
    Trailer(offset) + Fragment(FragmentType(begin, n == |data|), data[..n])
  }

  // The bytes of a record, or of what is left of it, from a block offset on.
  function Emitted(offset: nat, data: Bytes, begin: bool): (r: Bytes)
    requires offset <= BLOCK_SIZE
    decreases |data|, BLOCK_SIZE - offset
  {
    var n := FragmentLength(offset, |data|);
    Piece(offset, data, begin) +
    (if n == |data| then [] else Emitted(Start(offset) + HEADER_SIZE + n, data[n..], false))
  }

  function WriteAll(records: seq<Bytes>): Bytes {
    if records == [] then []
    else
      var before := WriteAll(records[..|records| - 1]);
      before + Emitted(|before| % BLOCK_SIZE, records[|records| - 1], true)
  }

  lemma EmittedUnfolds(offset: nat, data: Bytes, begin: bool)
    requires offset <= BLOCK_SIZE
    ensures var n := FragmentLength(offset, |data|);
            Emitted(offset, data, begin) ==
            Piece(offset, data, begin) +
                (if n == |data| then [] else Emitted(Start(offset) + HEADER_SIZE + n, data[n..], false))
  {
  }

  // The end of a block is the start of the next.
  lemma BlockEndIsBlockStart(data: Bytes, begin: bool)
    ensures Emitted(BLOCK_SIZE, data, begin) == Emitted(0, data, begin)
  {
    hide Emitted, Fragment;
    EmittedUnfolds(BLOCK_SIZE, data, begin);
    EmittedUnfolds(0, data, begin);
    assert Trailer(BLOCK_SIZE) == Trailer(0);
  }

  lemma FragmentsProgress(offset: nat, left: nat)
    requires offset <= BLOCK_SIZE && FragmentLength(offset, left) < left
    ensures FragmentLength(offset, left) > 0 || Start(offset) + HEADER_SIZE > offset
  {
  }

  lemma OffsetInBlock(length: nat, blocks: nat, offset: nat)
    requires length == blocks * BLOCK_SIZE + offset && offset <= BLOCK_SIZE
    ensures length % BLOCK_SIZE == if offset == BLOCK_SIZE then 0 else offset
  {
  }

  class Writer {
    var dest: Bytes
    var blockOffset: nat
    var typeCrc: seq<bv32>
    ghost var blocks: nat

    ghost predicate Valid()
      reads this
    {
      && blockOffset <= BLOCK_SIZE
      && |dest| == blocks * BLOCK_SIZE + blockOffset
      && |typeCrc| == 5
      && forall t: byte :: t <= LAST_TYPE ==> typeCrc[t] == Crc32c.Value(Octets([t]))
    }

    // A writer that goes on with a file that has some content already.
    constructor (existing: Bytes)
      ensures Valid() && dest == existing
    {
      dest := existing;
      blockOffset := |existing| % BLOCK_SIZE;
      blocks := |existing| / BLOCK_SIZE;
      typeCrc := seq(5, t requires 0 <= t < 5 => Crc32c.Value(Octets([t])));
    }

    method AddRecord(slice: Bytes)
      requires Valid()
      modifies this
      ensures Valid() && dest == old(dest) + Emitted(old(|dest|) % BLOCK_SIZE, slice, true)
    {
      hide Emitted, Piece, FragmentLength, Start, Crc32c.Value, Octets;
      var left := slice;
      var begin := true;
      ghost var all := dest + Emitted(blockOffset, slice, true);
      BlockEndIsBlockStart(slice, true);
      OffsetInBlock(|dest|, blocks, blockOffset);
      var done := false;
      while !done
        invariant Valid()
        invariant !done ==> all == dest + Emitted(blockOffset, left, begin)
        invariant done ==> all == dest
        decreases !done, |left|, BLOCK_SIZE - blockOffset
      {
        EmittedUnfolds(blockOffset, left, begin);
        ghost var n := FragmentLength(blockOffset, |left|);
        if n < |left| {
          FragmentsProgress(blockOffset, |left|);
          AddAssociates(dest, Piece(blockOffset, left, begin),
              Emitted(Start(blockOffset) + HEADER_SIZE + n, left[n..], false));
        }
        var fragmentLength := EmitNext(left, begin);
        left := left[fragmentLength..];
        begin := false;
        done := |left| == 0;
      }
    }

    // The body of the loop: one fragment of what is left.
    method EmitNext(left: Bytes, begin: bool) returns (fragmentLength: nat)
      requires Valid()
      modifies this
      ensures Valid()
      ensures fragmentLength == FragmentLength(old(blockOffset), |left|)
      ensures dest == old(dest) + Piece(old(blockOffset), left, begin)
      ensures blockOffset == Start(old(blockOffset)) + HEADER_SIZE + fragmentLength
    {
      hide Fragment, Trailer, Crc32c.Value, Octets;
      SwitchBlock();
      var avail := BLOCK_SIZE - blockOffset - HEADER_SIZE;
      fragmentLength := if |left| < avail then |left| else avail;
      var end := |left| == fragmentLength;
      var kind;
      if begin && end {
        kind := FULL_TYPE;
      } else if begin {
        kind := FIRST_TYPE;
      } else if end {
        kind := LAST_TYPE;
      } else {
        kind := MIDDLE_TYPE;
      }
      EmitPhysicalRecord(kind, left[..fragmentLength]);
    }

    // Never leaves less than a header's room in a block.
    method SwitchBlock()
      requires Valid()
      modifies this
      ensures Valid() && dest == old(dest) + Trailer(old(blockOffset))
      ensures blockOffset == Start(old(blockOffset))
    {
      var leftover := BLOCK_SIZE - blockOffset;
      if leftover < HEADER_SIZE {
        if leftover > 0 {
          dest := dest + Zeros(leftover);
        }
        blockOffset := 0;
        blocks := blocks + 1;
      }
    }

    method EmitPhysicalRecord(kind: byte, payload: Bytes)
      requires Valid() && kind <= LAST_TYPE && |payload| <= 0xffff
      requires blockOffset + HEADER_SIZE + |payload| <= BLOCK_SIZE
      modifies this
      ensures Valid() && dest == old(dest) + Fragment(kind, payload)
      ensures blockOffset == old(blockOffset) + HEADER_SIZE + |payload|
    {
      hide Crc32c.Extended, Crc32c.Mask, EncodeFixed32, Octets;
      var crc := Crc32c.Extended(typeCrc[kind], Octets(payload));
      Crc32c.ExtendComposes(0, Octets([kind]), Octets(payload));
      OctetsConcat([kind], payload);
      var header := EncodeFixed32(Crc32c.Mask(crc)) + [|payload| % 256, |payload| / 256, kind];
      dest := dest + header;
      dest := dest + payload;
      blockOffset := blockOffset + HEADER_SIZE + |payload|;
    }
  }
}
