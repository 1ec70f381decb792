/** Bytes as other programs see them: what the formats are on disk, number by number. */
module Formats {
  import opened Dbformat
  import opened Coding
  import BatchCoding
  import Bloom
  import Crc32c
  import EditCoding
  import Log

  // ---------- Numbers (util/coding.cc) ----------

  // The low byte comes first.
  lemma FixedBytes(a: byte, b: byte, c: byte, d: byte)
    ensures EncodeFixed(a + 0x100 * b + 0x1_0000 * c + 0x100_0000 * d, 4) == [a, b, c, d]
  {
    var n := a + 0x100 * b + 0x1_0000 * c + 0x100_0000 * d;
    var n1 := b + 0x100 * c + 0x1_0000 * d;
    var n2: nat := c + 0x100 * d;
    assert n == a + 0x100 * n1 && n1 == b + 0x100 * n2;
    assert EncodeFixed(n2, 2) == [c] + EncodeFixed(d, 1);
    assert EncodeFixed(n1, 3) == [b] + EncodeFixed(n2, 2);
  }

  // Seven bits a byte, the low ones first, and the high bit on all but the last byte.
  lemma VarintBytes(a: nat, b: nat, c: nat)
    requires a < 128 && b < 128 && 0 < c < 128
    ensures PutVarint32(a) == [a]
    ensures PutVarint32(a + 0x80 * c) == [a + 128, c]
    ensures PutVarint32(a + 0x80 * b + 0x4000 * c) == [a + 128, b + 128, c]
  {
    var n := b + 0x80 * c;
    assert a + 0x80 * b + 0x4000 * c == a + 0x80 * n;
    assert PutVarint32(n) == [b + 128] + PutVarint32(c);
  }

  // ---------- Checksums (util/crc32c.cc) ----------

  lemma EightBits(l: bv32)
    ensures Crc32c.Bits(l, 8) ==
            Crc32c.Bit(Crc32c.Bit(Crc32c.Bit(Crc32c.Bit(Crc32c.Bit(Crc32c.Bit(Crc32c.Bit(Crc32c.Bit(l))))))))
  {
    hide Crc32c.Bit;
    var m := Crc32c.Bit(Crc32c.Bit(Crc32c.Bit(Crc32c.Bit(l))));
    assert Crc32c.Bits(l, 8) == Crc32c.Bits(Crc32c.Bit(l), 7) == Crc32c.Bits(Crc32c.Bit(Crc32c.Bit(l)), 6);
    assert Crc32c.Bits(Crc32c.Bit(Crc32c.Bit(l)), 6) == Crc32c.Bits(Crc32c.Bit(Crc32c.Bit(Crc32c.Bit(l))), 5) ==
           Crc32c.Bits(m, 4);
    assert Crc32c.Bits(m, 4) == Crc32c.Bits(Crc32c.Bit(m), 3) == Crc32c.Bits(Crc32c.Bit(Crc32c.Bit(m)), 2);
  }

  // One more byte.
  lemma FoldStep(l: bv32, b: bv8, m: bv32, data: seq<bv8>)
    requires Crc32c.Bits(Crc32c.Xor(l, Crc32c.Wide(b)), 8) == m
    ensures Crc32c.Fold(l, [b] + data) == Crc32c.Fold(m, data)
  {
    hide Crc32c.Bits, Crc32c.Xor, Crc32c.Wide;
    assert ([b] + data)[1..] == data;
  }

  lemma ByteStep(l: bv32, b: bv8, m: bv32, data: seq<bv8>)
    requires var x := l ^ (b as bv32);
             Crc32c.Bit(Crc32c.Bit(Crc32c.Bit(Crc32c.Bit(Crc32c.Bit(Crc32c.Bit(Crc32c.Bit(Crc32c.Bit(x)))))))) == m
    ensures Crc32c.Fold(l, [b] + data) == Crc32c.Fold(m, data)
  {
    hide Crc32c.Bits, Crc32c.Bit, Crc32c.Fold;
    EightBits(l ^ (b as bv32));
    FoldStep(l, b, m, data);
  }

  // The check value of CRC-32C: that of the digits 1 to 9.
  lemma CheckValue()
    ensures Crc32c.Value([0x31, 0x32, 0x33, 0x34, 0x35, 0x36, 0x37, 0x38, 0x39]) == 0xe3069283
  {
    hide Crc32c.Fold;
    var none: seq<bv8> := [];
    ByteStep(0x9f787f65, 0x39, 0x1cf96d7c, none);
    var d8 := [0x39 as bv8] + none;
    ByteStep(0xedbd6815, 0x38, 0x9f787f65, d8);
    var d7 := [0x38 as bv8] + d8;
    ByteStep(0xbeca8e79, 0x37, 0xedbd6815, d7);
    var d6 := [0x37 as bv8] + d7;
    ByteStep(0xe72edcca, 0x36, 0xbeca8e79, d6);
    var d5 := [0x36 as bv8] + d6;
    ByteStep(0x9c50b11, 0x35, 0xe72edcca, d5);
    var d4 := [0x35 as bv8] + d5;
    ByteStep(0xef84d04d, 0x34, 0x9c50b11, d4);
    var d3 := [0x34 as bv8] + d4;
    ByteStep(0x8caa3b9f, 0x33, 0xef84d04d, d3);
    var d2 := [0x33 as bv8] + d3;
    ByteStep(0x6f0a661c, 0x32, 0x8caa3b9f, d2);
    var d1 := [0x32 as bv8] + d2;
    ByteStep(0xffffffff, 0x31, 0x6f0a661c, d1);
    var d0 := [0x31 as bv8] + d1;
    NoData(0x1cf96d7c);
    assert d0 == [0x31, 0x32, 0x33, 0x34, 0x35, 0x36, 0x37, 0x38, 0x39];
  }

  lemma NoData(l: bv32)
    ensures Crc32c.Fold(l, []) == l
  {
  }

  // ---------- Log fragments (db/log_format.h) ----------

  // The byte behind a fragment's length says which part of its record it is.
  lemma FragmentKinds(begin: bool, end: bool, data: Bytes)
    requires |data| <= 0xffff
    ensures Log.Fragment(Log.FragmentType(begin, end), data)[6] ==
            if begin && end then 1 else if begin then 2 else if end then 4 else 3
  {
    hide Log.Checksum, Crc32c.Mask, Log.EncodeFixed32;
  }

  // ---------- Write batches (db/write_batch.cc) ----------

  lemma ShortPrefixed(s: Bytes)
    requires |s| < 128
    ensures EditCoding.Prefixed(s) == [|s|] + s
  {
  }

  // Behind the sequence number and the count, eight and four bytes, each operation with its kind.
  lemma BatchOfTwo(rep: Bytes, sequence: nat, key: Bytes, value: Bytes, other: Bytes)
    requires |key| < 128 && |value| < 128 && |other| < 128
    requires BatchCoding.IsBatch(rep, sequence, [BatchCoding.Put(key, value), BatchCoding.Delete(other)])
    ensures rep == EncodeFixed(sequence, 8) +
                   ([2, 0, 0, 0] + (([1] + ([|key|] + key + ([|value|] + value))) + ([0] + ([|other|] + other))))
  {
    hide EditCoding.Prefixed, EncodeFixed;
    var put, delete := BatchCoding.Put(key, value), BatchCoding.Delete(other);
    ShortPrefixed(key);
    ShortPrefixed(value);
    ShortPrefixed(other);
    FixedBytes(2, 0, 0, 0);
    assert [put, delete][1..] == [delete] && [delete][1..] == [];
    assert BatchCoding.OpsBytes([delete]) == BatchCoding.OpBytes(delete) + [] == BatchCoding.OpBytes(delete);
  }

  // ---------- Version edits (db/version_edit.cc) ----------

  // Each field has a number, and what follows it has an order.
  lemma FieldsOfEdits(a: nat, b: nat, c: nat, s: Bytes, t: Bytes)
    requires a < 128 && b < 128 && c < 128 && |s| < 128 && |t| < 128
    ensures EditCoding.FieldBytes(EditCoding.Comparator(s)) == [1] + ([|s|] + s)
    ensures EditCoding.FieldBytes(EditCoding.LogNumber(a)) == [2, a]
    ensures EditCoding.FieldBytes(EditCoding.NextFileNumber(a)) == [3, a]
    ensures EditCoding.FieldBytes(EditCoding.LastSequence(a)) == [4, a]
    ensures EditCoding.FieldBytes(EditCoding.CompactPointer(a, s)) == [5] + ([a] + ([|s|] + s))
    ensures EditCoding.FieldBytes(EditCoding.DeletedFile(a, b)) == [6, a, b]
    ensures EditCoding.FieldBytes(EditCoding.NewFile(a, EditCoding.FileRecord(b, c, s, t))) ==
            [7] + ([a] + ([b] + ([c] + (([|s|] + s) + ([|t|] + t)))))
    ensures EditCoding.FieldBytes(EditCoding.PrevLogNumber(a)) == [9, a]
  {
    hide EditCoding.Prefixed;
    ShortPrefixed(s);
    ShortPrefixed(t);
  }

  // ---------- Bloom filters (util/bloom.cc) ----------

  // Each probe adds the hash value, rotated right by 17 bits, to the one before, in 32 bits.
  lemma ProbesOfHash()
    ensures Bloom.Probe(0x12345678, 0) == 0x12345678
    ensures Bloom.Probe(0x12345678, 1) == 0x3d705f92
    ensures Bloom.Probe(0x12345678, 2) == 0x68ac68ac
    ensures Bloom.Probe(0x12345678, 5) == 0xea6083fa
    ensures Bloom.Probe(0x12345678, 6) == 0x159c8d14
  {
    assert Bloom.Delta(0x12345678) == 0x2b3c091a;
    var three := Bloom.Probe(0x12345678, 3);
    assert three == 0x93e871c6;
    assert Bloom.Probe(0x12345678, 4) == 0xbf247ae0;
  }
}
