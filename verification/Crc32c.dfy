/** CRC32C (util/crc32c.cc, util/crc32c.h): the Castagnoli CRC of section 12.1 of RFC 3720.

    The specification takes in a bit at a time; the code takes in a byte at a time through a table,
    and long inputs as four interleaved strides of 4-byte words. */
module Crc32c {
  const POLYNOMIAL: bv32 := 0x82f63b78  // bit-reversed
  const CRC32_XOR: bv32 := 0xffffffff
  const MASK_DELTA: bv32 := 0xa282ead8

  // ---------- Bit operations ----------

  function Xor(a: bv32, b: bv32): bv32 { a ^ b }

  predicate Odd(l: bv32) { l & 1 == 1 }

  function Half(l: bv32): bv32 { l >> 1 }

  // Everything but the low byte, shifted down.
  function Rest(l: bv32): bv32 { l >> 8 }

  function Low(l: bv32): bv8 { (l & 0xff) as bv8 }

  function Wide(b: bv8): bv32 { b as bv32 }

  // The little-endian word of four bytes.
  function Word(b0: bv8, b1: bv8, b2: bv8, b3: bv8): bv32 {
    (b0 as bv32) | ((b1 as bv32) << 8) | ((b2 as bv32) << 16) | ((b3 as bv32) << 24)
  }

  lemma XorAssociates(a: bv32, b: bv32, c: bv32)
    ensures Xor(Xor(a, b), c) == Xor(a, Xor(b, c))
  {
  }

  lemma XorCommutes(a: bv32, b: bv32)
    ensures Xor(a, b) == Xor(b, a)
  {
  }

  lemma XorCancels(a: bv32, b: bv32)
    ensures Xor(Xor(a, b), b) == a && Xor(a, a) == 0 && Xor(0, a) == a && Xor(a, 0) == a
  {
  }

  lemma XorSwaps(a: bv32, b: bv32, c: bv32, d: bv32)
    ensures Xor(Xor(a, b), Xor(c, d)) == Xor(Xor(a, c), Xor(b, d))
  {
    hide Xor;
    XorAssociates(a, b, Xor(c, d));
    XorAssociates(b, c, d);
    XorCommutes(b, c);
    XorAssociates(c, b, d);
    XorAssociates(a, c, Xor(b, d));
  }

  // ---------- Specification ----------

  // The register after one zero bit.
  function Bit(l: bv32): bv32 { if Odd(l) then Xor(POLYNOMIAL, Half(l)) else Half(l) }

  function Bits(l: bv32, n: nat): bv32
    decreases n
  {
    if n == 0 then l else Bits(Bit(l), n - 1)
  }

  // The register after n zero bytes.
  function Advance(l: bv32, n: nat): bv32
    decreases n
  {
    if n == 0 then l else Advance(Bits(l, 8), n - 1)
  }

  // The register after the data.
  function Fold(l: bv32, data: seq<bv8>): bv32
    decreases |data|
  {
    if data == [] then l else Fold(Bits(Xor(l, Wide(data[0])), 8), data[1..])
  }

  // The CRC of a string extended by data, given the string's CRC.
  function Extended(crc: bv32, data: seq<bv8>): bv32 { Xor(Fold(Xor(crc, CRC32_XOR), data), CRC32_XOR) }

  function Value(data: seq<bv8>): bv32 { Extended(0, data) }

  function Mask(crc: bv32): bv32 { ((crc >> 15) | (crc << 17)) + MASK_DELTA }

  function Unmask(masked: bv32): bv32 {
    var rot := masked - MASK_DELTA;
    (rot >> 17) | (rot << 15)
  }

  lemma UnmaskUndoesMask(crc: bv32)
    ensures Unmask(Mask(crc)) == crc
  {
    var rot := (crc >> 15) | (crc << 17);
    assert Mask(crc) - MASK_DELTA == rot;
    assert (rot >> 17) | (rot << 15) == crc;
  }

  lemma {:induction false} FoldConcat(l: bv32, a: seq<bv8>, b: seq<bv8>)
    ensures Fold(l, a + b) == Fold(Fold(l, a), b)
    decreases |a|
  {
    hide Xor, Bits, Wide;
    if a == [] {
      assert a + b == b;
    } else {
      FoldConcat(Bits(Xor(l, Wide(a[0])), 8), a[1..], b);
      assert (a + b)[1..] == a[1..] + b;
    }
  }

  // Extending over a concatenation composes.
  lemma ExtendComposes(crc: bv32, a: seq<bv8>, b: seq<bv8>)
    ensures Extended(Extended(crc, a), b) == Extended(crc, a + b)
  {
    hide Xor, Fold;
    XorCancels(Fold(Xor(crc, CRC32_XOR), a), CRC32_XOR);
    FoldConcat(Xor(crc, CRC32_XOR), a, b);
  }

  // ---------- Linearity ----------

  lemma HalfOfXor(a: bv32, b: bv32)
    ensures Half(Xor(a, b)) == Xor(Half(a), Half(b))
    ensures Odd(Xor(a, b)) <==> Odd(a) != Odd(b)
  {
    assert (a ^ b) & 1 == (a & 1) ^ (b & 1);
    assert (a & 1 == 0 || a & 1 == 1) && (b & 1 == 0 || b & 1 == 1);
  }

  lemma BitIsLinear(a: bv32, b: bv32)
    ensures Bit(Xor(a, b)) == Xor(Bit(a), Bit(b))
  {
    hide Xor, Odd, Half;
    HalfOfXor(a, b);
    XorSwaps(POLYNOMIAL, Half(a), POLYNOMIAL, Half(b));
    XorCancels(POLYNOMIAL, POLYNOMIAL);
    XorCancels(Xor(Half(a), Half(b)), 0);
    XorAssociates(POLYNOMIAL, Half(a), Half(b));
    XorCommutes(Half(a), Xor(POLYNOMIAL, Half(b)));
    XorAssociates(POLYNOMIAL, Half(b), Half(a));
    XorCommutes(Half(a), Half(b));
  }

  lemma {:induction false} BitsIsLinear(a: bv32, b: bv32, n: nat)
    ensures Bits(Xor(a, b), n) == Xor(Bits(a, n), Bits(b, n))
    decreases n
  {
    hide Xor, Bit;
    if n > 0 {
      BitIsLinear(a, b);
      BitsIsLinear(Bit(a), Bit(b), n - 1);
    }
  }

  lemma {:induction false} AdvanceIsLinear(a: bv32, b: bv32, n: nat)
    ensures Advance(Xor(a, b), n) == Xor(Advance(a, n), Advance(b, n))
    decreases n
  {
    hide Xor, Bits;
    if n > 0 {
      BitsIsLinear(a, b, 8);
      AdvanceIsLinear(Bits(a, 8), Bits(b, 8), n - 1);
    }
  }

  lemma {:induction false} AdvanceAdds(l: bv32, m: nat, n: nat)
    ensures Advance(Advance(l, m), n) == Advance(l, m + n)
    decreases m
  {
    hide Bits;
    if m > 0 {
      AdvanceAdds(Bits(l, 8), m - 1, n);
    }
  }

  lemma HalfClear(y: bv32, mask: bv32)
    requires y & mask == 0 && mask & 1 == 1
    ensures y & 1 == 0 && (y >> 1) & (mask >> 1) == 0
  {
  }

  lemma FourHalves(y: bv32)
    requires y & 0xf == 0
    ensures Bits(y, 4) == y >> 4
  {
    HalfClear(y, 0xf);
    HalfClear(y >> 1, 0x7);
    HalfClear((y >> 1) >> 1, 0x3);
    HalfClear(((y >> 1) >> 1) >> 1, 0x1);
    ShiftFour(y);
    assert Bits(y, 4) == Bits(y >> 1, 3) == Bits((y >> 1) >> 1, 2) == Bits(((y >> 1) >> 1) >> 1, 1);
  }

  lemma ShiftFour(y: bv32)
    ensures (((y >> 1) >> 1) >> 1) >> 1 == y >> 4
  {
  }

  lemma {:induction false} BitsAdd(l: bv32, m: nat, n: nat)
    ensures Bits(Bits(l, m), n) == Bits(l, m + n)
    decreases m
  {
    hide Bit;
    if m > 0 {
      BitsAdd(Bit(l), m - 1, n);
    }
  }

  lemma LowNibbles(y: bv32)
    requires Low(y) == 0
    ensures y & 0xf == 0 && (y >> 4) & 0xf == 0 && (y >> 4) >> 4 == Rest(y)
  {
  }

  // A register whose low byte is zero just shifts.
  lemma LowClearShifts(y: bv32)
    requires Low(y) == 0
    ensures Bits(y, 8) == Rest(y)
  {
    hide Bits, Low, Rest;
    LowNibbles(y);
    FourHalves(y);
    FourHalves(y >> 4);
    BitsAdd(y, 4, 4);
  }

  // ---------- Tables ----------

  // The contribution of the byte c, as byte k of a word.
  function Placed(c: bv8, k: nat): bv32 {
    if k == 0 then c as bv32
    else if k == 1 then (c as bv32) << 8
    else if k == 2 then (c as bv32) << 16
    else (c as bv32) << 24
  }

  // What the tables hold.  Entry c of the byte table is the register c after a byte; entry c of stride
  // table k is what c, as byte 3 - k of a word, has become 16 bytes on.
  ghost predicate AreTables(byteTable: seq<bv32>, stride: seq<seq<bv32>>) {
    && |byteTable| == 256
    && (forall c: bv8 {:trigger Wide(c)} :: byteTable[c as int] == Bits(Wide(c), 8))
    && |stride| == 4
    && (forall k :: 0 <= k < 4 ==> |stride[k]| == 256)
    && (forall c: bv8, k: nat {:trigger Placed(c, k)} :: k < 4 ==> stride[3 - k][c as int] == Advance(Placed(c, k), 16))
  }

  lemma SplitLow(x: bv32)
    ensures x == Xor(Wide(Low(x)), x & 0xffffff00)
    ensures Low(x & 0xffffff00) == 0 && Rest(x & 0xffffff00) == Rest(x)
  {
  }

  // One table lookup takes in one byte.
  lemma TableStep(x: bv32)
    ensures Bits(x, 8) == Xor(Bits(Wide(Low(x)), 8), Rest(x))
  {
    hide Xor, Bits, Wide, Low, Rest;
    SplitLow(x);
    BitsIsLinear(Wide(Low(x)), x & 0xffffff00, 8);
    LowClearShifts(x & 0xffffff00);
  }

  lemma ByteIntoRegister(l: bv32, b: bv8)
    ensures Low(Xor(l, Wide(b))) == Low(l) ^ b
    ensures Rest(Xor(l, Wide(b))) == Rest(l)
  {
  }

  lemma BytesOfWord(x: bv32)
    ensures x ==
              Xor(Xor(Placed(Low(x), 0), Placed(Low(x >> 8), 1)), Xor(Placed(Low(x >> 16), 2), Placed(Low(x >> 24), 3)))
  {
  }

  // ---------- Words ----------

  lemma WordOfBytes(v: bv32)
    ensures Word(Low(v), Low(v >> 8), Low(v >> 16), Low(v >> 24)) == v
  {
  }

  function WordAt(data: seq<bv8>, p: nat): bv32
    requires p + 4 <= |data|
  {
    Word(data[p], data[p + 1], data[p + 2], data[p + 3])
  }

  lemma WordParts(l: bv32, b0: bv8, b1: bv8, b2: bv8, b3: bv8)
    ensures Xor(l, Word(b0, b1, b2, b3)) == Xor(Xor(l, Wide(b0)), Word(0, b1, b2, b3))
    ensures Low(Word(0, b1, b2, b3)) == 0
    ensures Rest(Word(0, b1, b2, b3)) == Word(b1, b2, b3, 0)
  {
    hide Xor;
    LowByteApart(b0, b1, b2, b3);
    XorAssociates(l, Wide(b0), Word(0, b1, b2, b3));
  }

  lemma LowByteApart(b0: bv8, b1: bv8, b2: bv8, b3: bv8)
    ensures Word(b0, b1, b2, b3) == Xor(Wide(b0), Word(0, b1, b2, b3))
  {
  }

  lemma LoneByte(b: bv8)
    ensures Word(b, 0, 0, 0) == Wide(b)
  {
  }

  lemma PeelByte(l: bv32, b0: bv8, b1: bv8, b2: bv8, b3: bv8)
    ensures Bits(Xor(l, Word(b0, b1, b2, b3)), 8) == Xor(Bits(Xor(l, Wide(b0)), 8), Word(b1, b2, b3, 0))
  {
    hide Xor, Bits, Word, Wide, Low, Rest;
    WordParts(l, b0, b1, b2, b3);
    BitsIsLinear(Xor(l, Wide(b0)), Word(0, b1, b2, b3), 8);
    LowClearShifts(Word(0, b1, b2, b3));
  }

  // Taking in a word and advancing is taking in its four bytes.
  lemma WordIsFourBytes(l: bv32, b0: bv8, b1: bv8, b2: bv8, b3: bv8)
    ensures Advance(Xor(l, Word(b0, b1, b2, b3)), 4) ==
            Bits(Xor(Bits(Xor(Bits(Xor(Bits(Xor(l, Wide(b0)), 8), Wide(b1)), 8), Wide(b2)), 8), Wide(b3)), 8)
  {
    hide Xor, Bits, Word, Wide;
    var l1 := Bits(Xor(l, Wide(b0)), 8);
    var l2 := Bits(Xor(l1, Wide(b1)), 8);
    var l3 := Bits(Xor(l2, Wide(b2)), 8);
    PeelByte(l, b0, b1, b2, b3);
    PeelByte(l1, b1, b2, b3, 0);
    PeelByte(l2, b2, b3, 0, 0);
    LoneByte(b3);
    assert Advance(Xor(l, Word(b0, b1, b2, b3)), 4) == Advance(Xor(l1, Word(b1, b2, b3, 0)), 3)
        == Advance(Xor(l2, Word(b2, b3, 0, 0)), 2) == Advance(Xor(l3, Word(b3, 0, 0, 0)), 1);
  }

  lemma FoldByte(l: bv32, data: seq<bv8>, p: nat)
    requires p < |data|
    ensures Fold(l, data[..p + 1]) == Bits(Xor(Fold(l, data[..p]), Wide(data[p])), 8)
  {
    hide Xor, Bits, Wide;
    FoldConcat(l, data[..p], [data[p]]);
    assert data[..p + 1] == data[..p] + [data[p]];
    assert [data[p]][1..] == [];
  }

  lemma FoldWord(l: bv32, data: seq<bv8>, p: nat)
    requires p + 4 <= |data|
    ensures Fold(l, data[..p + 4]) == Advance(Xor(Fold(l, data[..p]), WordAt(data, p)), 4)
  {
    hide Xor, Fold, Advance, Word, Wide, Bits;
    FoldByte(l, data, p);
    FoldByte(l, data, p + 1);
    FoldByte(l, data, p + 2);
    FoldByte(l, data, p + 3);
    WordIsFourBytes(Fold(l, data[..p]), data[p], data[p + 1], data[p + 2], data[p + 3]);
  }

  // ---------- Strides ----------

  // The register that four strides stand for.
  function Combined(c0: bv32, c1: bv32, c2: bv32, c3: bv32): bv32 {
    Advance(Xor(Advance(Xor(Advance(Xor(Advance(c0, 4), c1), 4), c2), 4), c3), 4)
  }

  lemma CombinedIsSum(c0: bv32, c1: bv32, c2: bv32, c3: bv32)
    ensures Combined(c0, c1, c2, c3) == Xor(Xor(Advance(c0, 16), Advance(c1, 12)), Xor(Advance(c2, 8), Advance(c3, 4)))
  {
    hide Xor, Advance;
    AdvanceIsLinear(Advance(c0, 4), c1, 4);
    AdvanceAdds(c0, 4, 4);
    AdvanceIsLinear(Xor(Advance(c0, 8), Advance(c1, 4)), c2, 4);
    AdvanceIsLinear(Advance(c0, 8), Advance(c1, 4), 4);
    AdvanceAdds(c0, 8, 4);
    AdvanceAdds(c1, 4, 4);
    AdvanceIsLinear(Xor(Xor(Advance(c0, 12), Advance(c1, 8)), Advance(c2, 4)), c3, 4);
    AdvanceIsLinear(Xor(Advance(c0, 12), Advance(c1, 8)), Advance(c2, 4), 4);
    AdvanceIsLinear(Advance(c0, 12), Advance(c1, 8), 4);
    AdvanceAdds(c0, 12, 4);
    AdvanceAdds(c1, 8, 4);
    AdvanceAdds(c2, 4, 4);
    XorAssociates(Xor(Advance(c0, 16), Advance(c1, 12)), Advance(c2, 8), Advance(c3, 4));
  }

  // The swath of 16 bytes at p, taken in word by word.
  lemma FoldSwath(l: bv32, data: seq<bv8>, p: nat)
    requires p + 16 <= |data|
    ensures Fold(l, data[..p + 16]) ==
            Combined(Xor(Fold(l, data[..p]), WordAt(data, p)), WordAt(data, p + 4), WordAt(data, p + 8),
                WordAt(data, p + 12))
  {
    hide Xor, Advance, Fold, WordAt;
    FoldWord(l, data, p);
    FoldWord(l, data, p + 4);
    FoldWord(l, data, p + 8);
    FoldWord(l, data, p + 12);
  }

  lemma XorSwath(a: bv32, b: bv32, c: bv32, d: bv32, w: bv32, x: bv32, y: bv32, z: bv32)
    ensures Xor(Xor(Xor(w, a), Xor(x, b)), Xor(Xor(y, c), Xor(z, d))) ==
            Xor(Xor(Xor(Xor(Xor(a, b), Xor(c, d)), w), x), Xor(y, z))
  {
    hide Xor;
    var all := Xor(Xor(a, b), Xor(c, d));
    XorSwaps(w, a, x, b);
    XorSwaps(y, c, z, d);
    XorSwaps(Xor(w, x), Xor(a, b), Xor(y, z), Xor(c, d));
    XorCommutes(Xor(Xor(w, x), Xor(y, z)), all);
    XorAssociates(all, w, x);
    XorAssociates(all, Xor(w, x), Xor(y, z));
  }

  lemma StrideSwath(w: bv32, c: bv32, n: nat)
    ensures Advance(Xor(w, Advance(c, 16)), n) == Xor(Advance(w, n), Advance(Advance(c, n), 16))
  {
    hide Xor, Advance;
    AdvanceIsLinear(w, Advance(c, 16), n);
    AdvanceAdds(c, 16, n);
    AdvanceAdds(c, n, 16);
  }

  // Each stride takes in its word of the swath: the register takes in the swath.
  lemma StridesTakeSwath(c0: bv32, c1: bv32, c2: bv32, c3: bv32, w0: bv32, w1: bv32, w2: bv32, w3: bv32)
    ensures Combined(Xor(w0, Advance(c0, 16)), Xor(w1, Advance(c1, 16)), Xor(w2, Advance(c2, 16)),
              Xor(w3, Advance(c3, 16))) ==
            Combined(Xor(Combined(c0, c1, c2, c3), w0), w1, w2, w3)
  {
    hide Xor, Advance, Combined;
    var a, b, c, d := Advance(c0, 16), Advance(c1, 12), Advance(c2, 8), Advance(c3, 4);
    var l := Combined(c0, c1, c2, c3);
    CombinedIsSum(c0, c1, c2, c3);
    CombinedIsSum(Xor(w0, Advance(c0, 16)), Xor(w1, Advance(c1, 16)), Xor(w2, Advance(c2, 16)),
        Xor(w3, Advance(c3, 16)));
    CombinedIsSum(Xor(l, w0), w1, w2, w3);
    AdvanceIsLinear(w0, a, 16);
    StrideSwath(w1, c1, 12);
    StrideSwath(w2, c2, 8);
    StrideSwath(w3, c3, 4);
    AdvanceIsLinear(l, w0, 16);
    AdvanceIsLinear(Xor(a, b), Xor(c, d), 16);
    AdvanceIsLinear(a, b, 16);
    AdvanceIsLinear(c, d, 16);
    XorSwath(Advance(a, 16), Advance(b, 16), Advance(c, 16), Advance(d, 16),
             Advance(w0, 16), Advance(w1, 12), Advance(w2, 8), Advance(w3, 4));
  }

  lemma XorRotate(a: bv32, b: bv32, c: bv32, d: bv32, w: bv32)
    ensures Xor(Xor(b, c), Xor(d, Xor(w, a))) == Xor(Xor(Xor(a, b), Xor(c, d)), w)
  {
    hide Xor;
    XorCommutes(w, a);
    XorAssociates(d, a, w);
    XorCommutes(d, a);
    XorAssociates(Xor(b, c), Xor(a, d), w);
    XorSwaps(b, c, a, d);
    XorCommutes(b, a);
  }

  // The oldest stride takes in one more word and becomes the newest.
  lemma StridesTakeWord(c0: bv32, c1: bv32, c2: bv32, c3: bv32, w: bv32)
    ensures Combined(c1, c2, c3, Xor(w, Advance(c0, 16))) == Advance(Xor(Combined(c0, c1, c2, c3), w), 4)
  {
    hide Xor, Advance, Combined;
    var a, b, c, d := Advance(c0, 16), Advance(c1, 12), Advance(c2, 8), Advance(c3, 4);
    CombinedIsSum(c0, c1, c2, c3);
    CombinedIsSum(c1, c2, c3, Xor(w, a));
    AdvanceIsLinear(w, a, 4);
    AdvanceIsLinear(Xor(Xor(a, b), Xor(c, d)), w, 4);
    AdvanceIsLinear(Xor(a, b), Xor(c, d), 4);
    AdvanceIsLinear(a, b, 4);
    AdvanceIsLinear(c, d, 4);
    AdvanceAdds(c1, 12, 4);
    AdvanceAdds(c2, 8, 4);
    AdvanceAdds(c3, 4, 4);
    XorRotate(Advance(a, 4), Advance(b, 4), Advance(c, 4), Advance(d, 4), Advance(w, 4));
  }

  lemma CombinedFromZero(c0: bv32, c1: bv32, c2: bv32, c3: bv32)
    ensures Combined(c0, c1, c2, c3) ==
              Advance(Xor(Advance(Xor(Advance(Xor(Advance(Xor(0, c0), 4), c1), 4), c2), 4), c3), 4)
  {
    hide Xor, Advance;
    XorCancels(c0, 0);
  }

  // ---------- The code ----------

  class Crc {
    const byteTable: seq<bv32>
    const stride: seq<seq<bv32>>

    constructor (byteExtensionTable: seq<bv32>, strideExtensionTables: seq<seq<bv32>>)
      ensures byteTable == byteExtensionTable && stride == strideExtensionTables
    {
      byteTable, stride := byteExtensionTable, strideExtensionTables;
    }

    // STEP1
    method Step1(l: bv32, b: bv8) returns (r: bv32)
      requires AreTables(byteTable, stride)
      ensures r == Bits(Xor(l, Wide(b)), 8)
    {
      hide Xor, Bits, Advance, Low, Rest;
      var c := Low(l) ^ b;
      r := Xor(byteTable[c as int], Rest(l));
      ByteIntoRegister(l, b);
      TableStep(Xor(l, Wide(b)));
    }

    // STEP4: the stride's register, 16 bytes on, with the next word.
    method Step4(word: bv32, crc: bv32) returns (r: bv32)
      requires AreTables(byteTable, stride)
      ensures r == Xor(word, Advance(crc, 16))
    {
      hide Xor, Bits, Advance, Low, Placed;
      var s3 := stride[3][Low(crc) as int];
      var s2 := stride[2][Low(crc >> 8) as int];
      var s1 := stride[1][Low(crc >> 16) as int];
      var s0 := stride[0][Low(crc >> 24) as int];
      r := Xor(Xor(Xor(Xor(word, s3), s2), s1), s0);
      BytesOfWord(crc);
      AdvanceParts(Placed(Low(crc), 0), Placed(Low(crc >> 8), 1), Placed(Low(crc >> 16), 2), Placed(Low(crc >> 24), 3));
      XorFlat(word, s3, s2, s1, s0);
    }

    // STEP4W
    method Step4W(word: bv32, l: bv32) returns (w: bv32)
      requires AreTables(byteTable, stride)
      ensures w == Advance(Xor(l, word), 4)
    {
      hide Xor, Bits, Low, Rest;
      w := Xor(word, l);
      XorCommutes(word, l);
      for i := 0 to 4
        invariant Advance(w, 4 - i) == Advance(Xor(l, word), 4)
      {
        TableStep(w);
        XorCommutes(Rest(w), byteTable[Low(w) as int]);
        w := Xor(Rest(w), byteTable[Low(w) as int]);
      }
    }

    // The strided computation agrees with the bitwise one, whatever the data, its length and the
    // address at which it lies.
    method Extend(crc: bv32, data: seq<bv8>, address: nat) returns (r: bv32)
      requires AreTables(byteTable, stride)
      ensures r == Extended(crc, data)
    {
      hide Xor, Fold, Advance, Bits, AreTables, WordAt, Combined, Low;
      var p, e := 0, |data|;
      var l := Xor(crc, CRC32_XOR);
      ghost var start := l;
      FoldNone(start, data);
      var x := (4 - address % 4) % 4;  // the first aligned byte
      if x <= e {
        while p != x
          invariant p <= x && l == Fold(start, data[..p])
        {
          FoldByte(start, data, p);
          l := Step1(l, data[p]);
          p := p + 1;
        }
      }
      if e - p >= 16 {
        l, p := Strided(start, l, data, p);
      }
      while p != e
        invariant p <= e && l == Fold(start, data[..p])
      {
        FoldByte(start, data, p);
        l := Step1(l, data[p]);
        p := p + 1;
      }
      assert data[..e] == data;
      r := Xor(l, CRC32_XOR);
    }

    method Strided(ghost start: bv32, l0: bv32, data: seq<bv8>, p0: nat) returns (l: bv32, p: nat)
      requires AreTables(byteTable, stride)
      requires p0 + 16 <= |data| && l0 == Fold(start, data[..p0])
      ensures p0 <= p <= |data| && l == Fold(start, data[..p])
    {
      hide Xor, Fold, Advance, Bits, AreTables, WordAt, Combined, Low;
      p := p0;
      var e := |data|;
      XorCommutes(WordAt(data, p), l0);
      var crc0, crc1, crc2, crc3 := Xor(WordAt(data, p), l0), WordAt(data, p + 4), WordAt(data, p + 8),
          WordAt(data, p + 12);
      FoldSwath(start, data, p);
      p := p + 16;
      while e - p >= 16
        invariant p0 <= p <= e && Combined(crc0, crc1, crc2, crc3) == Fold(start, data[..p])
      {
        FoldSwath(start, data, p);
        StridesTakeSwath(crc0, crc1, crc2, crc3, WordAt(data, p), WordAt(data, p + 4), WordAt(data, p + 8),
            WordAt(data, p + 12));
        crc0 := Step4(WordAt(data, p), crc0);
        crc1 := Step4(WordAt(data, p + 4), crc1);
        crc2 := Step4(WordAt(data, p + 8), crc2);
        crc3 := Step4(WordAt(data, p + 12), crc3);
        p := p + 16;
      }
      while e - p >= 4
        invariant p0 <= p <= e && Combined(crc0, crc1, crc2, crc3) == Fold(start, data[..p])
      {
        FoldWord(start, data, p);
        StridesTakeWord(crc0, crc1, crc2, crc3, WordAt(data, p));
        crc0 := Step4(WordAt(data, p), crc0);
        crc0, crc1, crc2, crc3 := crc1, crc2, crc3, crc0;
        p := p + 4;
      }
      // combine the partial results
      l := 0;
      CombinedFromZero(crc0, crc1, crc2, crc3);
      l := Step4W(crc0, l);
      l := Step4W(crc1, l);
      l := Step4W(crc2, l);
      l := Step4W(crc3, l);
    }
  }

  lemma FoldNone(l: bv32, data: seq<bv8>)
    ensures Fold(l, data[..0]) == l
  {
  }

  lemma XorFlat(w: bv32, a: bv32, b: bv32, c: bv32, d: bv32)
    ensures Xor(Xor(Xor(Xor(w, a), b), c), d) == Xor(w, Xor(Xor(a, b), Xor(c, d)))
  {
    hide Xor;
    XorAssociates(w, a, b);
    XorAssociates(Xor(w, Xor(a, b)), c, d);
    XorAssociates(w, Xor(a, b), Xor(c, d));
  }

  lemma AdvanceParts(a: bv32, b: bv32, c: bv32, d: bv32)
    ensures Advance(Xor(Xor(a, b), Xor(c, d)), 16) ==
              Xor(Xor(Advance(a, 16), Advance(b, 16)), Xor(Advance(c, 16), Advance(d, 16)))
  {
    hide Xor, Advance;
    AdvanceIsLinear(Xor(a, b), Xor(c, d), 16);
    AdvanceIsLinear(a, b, 16);
    AdvanceIsLinear(c, d, 16);
  }
}
