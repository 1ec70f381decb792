/** Numbers and lengths between nanopb's encoder and decoder: which bytes the decoder takes for which
    number, and where a value of each type ends. */
module PbNumbers {
  import opened Dbformat
  import opened Coding
  import opened Pb
  import opened PbParse

  const ADDRESSABLE: nat := 0x8000_0000_0000_0000

  // ---------- Numbers ----------

  // The low seven bits in place, and the others seven bits further up.
  lemma ShiftedParts(m: nat, bitpos: nat, result: nat)
    requires bitpos in {7, 14, 21, 28} && result < Shifted(1, bitpos) && result + Shifted(m, bitpos) < LIMIT32
    ensures bitpos < 28 ==>
              && Shifted(m % 128, bitpos) + Shifted(m / 128, bitpos + 7) == Shifted(m, bitpos)
              && result + Shifted(m % 128, bitpos) < Shifted(1, bitpos + 7) <= LIMIT32
    ensures bitpos == 28 ==> m < 16
  {
    hide Shifted;
    var low, high := m % 128, m / 128;
    assert m == low + 128 * high;
    ShiftsOf(1);
    ShiftsOf(m);
    ShiftsOf(low);
    ShiftsOf(high);
  }

  lemma WithAdds(result: nat, b: byte, bitpos: nat)
    requires bitpos < 32 && result < LIMIT32 && result < Shifted(1, bitpos)
    ensures !Overflows(result, b, bitpos)
    ensures result + Shifted(b % 128, bitpos) < LIMIT32 ==> With(result, b, bitpos) == result + Shifted(b % 128, bitpos)
  {
    hide Shifted, Or;
    OrAdds(result, b % 128, bitpos);
  }

  // A varint of zero, as long as it may be, adds nothing.
  lemma {:induction false} MoreOfZero(data: Bytes, p: nat, limit: nat, bitpos: nat, result: nat, left: nat, end: nat)
    requires limit <= |data| && GetVarint(data, p, limit, left) == Some((0, end))
    requires bitpos < 256 && result < LIMIT32
    ensures MoreOf32(data, p, limit, bitpos, result) == Some((result, end))
    decreases left
  {
    hide Shifted, Or;
    NoBits(bitpos, result);
    if data[p] >= 128 {
      MoreOfZero(data, p + 1, limit, (bitpos + 7) % 256, result, left - 1, end);
    }
  }

  lemma {:induction false} MoreOfAny(
    data: Bytes, p: nat, limit: nat, bitpos: nat, result: nat, left: nat, m: nat, end: nat)
    requires limit <= |data| && GetVarint(data, p, limit, left) == Some((m, end)) && bitpos in {7, 14, 21, 28}
    requires result < Shifted(1, bitpos) && result + Shifted(m, bitpos) < LIMIT32
    ensures MoreOf32(data, p, limit, bitpos, result) == Some((result + Shifted(m, bitpos), end))
    decreases left
  {
    hide Shifted, With, Overflows;
    ShiftedParts(m, bitpos, result);
    WithAdds(result, data[p], bitpos);
    if data[p] >= 128 {
      var high := GetVarint(data, p + 1, limit, left - 1).value.0;
      assert m % 128 == data[p] - 128 == data[p] % 128 && m / 128 == high;
      if bitpos < 28 {
        MoreOfAny(data, p + 1, limit, bitpos + 7, result + Shifted(m % 128, bitpos), left - 1, high, end);
      } else {
        MoreOfZero(data, p + 1, limit, 35, result + Shifted(m, bitpos), left - 1, end);
      }
    }
  }

  // Any varint of a number below 2^32 reads back, the shortest as well as one padded with empty bytes.
  lemma AnyVarint32IsRead(data: Bytes, p: nat, limit: nat, left: nat, n: nat, end: nat)
    requires limit <= |data| && GetVarint(data, p, limit, left) == Some((n, end)) && n < LIMIT32
    ensures Varint32At(data, p, limit) == Some((n, end))
  {
    hide Shifted;
    if data[p] >= 128 {
      var high := GetVarint(data, p + 1, limit, left - 1).value.0;
      ShiftsOf(1);
      ShiftsOf(high);
      MoreOfAny(data, p + 1, limit, 7, data[p] - 128, left - 1, high, end);
    }
  }

  lemma Varint32IsRead(data: Bytes, p: nat, limit: nat, n: nat)
    requires Starts(data, p, limit, PutVarint32(n)) && n < LIMIT32
    ensures Varint32At(data, p, limit) == Some((n, p + |PutVarint32(n)|))
  {
    hide PutVarint32, Varint32At;
    assert n < Power128(9) by {
      NinePowers();
    }
    GetUndoesPut(data, p, limit, n, 9);
    AnyVarint32IsRead(data, p, limit, 9, n, p + |PutVarint32(n)|);
  }

  // But not every number above is told apart: what the 38th byte adds ends up at bit 3.
  lemma PaddedVarint32IsMisread(data: Bytes, p: nat, limit: nat)
    requires p + 38 <= limit <= |data| && data[p + 37] < 128
    requires forall i :: p <= i < p + 37 ==> data[i] == 128
    ensures Varint32At(data, p, limit) == Some((8 * (data[p + 37] as nat), p + 38))
  {
    hide Shifted, Or;
    var last: nat := data[p + 37];
    PaddingSkipped(data, p + 1, limit, 36, 7);
    ShiftsOf(last);
    ShiftsOf(1);
    OrAdds(0, last, 3);
  }

  lemma {:induction false} PaddingSkipped(data: Bytes, p: nat, limit: nat, j: nat, bitpos: nat)
    requires p + j <= limit <= |data| && bitpos < 256
    requires forall i :: p <= i < p + j ==> data[i] == 128
    ensures MoreOf32(data, p, limit, bitpos, 0) == MoreOf32(data, p + j, limit, (bitpos + 7 * j) % 256, 0)
    decreases j
  {
    hide Shifted, With;
    if j > 0 {
      NoBits(bitpos, 0);
      PaddingSkipped(data, p + 1, limit, j - 1, (bitpos + 7) % 256);
      AroundOnce(bitpos + 7, 7 * (j - 1));
    }
  }

  lemma AroundOnce(a: nat, b: nat)
    ensures (a % 256 + b) % 256 == (a + b) % 256
  {
  }

  lemma NoBits(bitpos: nat, result: nat)
    requires result < LIMIT32
    ensures With(result, 0, bitpos) == With(result, 128, bitpos) == result
  {
    hide Or, Shifted;
    NothingShifted(bitpos);
    NothingAdded(result);
  }

  lemma {:induction false} NothingShifted(bitpos: nat)
    ensures Shifted(0, bitpos) == 0
  {
    if bitpos > 0 {
      NothingShifted(bitpos - 1);
    }
  }

  lemma {:induction false} NothingAdded(a: nat)
    ensures Or(a, 0) == a
  {
    if a > 0 {
      NothingAdded(a / 2);
    }
  }

  // One of at least 2^32 is an overflow.
  lemma {:induction false} LargeOverflows(data: Bytes, p: nat, limit: nat, bitpos: nat, result: nat, m: nat)
    requires Starts(data, p, limit, PutVarint32(m)) && m >= 1 && result < LIMIT32
    requires 35 <= bitpos && bitpos + 7 * (|PutVarint32(m)| - 1) < 63
    ensures MoreOf32(data, p, limit, bitpos, result) == None
    decreases m
  {
    var b := PutVarint32(m);
    assert data[p] == data[p..p + |b|][0] == b[0];
    if m >= 128 {
      assert data[p + 1..p + |b|] == data[p..p + |b|][1..] == b[1..] == PutVarint32(m / 128);
      LargeOverflows(data, p + 1, limit, bitpos + 7, result, m / 128);
    }
  }

  lemma {:induction false} MoreOfLarge(data: Bytes, p: nat, limit: nat, bitpos: nat, result: nat, m: nat)
    requires Starts(data, p, limit, PutVarint32(m)) && m >= 1 && bitpos in {7, 14, 21, 28} && result < LIMIT32
    requires bitpos + 7 * (|PutVarint32(m)| - 1) < 63
    requires m >= (if bitpos == 7 then 0x200_0000 else if bitpos == 14 then 0x4_0000 else if bitpos == 21 then 0x800
               else 16)
    ensures MoreOf32(data, p, limit, bitpos, result) == None
    decreases m
  {
    var b := PutVarint32(m);
    assert data[p] == data[p..p + |b|][0] == b[0];
    if m >= 128 {
      assert data[p + 1..p + |b|] == data[p..p + |b|][1..] == b[1..] == PutVarint32(m / 128);
      if bitpos == 28 {
        LargeOverflows(data, p + 1, limit, 35, With(result, data[p], 28), m / 128);
      } else {
        MoreOfLarge(data, p + 1, limit, bitpos + 7, With(result, data[p], bitpos), m / 128);
      }
    }
  }

  lemma {:induction false} PutIsShort(n: nat, k: nat)
    requires n < Power128(k) && k > 0
    ensures |PutVarint32(n)| <= k
  {
    if n >= 128 {
      assert k > 1 by {
        assert Power128(1) == 128 * Power128(0);
      }
      PutIsShort(n / 128, k - 1);
    }
  }

  lemma LargeVarint32Fails(data: Bytes, p: nat, limit: nat, n: nat)
    requires Starts(data, p, limit, PutVarint32(n)) && LIMIT32 <= n < ADDRESSABLE
    ensures Varint32At(data, p, limit) == None
  {
    var b := PutVarint32(n);
    assert data[p] == data[p..p + |b|][0] == b[0];
    assert data[p + 1..p + |b|] == data[p..p + |b|][1..] == b[1..] == PutVarint32(n / 128);
    NinePowers();
    PutIsShort(n, 9);
    MoreOfLarge(data, p + 1, limit, 7, n % 128, n / 128);
  }

  lemma NinePowers()
    ensures Power128(9) == ADDRESSABLE
  {
    assert Power128(9) == 128 * (128 * (128 * (128 * Power128(5))));
    assert Power128(5) == 128 * (128 * (128 * (128 * (128 * Power128(0)))));
  }

  lemma SignedReadsBack(n: int, w: Width)
    requires -Half(w) <= n < Half(w)
    ensures Unsigned(n) < LIMIT64 && SignedValue(Unsigned(n), w) == n
    ensures ZigZag(n) < LIMIT64 && UnZigZag(ZigZag(n)) == n
  {
    if w != 64 {
      assert Unsigned(n) % LIMIT32 == if n < 0 then n + LIMIT32 else n by {
        if n < 0 {
          assert n + LIMIT64 == (n + LIMIT32) + LIMIT32 * (LIMIT32 - 1);
        }
      }
    }
  }

  lemma {:induction false} TextOfNonZero(b: Bytes)
    requires forall i :: 0 <= i < |b| ==> b[i] != 0
    ensures Text(b) == b
  {
    if b != [] {
      TextOfNonZero(b[1..]);
    }
  }

  // ---------- Contents ----------

  // A length and what it counts.
  lemma DelimitedIsRead(data: Bytes, p: nat, limit: nat, b: Bytes)
    requires Starts(data, p, limit, Delimited(b)) && |data| < ADDRESSABLE
    ensures |b| < LIMIT32 ==> Varint32At(data, p, limit) == Some((|b|, p + |Delimited(b)| - |b|))
    ensures |b| >= LIMIT32 ==> Varint32At(data, p, limit) == None
    ensures Sized(data, p, limit) ==
            if |b| < LIMIT32 then Some((p + |Delimited(b)| - |b|, p + |Delimited(b)|)) else None
    ensures data[p + |Delimited(b)| - |b|..p + |Delimited(b)|] == b
  {
    hide PutVarint32;
    StartsSplit(data, p, limit, PutVarint32(|b|), b);
    if |b| < LIMIT32 {
      Varint32IsRead(data, p, limit, |b|);
    } else {
      LargeVarint32Fails(data, p, limit, |b|);
    }
  }

  lemma NumberIsRead(t: LType, c: Content, target: Content, data: Bytes, p: nat, limit: nat)
    requires Packable(t) && Typed(t, c) && Starts(data, p, limit, Payload(t, c))
    ensures Parsed(t, target, data, p, limit) == Some((c, p + |Payload(t, c)|))
  {
    hide PutVarint32, EncodeFixed, DecodeFixed, Varint32At, Varint64, ZigZag, UnZigZag, Unsigned, SignedValue;
    match t
    case Bool => Varint32IsRead(data, p, limit, c.n);
    case VarInt(w) =>
      SignedReadsBack(c.n, w);
      Varint64OfPut(data, p, limit, Unsigned(c.n));
    case UVarInt(w) =>
      Varint64OfPut(data, p, limit, c.n);
    case SVarInt(w) =>
      SignedReadsBack(c.n, w);
      Varint64OfPut(data, p, limit, ZigZag(c.n));
    case Fixed32 => Widths(); FixedReadsBack(c.n, 4);
    case Fixed64 => Widths(); FixedReadsBack(c.n, 8);
  }

  lemma StartsEnds(data: Bytes, p: nat, limit: nat, b: Bytes)
    requires Starts(data, p, limit, b)
    ensures p + |b| <= limit <= |data|
  {
  }

  lemma PayloadIsNotEmpty(t: LType, c: Content)
    requires Packable(t) && Typed(t, c)
    ensures Payload(t, c) != []
  {
  }

  lemma {:induction false} TagIsFound(fields: seq<Field>, k: nat)
    requires k < |fields| && forall i, j :: 0 <= i < j < |fields| ==> fields[i].tag != fields[j].tag
    ensures IndexOf(fields, fields[k].tag) == Some(k)
  {
    if k < |fields| - 1 {
      assert fields[|fields| - 1].tag != fields[k].tag;
      assert fields[..|fields| - 1][k] == fields[k];
      TagIsFound(fields[..|fields| - 1], k);
    }
  }

  // ---------- Other contents than the field's ----------

  // The number that 32 bits show of n, or 64 of a 64-bit field.
  ghost predicate IsSignedOf(r: int, n: nat, w: Width) {
    if w == 64 then -0x8000_0000_0000_0000 <= r < 0x8000_0000_0000_0000 && (r == n || r == n - LIMIT64)
    else -0x8000_0000 <= r < 0x8000_0000 && (n - r) % LIMIT32 == 0
  }

  lemma SignedOf(n: nat, w: Width)
    requires n < LIMIT64
    ensures IsSignedOf(SignedValue(n, w), n, w)
  {
  }

  ghost function InWidth(w: Width, r: int, end: nat): Option<(Content, nat)> {
    if -Half(w) <= r < Half(w) then Some((Number(r), end)) else None
  }

  // Any 64-bit number in a field of any integer type: what is out of range is an error, except that a
  // signed number that is not folded loses what 32 bits do not hold.
  lemma AnyNumberIsRead(t: LType, n: nat, target: Content, data: Bytes, p: nat, limit: nat)
    requires n < LIMIT64 && Starts(data, p, limit, PutVarint32(n))
    ensures t.UVarInt? ==>
              Parsed(t, target, data, p, limit) ==
              if n < 2 * Half(t.width) then Some((Number(n), p + |PutVarint32(n)|)) else None
    ensures t.SVarInt? ==>
              var r := if n % 2 == 0 then n / 2 else -(n / 2) - 1;
              Parsed(t, target, data, p, limit) ==
              if -Half(t.width) <= r < Half(t.width) then Some((Number(r), p + |PutVarint32(n)|)) else None
    ensures t.VarInt? ==>
              exists r :: IsSignedOf(r, n, t.width) &&
                          Parsed(t, target, data, p, limit) == InWidth(t.width, r, p + |PutVarint32(n)|)
    ensures t.Bool? && n < LIMIT32 ==>
              Parsed(t, target, data, p, limit) == Some((Number(if n == 0 then 0 else 1), p + |PutVarint32(n)|))
  {
    hide PutVarint32, Varint32At, Varint64, SignedValue, IsSignedOf;
    Varint64OfPut(data, p, limit, n);
    SignedOf(n, if t.VarInt? then t.width else 64);
    if n < LIMIT32 {
      Varint32IsRead(data, p, limit, n);
    }
  }

  // What a char array shows of b: all up to the first NUL.
  ghost predicate IsTextOf(r: Bytes, b: Bytes) {
    && r <= b && (forall i :: 0 <= i < |r| ==> r[i] != 0)
    && (|r| < |b| ==> b[|r|] == 0)
  }

  lemma {:induction false} TextOf(b: Bytes)
    ensures IsTextOf(Text(b), b)
  {
    if b != [] && b[0] != 0 {
      TextOf(b[1..]);
    }
  }

  // Any bytes in a field of any kind of bytes: a string ends at its first NUL and needs room for one, and
  // bytes of a fixed length must have it or be none, which stands for zeros.
  lemma AnyBytesAreRead(t: LType, b: Bytes, target: Content, data: Bytes, p: nat, limit: nat)
    requires |b| < LIMIT32 && Starts(data, p, limit, Delimited(b)) && |data| < ADDRESSABLE
    ensures t.ByteArray? ==>
              Parsed(t, target, data, p, limit) ==
              if |b| <= t.room then Some((Octets(b), p + |Delimited(b)|)) else None
    ensures t.CharArray? && |b| >= t.room ==> Parsed(t, target, data, p, limit) == None
    ensures t.CharArray? && |b| < t.room ==>
              exists r :: IsTextOf(r, b) && Parsed(t, target, data, p, limit) == Some((Octets(r), p + |Delimited(b)|))
    ensures t.FixedBytes? && b != [] ==>
              Parsed(t, target, data, p, limit) ==
              if |b| == t.length then Some((Octets(b), p + |Delimited(b)|)) else None
    ensures t.FixedBytes? && b == [] ==>
              Parsed(t, target, data, p, limit) == Some((Octets(seq(t.length, _ => 0)), p + |Delimited(b)|))
  {
    hide Sized, Varint32At, Starts, Delimited, Text, IsTextOf;
    DelimitedIsRead(data, p, limit, b);
    TextOf(b);
  }
}
