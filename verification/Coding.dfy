/** Variable-length integers (util/coding.cc): seven bits a byte, low bits first, as in the section
    "Base 128 Varints" of the Protocol Buffers Encoding specification. */
module Coding {
  import opened Dbformat

  const LIMIT32: nat := 0x1_0000_0000
  const LIMIT64: nat := 0x1_0000_0000_0000_0000

  // PutVarint32 and PutVarint64: the same bytes, whatever the width.
  function PutVarint32(n: nat): (r: Bytes)
    ensures 1 <= |r|
  {
    if n < 128 then [n] else [n % 128 + 128] + PutVarint32(n / 128)
  }

  // The number that at most `left` bytes from p on encode, and the position after it.
  function GetVarint(data: Bytes, p: nat, limit: nat, left: nat): (r: Option<(nat, nat)>)
    requires limit <= |data|
    ensures r.Some? ==> p < r.value.1 <= limit
    decreases left
  {
    if left == 0 || p >= limit then None
    else if data[p] < 128 then Some((data[p] as nat, p + 1))
    else Combined(data[p] - 128, 128, GetVarint(data, p + 1, limit, left - 1))
  }

  function Combined(low: nat, scale: nat, rest: Option<(nat, nat)>): Option<(nat, nat)> {
    if rest.None? then None else Some((low + scale * rest.value.0, rest.value.1))
  }

  function Power128(k: nat): (r: nat)
    ensures r > 0
  {
    if k == 0 then 1 else 128 * Power128(k - 1)
  }

  // The bytes b lie in data[p..limit] from p on.
  ghost predicate Starts(data: Bytes, p: nat, limit: nat, b: Bytes) {
    p + |b| <= limit <= |data| && data[p..p + |b|] == b
  }

  lemma StartsSplit(data: Bytes, p: nat, limit: nat, a: Bytes, b: Bytes)
    requires Starts(data, p, limit, a + b)
    ensures Starts(data, p, limit, a) && Starts(data, p + |a|, limit, b)
  {
    var whole := data[p..p + |a + b|];
    assert data[p..p + |a|] == whole[..|a|] == (a + b)[..|a|] == a;
    assert data[p + |a|..p + |a| + |b|] == whole[|a|..] == (a + b)[|a|..] == b;
  }

  lemma {:induction false} GetUndoesPut(data: Bytes, p: nat, limit: nat, n: nat, left: nat)
    requires Starts(data, p, limit, PutVarint32(n)) && n < Power128(left) && left > 0
    ensures GetVarint(data, p, limit, left) == Some((n, p + |PutVarint32(n)|))
    decreases left
  {
    var b := PutVarint32(n);
    assert data[p] == data[p..p + |b|][0] == b[0];
    if n >= 128 {
      assert left > 1 by {
        assert Power128(1) == 128 * Power128(0);
      }
      assert data[p] as nat == n % 128 + 128 && n == n % 128 + 128 * (n / 128);
      assert data[p + 1..p + |b|] == data[p..p + |b|][1..] == b[1..] == PutVarint32(n / 128);
      GetUndoesPut(data, p + 1, limit, n / 128, left - 1);
    }
  }

  // A varint ends with the first byte below 128, if that comes soon enough.
  lemma {:induction false} GetVarintEnds(data: Bytes, p: nat, limit: nat, left: nat)
    requires limit <= |data|
    ensures GetVarint(data, p, limit, left).Some? <==> exists i :: p <= i < limit && i < p + left && data[i] < 128
    ensures var r := GetVarint(data, p, limit, left);
            r.Some? ==> data[r.value.1 - 1] < 128 && forall i :: p <= i < r.value.1 - 1 ==> data[i] >= 128
    decreases left
  {
    if left > 0 && p < limit && data[p] >= 128 {
      GetVarintEnds(data, p + 1, limit, left - 1);
    }
  }

  // All bytes of an encoded number but the last are 128 or more.
  lemma {:induction false} PutContinues(n: nat, i: nat)
    requires i < |PutVarint32(n)|
    ensures PutVarint32(n)[i] >= 128 <==> i < |PutVarint32(n)| - 1
    decreases n
  {
    if n >= 128 && i > 0 {
      PutContinues(n / 128, i - 1);
    }
  }

  lemma Distributes(low: nat, scale: nat, b: nat, rest: Option<(nat, nat)>)
    ensures Combined(low, scale, Combined(b, 128, rest)) == Combined(low + b * scale, scale * 128, rest)
  {
    if rest.Some? {
      var m := rest.value.0;
      assert scale * (b + 128 * m) == scale * b + scale * (128 * m) == b * scale + (scale * 128) * m;
    }
  }

  // The values the two decoders give: bits above the integer's width are cut off.
  function Varint32(data: Bytes, p: nat, limit: nat): (r: Option<(nat, nat)>)
    requires limit <= |data|
    ensures r.Some? ==> p < r.value.1 <= limit
  {
    Cut(GetVarint(data, p, limit, 5), LIMIT32)
  }

  function Varint64(data: Bytes, p: nat, limit: nat): (r: Option<(nat, nat)>)
    requires limit <= |data|
    ensures r.Some? ==> p < r.value.1 <= limit
  {
    Cut(GetVarint(data, p, limit, 10), LIMIT64)
  }

  function Cut(r: Option<(nat, nat)>, width: nat): Option<(nat, nat)>
    requires width > 0
  {
    if r.None? then None else Some((r.value.0 % width, r.value.1))
  }

  // The loop the two decoders share: at most `most` bytes are taken.
  method GetVarintLoop(data: Bytes, p0: nat, limit: nat, most: nat) returns (r: Option<(nat, nat)>)
    requires p0 <= limit <= |data|
    ensures r == GetVarint(data, p0, limit, most)
  {
    hide Combined;
    var result: nat, p, shift, scale: nat := 0, p0, 0, 1;
    CombinedNone(GetVarint(data, p0, limit, most));
    while shift < 7 * most && p < limit
      invariant p0 <= p <= limit && p <= p0 + most && shift == 7 * (p - p0)
      invariant GetVarint(data, p0, limit, most) == Combined(result, scale, GetVarint(data, p, limit, most - (p - p0)))
    {
      var b := data[p] as nat;
      p := p + 1;
      if b >= 128 {
        // more bytes are present
        Distributes(result, scale, b - 128, GetVarint(data, p, limit, most - (p - p0)));
        result := result + (b - 128) * scale;
      } else {
        CombinedSome(result, scale, b, p);
        r := Some((result + b * scale, p));
        return;
      }
      shift, scale := shift + 7, scale * 128;
    }
    CombinedOfNone(result, scale);
    r := None;
  }

  method GetVarint32Ptr(data: Bytes, p0: nat, limit: nat) returns (r: Option<(nat, nat)>)
    requires p0 <= limit <= |data|
    ensures r == Varint32(data, p0, limit)
    ensures forall n: nat ::
              n < LIMIT32 && Starts(data, p0, limit, PutVarint32(n)) ==> r == Some((n, p0 + |PutVarint32(n)|))
  {
    hide PutVarint32, Starts, Power128;
    AllPutsAreGot(data, p0, limit);
    r := GetVarintLoop(data, p0, limit, 5);
    r := Cut(r, LIMIT32);
  }

  method GetVarint64Ptr(data: Bytes, p0: nat, limit: nat) returns (r: Option<(nat, nat)>)
    requires p0 <= limit <= |data|
    ensures r == Varint64(data, p0, limit)
    ensures forall n: nat ::
              n < LIMIT64 && Starts(data, p0, limit, PutVarint32(n)) ==> r == Some((n, p0 + |PutVarint32(n)|))
  {
    hide Starts, PutVarint32, GetVarint, Power128;
    forall n: nat | n < LIMIT64 && Starts(data, p0, limit, PutVarint32(n))
      ensures Varint64(data, p0, limit) == Some((n, p0 + |PutVarint32(n)|))
    {
      Varint64OfPut(data, p0, limit, n);
    }
    r := GetVarintLoop(data, p0, limit, 10);
    r := Cut(r, LIMIT64);
  }

  lemma Varint32OfPut(data: Bytes, p: nat, limit: nat, n: nat)
    requires n < LIMIT32 && Starts(data, p, limit, PutVarint32(n))
    ensures Varint32(data, p, limit) == Some((n, p + |PutVarint32(n)|))
  {
    AllPutsAreGot(data, p, limit);
  }

  lemma Varint64OfPut(data: Bytes, p: nat, limit: nat, n: nat)
    requires n < LIMIT64 && Starts(data, p, limit, PutVarint32(n))
    ensures Varint64(data, p, limit) == Some((n, p + |PutVarint32(n)|))
  {
    hide PutVarint32, GetVarint, Power128;
    TenPowers();
    GetUndoesPut(data, p, limit, n, 10);
  }

  lemma TenPowers()
    ensures LIMIT64 <= Power128(10)
  {
    assert Power128(10) == 128 * (128 * (128 * (128 * (128 * Power128(5)))));
    FivePowers();
  }

  lemma AllPutsAreGot(data: Bytes, p: nat, limit: nat)
    requires limit <= |data|
    ensures forall n: nat :: n < LIMIT32 && Starts(data, p, limit, PutVarint32(n)) ==>
              GetVarint(data, p, limit, 5) == Some((n, p + |PutVarint32(n)|)) && n % LIMIT32 == n
  {
    forall n: nat | n < LIMIT32 && Starts(data, p, limit, PutVarint32(n))
      ensures GetVarint(data, p, limit, 5) == Some((n, p + |PutVarint32(n)|)) && n % LIMIT32 == n
    {
      FivePowers();
      GetUndoesPut(data, p, limit, n, 5);
    }
  }

  lemma FivePowers()
    ensures LIMIT32 <= Power128(5)
  {
    assert Power128(5) == 128 * (128 * (128 * (128 * (128 * Power128(0)))));
  }

  lemma CombinedNone(rest: Option<(nat, nat)>)
    ensures Combined(0, 1, rest) == rest
  {
  }

  lemma CombinedOfNone(low: nat, scale: nat)
    ensures Combined(low, scale, None) == None
  {
  }

  lemma CombinedSome(low: nat, scale: nat, b: nat, p: nat)
    ensures Combined(low, scale, Some((b, p))) == Some((low + b * scale, p))
  {
  }

  // ---------- Fixed-width integers, low byte first ----------

  function EncodeFixed(n: nat, width: nat): (r: Bytes)
    ensures |r| == width
  {
    if width == 0 then [] else [n % 256] + EncodeFixed(n / 256, width - 1)
  }

  function DecodeFixed(b: Bytes): nat {
    if b == [] then 0 else b[0] as nat + 256 * DecodeFixed(b[1..])
  }

  function Power256(k: nat): (r: nat)
    ensures r > 0
  {
    if k == 0 then 1 else 256 * Power256(k - 1)
  }

  lemma {:induction false} FixedReadsBack(n: nat, width: nat)
    requires n < Power256(width)
    ensures DecodeFixed(EncodeFixed(n, width)) == n
  {
    if width > 0 {
      FixedReadsBack(n / 256, width - 1);
      assert EncodeFixed(n, width)[1..] == EncodeFixed(n / 256, width - 1);
    }
  }

  lemma Widths()
    ensures Power256(4) == LIMIT32 && Power256(8) == LIMIT64
  {
    assert Power256(4) == 256 * (256 * (256 * (256 * Power256(0))));
    assert Power256(8) == 256 * (256 * (256 * (256 * Power256(4))));
  }

  lemma {:induction false} DecodeFixedFits(b: Bytes)
    ensures DecodeFixed(b) < Power256(|b|)
  {
    if b != [] {
      DecodeFixedFits(b[1..]);
    }
  }
}
