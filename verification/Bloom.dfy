/** Bloom filters (util/bloom.cc) and filter blocks (table/filter_block.cc). */
module Bloom {
  import opened Dbformat

  // ---------- Bits ----------

  type Word = x: nat | x < 0x1_0000_0000

  function BitMask(i: nat): bv8
    requires i < 8
  {
    (1 as bv8) << i
  }

  predicate IsSet(bytes: seq<bv8>, pos: nat)
    requires pos / 8 < |bytes|
  {
    bytes[pos / 8] & BitMask(pos % 8) != 0
  }

  function SetBit(bytes: seq<bv8>, pos: nat): (r: seq<bv8>)
    requires pos / 8 < |bytes|
    ensures |r| == |bytes|
  {
    bytes[pos / 8 := bytes[pos / 8] | BitMask(pos % 8)]
  }

  lemma OrSets(a: bv8, m: bv8, m': bv8)
    ensures m != 0 ==> (a | m) & m != 0
    ensures a & m' != 0 ==> (a | m) & m' != 0
  {
  }

  lemma MasksAreApart(i: nat, j: nat)
    requires i < 8 && j < 8 && i != j
    ensures BitMask(i) & BitMask(j) == 0
  {
    var a, b := i as bv8, j as bv8;
    assert BitMask(i) == (1 as bv8) << a && BitMask(j) == (1 as bv8) << b;
    ShiftsAreApart(a, b);
  }

  lemma ShiftsAreApart(a: bv8, b: bv8)
    requires a < 8 && b < 8 && a != b
    ensures ((1 as bv8) << a) & ((1 as bv8) << b) == 0
  {
  }

  lemma OrAdds(a: bv8, m: bv8, m': bv8)
    requires m & m' == 0
    ensures (a | m) & m' == a & m'
  {
  }

  lemma MaskIsNotZero(i: nat)
    requires i < 8
    ensures BitMask(i) != 0
  {
  }

  lemma BitOfByte(a: bv8, i: nat, j: nat)
    requires i < 8 && j < 8
    ensures (a | BitMask(i)) & BitMask(j) != 0 <==> a & BitMask(j) != 0 || i == j
  {
    hide BitMask;
    MaskIsNotZero(i);
    OrSets(a, BitMask(i), BitMask(j));
    if i != j {
      MasksAreApart(i, j);
      OrAdds(a, BitMask(i), BitMask(j));
    }
  }

  lemma SetBitSets(bytes: seq<bv8>, pos: nat, other: nat)
    requires pos / 8 < |bytes| && other / 8 < |bytes|
    ensures IsSet(SetBit(bytes, pos), other) <==> IsSet(bytes, other) || other == pos
  {
    hide BitMask;
    if pos / 8 == other / 8 {
      BitOfByte(bytes[pos / 8], pos % 8, other % 8);
    }
  }

  // ---------- Probes ----------

  // Rotate right by 17 bits.
  function Delta(h: Word): Word { h / 0x2_0000 + (h % 0x2_0000) * 0x8000 }

  function NextProbe(h: Word, delta: Word): Word { (h + delta) % 0x1_0000_0000 }

  // The hash value of probe j, in 32-bit arithmetic.
  function Probe(h: Word, j: nat): Word {
    if j == 0 then h else NextProbe(Probe(h, j - 1), Delta(h))
  }

  ghost predicate AllProbesSet(bytes: seq<bv8>, h: Word, n: nat)
    requires |bytes| > 0
  {
    forall j {:trigger Probe(h, j)} :: 0 <= j < n ==> IsSet(bytes, Probe(h, j) % (|bytes| * 8))
  }

  // What a filter (the bit array and then the number of probes) answers for a hash value.
  ghost predicate Matches(filter: seq<bv8>, h: Word) {
    |filter| >= 2
    && var k := filter[|filter| - 1] as nat;
       k > 30 || AllProbesSet(filter[..|filter| - 1], h, k)
  }

  // The size of the bit array: at least 64 bits, in whole bytes.
  function FilterBytes(bits: nat): (n: nat)
    ensures n >= 8 && n * 8 >= bits
  {
    ((if bits < 64 then 64 else bits) + 7) / 8
  }

  lemma NoByteTooMany(bits: nat, n: nat)
    ensures n >= FilterBytes(bits) <==> n * 8 >= bits && n * 8 >= 64
  {
  }

  class BloomFilterPolicy {
    const bitsPerKey: nat
    const k: nat
    const hash: Bytes -> Word

    // `probes` stands for bits_per_key times ln 2, rounded down.
    constructor (bits: nat, probes: nat, h: Bytes -> Word)
      ensures Valid() && bitsPerKey == bits && hash == h
      ensures (1 <= probes <= 30 ==> k == probes) && (probes < 1 ==> k == 1) && (probes > 30 ==> k == 30)
    {
      bitsPerKey, hash := bits, h;
      k := if probes < 1 then 1 else if probes > 30 then 30 else probes;
    }

    predicate Valid() { 1 <= k <= 30 }

    // Appends to dst a filter with the probes of all the keys, and no other bits, set.
    method CreateFilter(keys: seq<Bytes>, dst: seq<bv8>) returns (r: seq<bv8>)
      requires Valid()
      ensures |r| == |dst| + FilterBytes(|keys| * bitsPerKey) + 1 && dst <= r && r[|r| - 1] == k as bv8
      ensures forall i :: 0 <= i < |keys| ==> Matches(r[|dst|..], hash(keys[i]))
      ensures OnlyProbes(r[|dst|..|r| - 1], Hashes(keys), k)
    {
      hide AllProbesSet, OnlyProbes, FilterBytes;
      var bytes := FilterBytes(|keys| * bitsPerKey);
      var bitArray: seq<bv8> := seq(bytes, _ => 0);
      NoneSet(bitArray, k);
      assert Hashes(keys[..0]) == [];
      for i := 0 to |keys|
        invariant |bitArray| == bytes
        invariant forall m :: 0 <= m < i ==> AllProbesSet(bitArray, hash(keys[m]), k)
        invariant OnlyProbes(bitArray, Hashes(keys[..i]), k)
      {
        ghost var before := bitArray;
        bitArray := AddProbes(bitArray, hash(keys[i]));
        forall m | 0 <= m < i ensures AllProbesSet(bitArray, hash(keys[m]), k) {
          ProbesStaySet(before, bitArray, hash(keys[m]), k);
        }
        MoreProbes(before, bitArray, Hashes(keys[..i]), hash(keys[i]), k);
        assert Hashes(keys[..i + 1]) == Hashes(keys[..i]) + [hash(keys[i])];
      }
      assert keys[..|keys|] == keys;
      r := dst + (bitArray + [k as bv8]);
      assert r[|dst|..] == bitArray + [k as bv8];
      assert (bitArray + [k as bv8])[..bytes] == bitArray;
      assert r[|dst|..|r| - 1] == bitArray;
    }

    ghost function Hashes(keys: seq<Bytes>): (r: seq<Word>)
      ensures |r| == |keys| && forall i :: 0 <= i < |r| ==> r[i] == hash(keys[i])
    {
      seq(|keys|, i requires 0 <= i < |keys| => hash(keys[i]))
    }

    // Double hashing: sets the k bits of one key.
    method AddProbes(bitArray: seq<bv8>, h0: Word) returns (r: seq<bv8>)
      requires |bitArray| > 0
      ensures |r| == |bitArray| && AllProbesSet(r, h0, k) && StaySet(bitArray, r) && Added(bitArray, r, h0, k)
    {
      hide IsSet, SetBit, Delta;
      r := bitArray;
      var bits := |bitArray| * 8;
      var h := h0;
      var delta := Delta(h);
      for j := 0 to k
        invariant |r| == |bitArray| && h == Probe(h0, j)
        invariant AllProbesSet(r, h0, j) && StaySet(bitArray, r) && Added(bitArray, r, h0, j)
      {
        var bitpos := h % bits;
        forall p: nat | p < bits ensures IsSet(SetBit(r, bitpos), p) <==> IsSet(r, p) || p == bitpos {
          SetBitSets(r, bitpos, p);
        }
        r := SetBit(r, bitpos);
        h := NextProbe(h, delta);
      }
    }

    method KeyMayMatch(key: Bytes, filter: seq<bv8>) returns (b: bool)
      ensures b <==> Matches(filter, hash(key))
    {
      hide IsSet, Delta;
      var len := |filter|;
      if len < 2 {
        return false;
      }
      var bitArray := filter[..len - 1];
      var bits := (len - 1) * 8;
      var probes := filter[len - 1] as nat;
      if probes > 30 {
        // reserved for other encodings
        return true;
      }
      var h := hash(key);
      var delta := Delta(h);
      for j := 0 to probes
        invariant h == Probe(hash(key), j)
        invariant AllProbesSet(bitArray, hash(key), j)
      {
        var bitpos := h % bits;
        if !IsSet(bitArray, bitpos) {
          assert !IsSet(bitArray, Probe(hash(key), j) % bits);
          return false;
        }
        h := NextProbe(h, delta);
      }
      return true;
    }
  }

  ghost predicate StaySet(a: seq<bv8>, b: seq<bv8>)
    requires |a| == |b|
  {
    forall p: nat :: p / 8 < |a| && IsSet(a, p) ==> IsSet(b, p)
  }

  lemma ProbesStaySet(a: seq<bv8>, b: seq<bv8>, h: Word, n: nat)
    requires 0 < |a| == |b| && StaySet(a, b) && AllProbesSet(a, h, n)
    ensures AllProbesSet(b, h, n)
  {
    hide IsSet;
  }

  // A bit is set in b only if it was in a or is one of the first n probes.
  ghost predicate Added(a: seq<bv8>, b: seq<bv8>, h: Word, n: nat)
    requires 0 < |a| == |b|
  {
    forall p: nat :: p / 8 < |a| && IsSet(b, p) && !IsSet(a, p) ==> exists j ::
        0 <= j < n && p == Probe(h, j) % (|a| * 8)
  }

  ghost predicate IsProbe(p: nat, bits: nat, hashes: seq<Word>, k: nat) {
    bits > 0 && exists m, j :: 0 <= m < |hashes| && 0 <= j < k && p == Probe(hashes[m], j) % bits
  }

  // Every bit that is set is a probe of one of the hash values.
  ghost predicate OnlyProbes(bytes: seq<bv8>, hashes: seq<Word>, k: nat) {
    forall p: nat :: p / 8 < |bytes| && IsSet(bytes, p) ==> IsProbe(p, |bytes| * 8, hashes, k)
  }

  lemma NoneSet(bytes: seq<bv8>, k: nat)
    requires forall i :: 0 <= i < |bytes| ==> bytes[i] == 0
    ensures OnlyProbes(bytes, [], k)
  {
    forall p: nat | p / 8 < |bytes| ensures !IsSet(bytes, p) {
      NoBits(BitMask(p % 8));
    }
  }

  lemma NoBits(m: bv8)
    ensures 0 & m == 0
  {
  }

  lemma MoreProbes(a: seq<bv8>, b: seq<bv8>, hashes: seq<Word>, h: Word, k: nat)
    requires 0 < |a| == |b| && OnlyProbes(a, hashes, k) && Added(a, b, h, k)
    ensures OnlyProbes(b, hashes + [h], k)
  {
    hide IsSet;
    forall p: nat | p / 8 < |b| && IsSet(b, p) ensures IsProbe(p, |b| * 8, hashes + [h], k) {
      if IsSet(a, p) {
        assert IsProbe(p, |a| * 8, hashes, k);
        var m, j :| 0 <= m < |hashes| && 0 <= j < k && p == Probe(hashes[m], j) % (|a| * 8);
        assert (hashes + [h])[m] == hashes[m];
      } else {
        var j :| 0 <= j < k && p == Probe(h, j) % (|a| * 8);
        assert (hashes + [h])[|hashes|] == h;
      }
    }
  }
}
