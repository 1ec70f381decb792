/** What nanopb's decoder makes of bytes (ios/Pods/nanopb/pb_decode.c), as functions on the stretch of a
    buffer that a stream has left. */
module PbParse {
  import opened Dbformat
  import opened Coding
  import opened Pb

  // ---------- Numbers ----------

  // pb_decode_varint32: bytes beyond the fifth must be those of a zero or of a negative number.
  function Varint32At(data: Bytes, p: nat, limit: nat): (r: Option<(nat, nat)>)
    requires limit <= |data|
    ensures r.Some? ==> p < r.value.1 <= limit && r.value.0 < LIMIT32
  {
    if p >= limit then None
    else if data[p] < 128 then Some((data[p], p + 1))
    else MoreOf32(data, p + 1, limit, 7, data[p] - 128)
  }

  // b << bitpos.
  function Shifted(b: nat, bitpos: nat): nat {
    if bitpos == 0 then b else 2 * Shifted(b, bitpos - 1)
  }

  // a | b.
  function Or(a: nat, b: nat): nat {
    if a == 0 then b else (if a % 2 == 1 || b % 2 == 1 then 1 else 0) + 2 * Or(a / 2, b / 2)
  }

  lemma {:induction false} OrFits(a: nat, b: nat, k: nat)
    requires a < Shifted(1, k) && b < Shifted(1, k)
    ensures Or(a, b) < Shifted(1, k)
  {
    if k > 0 && a > 0 {
      OrFits(a / 2, b / 2, k - 1);
    }
  }

  // Bits of a number above those of another are added to it.
  lemma {:induction false} OrAdds(a: nat, b: nat, k: nat)
    requires a < Shifted(1, k)
    ensures Or(a, Shifted(b, k)) == a + Shifted(b, k)
  {
    if k > 0 {
      OrAdds(a / 2, b, k - 1);
    }
  }

  lemma FourMore(b: nat, bitpos: nat)
    ensures Shifted(b, bitpos + 3) == 8 * Shifted(b, bitpos)
    ensures Shifted(b, bitpos + 4) == 0x10 * Shifted(b, bitpos)
  {
    assert Shifted(b, bitpos + 1) == 2 * Shifted(b, bitpos);
    assert Shifted(b, bitpos + 2) == 2 * Shifted(b, bitpos + 1);
    assert Shifted(b, bitpos + 3) == 2 * Shifted(b, bitpos + 2);
  }

  lemma ShiftsOf(b: nat)
    ensures Shifted(b, 0) == b && Shifted(b, 3) == 8 * b
    ensures Shifted(b, 7) == 0x80 * b && Shifted(b, 14) == 0x4000 * b
    ensures Shifted(b, 21) == 0x20_0000 * b && Shifted(b, 28) == 0x1000_0000 * b && Shifted(b, 32) == LIMIT32 * b
  {
    FourMore(b, 0);
    FourMore(b, 3);
    FourMore(b, 7);
    FourMore(b, 11);
    FourMore(b, 14);
    FourMore(b, 18);
    FourMore(b, 21);
    FourMore(b, 25);
    FourMore(b, 28);
  }

  function SignExtension(bitpos: nat): byte { if bitpos < 63 then 255 else 1 }

  predicate Overflows(result: nat, b: byte, bitpos: nat) {
    bitpos >= 32 && b % 128 != 0 && (result < 0x8000_0000 || b != SignExtension(bitpos))
  }

  function With(result: nat, b: byte, bitpos: nat): (r: nat)
    requires result < LIMIT32
    ensures r < LIMIT32
  {
    ShiftsOf(1);
    OrFits(result, Shifted(b % 128, bitpos) % LIMIT32, 32);
    if bitpos >= 32 then result else Or(result, Shifted(b % 128, bitpos) % LIMIT32)
  }

  // The position is an eight-bit number, which goes around once 36 bytes are behind it.
  function MoreOf32(data: Bytes, p: nat, limit: nat, bitpos: nat, result: nat): (r: Option<(nat, nat)>)
    requires limit <= |data| && result < LIMIT32
    ensures r.Some? ==> p < r.value.1 <= limit && r.value.0 < LIMIT32
    decreases limit - p
  {
    if p >= limit || Overflows(result, data[p], bitpos) then None
    else if data[p] >= 128 then MoreOf32(data, p + 1, limit, (bitpos + 7) % 256, With(result, data[p], bitpos))
    else if bitpos == 28 && data[p] >= 16 then None
    else Some((With(result, data[p], bitpos), p + 1))
  }

  function Signed(n: nat, w: Width): int {
    if n < Half(w) then n else n - 2 * Half(w)
  }

  function UnZigZag(n: nat): int { if n % 2 == 1 then -(n / 2) - 1 else n / 2 }

  // pb_dec_varint casts to 32 bits first, unless the field has 64.
  function SignedValue(n: nat, w: Width): int {
    if w == 64 then Signed(n, 64) else Signed(n % LIMIT32, 32)
  }

  function InRange(low: int, n: int, high: int, end: nat): Option<(Content, nat)> {
    if low <= n < high then Some((Number(n), end)) else None
  }

  // ---------- Fields ----------

  function Skipped(data: Bytes, p: nat, limit: nat, wireType: nat): (r: Option<nat>)
    requires p <= limit <= |data|
    ensures r.Some? ==> p < r.value <= limit
  {
    if wireType == 0 then SkippedVarint(data, p, limit)
    else if wireType == 1 then Ahead(p, 8, limit)
    else if wireType == 2 then
      var size := Varint32At(data, p, limit);
      if size.None? then None else Ahead(size.value.1, size.value.0, limit)
    else if wireType == 5 then Ahead(p, 4, limit)
    else None
  }

  function SkippedVarint(data: Bytes, p: nat, limit: nat): (r: Option<nat>)
    requires limit <= |data|
    ensures r.Some? ==> p < r.value <= limit
    decreases limit - p
  {
    if p >= limit then None else if data[p] < 128 then Some(p + 1) else SkippedVarint(data, p + 1, limit)
  }

  function Ahead(p: nat, count: nat, limit: nat): (r: Option<nat>)
    ensures r.Some? ==> r.value == p + count <= limit
  {
    if p + count <= limit then Some(p + count) else None
  }

  // The position of the field with this tag.
  function IndexOf(fields: seq<Field>, tag: nat): (i: Option<nat>)
    ensures i.Some? ==> i.value < |fields| && fields[i.value].tag == tag
    ensures i.None? ==> forall j :: 0 <= j < |fields| ==> fields[j].tag != tag
  {
    if fields == [] then None
    else if fields[|fields| - 1].tag == tag then Some(|fields| - 1)
    else IndexOf(fields[..|fields| - 1], tag)
  }

  const MAX_REQUIRED_FIELDS: nat := 64

  // How many of the first i fields are required.
  function RequiredBefore(fields: seq<Field>, i: nat): (n: nat)
    requires i <= |fields|
  {
    if i == 0 then 0 else RequiredBefore(fields, i - 1) + (if fields[i - 1].htype.Required? then 1 else 0)
  }

  function SeenWith(fields: seq<Field>, seen: set<nat>, i: nat): set<nat>
    requires i < |fields|
  {
    var n := RequiredBefore(fields, i);
    if fields[i].htype.Required? && n < MAX_REQUIRED_FIELDS then seen + {n} else seen
  }

  // All required fields were there; the source keeps track of the first 64 only.
  predicate RequiredSeen(fields: seq<Field>, seen: set<nat>) {
    var count := RequiredBefore(fields, |fields|);
    forall n :: 0 <= n < (if count > MAX_REQUIRED_FIELDS then MAX_REQUIRED_FIELDS else count) ==> n in seen
  }

  // Writing a member of a union takes the place of the others.
  function Stored(fields: seq<Field>, slots: seq<Slot>, i: nat, s: Slot): (r: seq<Slot>)
    requires |slots| == |fields| && i < |fields|
    ensures |r| == |fields|
  {
    seq(|fields|, j requires 0 <= j < |fields| =>
      if j == i then s else if SameUnion(fields[i], fields[j]) then InitialSlot(fields[j]) else slots[j])
  }

  function ContentOf(s: Slot): Content { if s.One? then s.content else Number(0) }

  function ItemsOf(s: Slot): seq<Content> { if s.Many? then s.items else [] }

  // What a singular field is decoded into: what is there already, or a fresh member of a union.
  function Target(f: Field, s: Slot): Content {
    if f.htype.OneOf? && !IsPresent(s) then InitialContent(f.ltype, f.initial) else ContentOf(s)
  }

  function SlotsOf(fields: seq<Field>, c: Content): (slots: seq<Slot>)
    ensures |slots| == |fields|
  {
    if c.Struct? && |c.slots| == |fields| then c.slots else Defaults(fields)
  }

  function Sized(data: Bytes, p: nat, limit: nat): (r: Option<(nat, nat)>)
    requires limit <= |data|
    ensures r.Some? ==> p < r.value.0 <= r.value.1 <= limit
  {
    var size := Varint32At(data, p, limit);
    if size.None? || size.value.1 + size.value.0 > limit then None
    else Some((size.value.1, size.value.1 + size.value.0))
  }

  // The content at p and the position after it.
  function Parsed(t: LType, target: Content, data: Bytes, p: nat, limit: nat): (r: Option<(Content, nat)>)
    requires p <= limit <= |data|
    ensures r.Some? ==> p <= r.value.1 <= limit
    decreases t, 0, 0
  {
    match t
    case Bool =>
      var v := Varint32At(data, p, limit);
      if v.None? then None else Some((Number(if v.value.0 != 0 then 1 else 0), v.value.1))
    case VarInt(w) =>
      var v := Varint64(data, p, limit);
      if v.None? then None else InRange(-Half(w), SignedValue(v.value.0, w), Half(w), v.value.1)
    case UVarInt(w) =>
      var v := Varint64(data, p, limit);
      if v.None? then None else InRange(0, v.value.0, 2 * Half(w), v.value.1)
    case SVarInt(w) =>
      var v := Varint64(data, p, limit);
      if v.None? then None else InRange(-Half(w), UnZigZag(v.value.0), Half(w), v.value.1)
    case Fixed32 => if p + 4 > limit then None else Some((Number(DecodeFixed(data[p..p + 4])), p + 4))
    case Fixed64 => if p + 8 > limit then None else Some((Number(DecodeFixed(data[p..p + 8])), p + 8))
    case ByteArray(room) =>
      var z := Sized(data, p, limit);
      if z.None? || z.value.1 - z.value.0 > room then None
      else Some((Octets(data[z.value.0..z.value.1]), z.value.1))
    case CharArray(room) =>
      var z := Sized(data, p, limit);
      if z.None? || z.value.1 - z.value.0 + 1 > room then None
      else Some((Octets(Text(data[z.value.0..z.value.1])), z.value.1))
    case Submessage(fields) =>
      var z := Sized(data, p, limit);
      if z.None? then None
      else
        var m := Message(fields, data, z.value.0, z.value.1, SlotsOf(fields, target), {});
        if m.None? then None else Some((Struct(m.value), z.value.1))
    case FixedBytes(length) =>
      var size := Varint32At(data, p, limit);
      if size.None? then None
      else if size.value.0 == 0 then Some((Octets(seq(length, _ => 0)), size.value.1))
      else if size.value.0 != length || size.value.1 + length > limit then None
      else Some((Octets(data[size.value.1..size.value.1 + length]), size.value.1 + length))
  }

  // What a char array shows of the bytes copied into it.
  function Text(b: Bytes): Bytes {
    if b == [] || b[0] == 0 then [] else [b[0]] + Text(b[1..])
  }

  // Items one after the other up to the end, as long as there is room.
  function Packed(t: LType, data: Bytes, p: nat, limit: nat, items: seq<Content>, most: nat): (r: Option<seq<Content>>)
    requires p <= limit <= |data|
    decreases t, 1, if |items| <= most then most - |items| else 0
  {
    if p == limit then Some(items)
    else if |items| >= most then None
    else
      var c := Parsed(t, InitialContent(t, Number(0)), data, p, limit);
      if c.None? then None else Packed(t, data, c.value.1, limit, items + [c.value.0], most)
  }

  // decode_static_field
  function ParsedSlot(f: Field, wireType: nat, s: Slot, data: Bytes, p: nat, limit: nat): (r: Option<(Slot, nat)>)
    requires p <= limit <= |data|
    ensures r.Some? ==> p <= r.value.1 <= limit
    decreases f, 0, 0
  {
    if !f.htype.Repeated? then
      var c := Parsed(f.ltype, Target(f, s), data, p, limit);
      if c.None? then None else Some((One(true, c.value.0), c.value.1))
    else if wireType == LENGTH_DELIMITED && Packable(f.ltype) then
      var z := Sized(data, p, limit);
      if z.None? then None
      else
        var items := Packed(f.ltype, data, z.value.0, z.value.1, ItemsOf(s), f.htype.arraySize);
        if items.None? then None else Some((Many(items.value), z.value.1))
    else if |ItemsOf(s)| >= f.htype.arraySize then None
    else
      var c := Parsed(f.ltype, InitialContent(f.ltype, Number(0)), data, p, limit);
      if c.None? then None else Some((Many(ItemsOf(s) + [c.value.0]), c.value.1))
  }

  // pb_decode_noinit on data[p..limit]: fields in any order, unknown ones skipped, a zero tag ends it.
  function Message(
      fields: seq<Field>, data: Bytes, p: nat, limit: nat, slots: seq<Slot>, seen: set<nat>): (r: Option<seq<Slot>>)
    requires p <= limit <= |data| && |slots| == |fields|
    ensures r.Some? ==> |r.value| == |fields|
    decreases fields, 0, limit - p
  {
    if p == limit then Finished(fields, slots, seen)
    else
      var key := Varint32At(data, p, limit);
      if key.None? then None
      else if key.value.0 == 0 then Finished(fields, slots, seen)
      else
        var i := IndexOf(fields, key.value.0 / 8);
        if i.None? then
          var q := if fields == [] && key.value.0 < 8 then AfterBool(data, key.value.1, limit)
                   else Skipped(data, key.value.1, limit, key.value.0 % 8);
          if q.None? then None else Message(fields, data, q.value, limit, slots, seen)
        else
          var s := ParsedSlot(fields[i.value], key.value.0 % 8, slots[i.value], data, key.value.1, limit);
          if s.None? then None
          else
            Message(fields, data, s.value.1, limit, Stored(fields, slots, i.value, s.value.0),
                    SeenWith(fields, seen, i.value))
  }

  // The descriptor of an empty message is just its end mark, which has tag 0 and the type of a required
  // bool, so that a field numbered 0 is found there.
  function AfterBool(data: Bytes, p: nat, limit: nat): (r: Option<nat>)
    requires limit <= |data|
    ensures r.Some? ==> p < r.value <= limit
  {
    var v := Varint32At(data, p, limit);
    if v.None? then None else Some(v.value.1)
  }

  function Finished(fields: seq<Field>, slots: seq<Slot>, seen: set<nat>): Option<seq<Slot>> {
    if RequiredSeen(fields, seen) then Some(slots) else None
  }
}
