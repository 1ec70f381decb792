/** nanopb's messages (ios/Pods/nanopb/pb.h, pb_encode.c): field descriptors with static allocation, the
    structures they describe, and the bytes such a structure has by the Protocol Buffers Encoding
    specification, sections "Base 128 Varints", "Signed Integers" and "Packed Repeated Fields". */
module Pb {
  import opened Dbformat
  import opened Coding

  // The bits of a C integer.
  type Width = w: nat | w in {8, 16, 32, 64} witness 8

  // What a field holds.  `room` is what fits in a bytes array, or in a char array with its NUL.
  datatype LType =
    | Bool
    | VarInt(width: Width)
    | UVarInt(width: Width)
    | SVarInt(width: Width)
    | Fixed32
    | Fixed64
    | ByteArray(room: nat)
    | CharArray(room: nat)
    | Submessage(fields: seq<Field>)
    | FixedBytes(length: nat)

  // How often it occurs.  A proto3 optional field has no flag: it is there if it is not zero.
  datatype HType = Required | Optional(hasFlag: bool) | Repeated(arraySize: nat) | OneOf(union: nat)

  datatype Field = Field(tag: nat, ltype: LType, htype: HType, initial: Content)

  // A char array is given up to its first NUL, a bytes array up to its size.
  datatype Content = Number(n: int) | Octets(bytes: Bytes) | Struct(slots: seq<Slot>)

  // The part of a structure that a field describes.  Of the members of a union at most one is present.
  datatype Slot = One(present: bool, content: Content) | Many(items: seq<Content>)

  function Half(w: Width): int {
    if w == 8 then 0x80 else if w == 16 then 0x8000 else if w == 32 then 0x8000_0000 else 0x8000_0000_0000_0000
  }

  predicate Packable(t: LType) {
    t.Bool? || t.VarInt? || t.UVarInt? || t.SVarInt? || t.Fixed32? || t.Fixed64?
  }

  // ---------- Structures ----------

  ghost predicate Typed(t: LType, c: Content)
    decreases t
  {
    match t
    case Bool => c == Number(0) || c == Number(1)
    case VarInt(w) => c.Number? && -Half(w) <= c.n < Half(w)
    case UVarInt(w) => c.Number? && 0 <= c.n < 2 * Half(w)
    case SVarInt(w) => c.Number? && -Half(w) <= c.n < Half(w)
    case Fixed32 => c.Number? && 0 <= c.n < LIMIT32
    case Fixed64 => c.Number? && 0 <= c.n < LIMIT64
    case ByteArray(_) => c.Octets?
    case CharArray(room) => c.Octets? && |c.bytes| <= room && forall i :: 0 <= i < |c.bytes| ==> c.bytes[i] != 0
    case Submessage(fields) => c.Struct? && IsMessage(fields, c.slots)
    case FixedBytes(length) => c.Octets? && |c.bytes| == length
  }

  ghost predicate TypedSlot(f: Field, s: Slot)
    decreases f
  {
    match f.htype
    case Repeated(_) => s.Many? && forall i :: 0 <= i < |s.items| ==> Typed(f.ltype, s.items[i])
    case OneOf(_) => s.One? && (s.present ==> Typed(f.ltype, s.content))
    case Optional(hasFlag) => s.One? && (hasFlag || s.present) && Typed(f.ltype, s.content)
    case Required => s.One? && s.present && Typed(f.ltype, s.content)
  }

  ghost predicate IsMessage(fields: seq<Field>, slots: seq<Slot>)
    decreases fields
  {
    && |slots| == |fields|
    && (forall i :: 0 <= i < |fields| ==> TypedSlot(fields[i], slots[i]))
    && forall i, j ::
         0 <= i < j < |fields| && SameUnion(fields[i], fields[j]) ==> !IsPresent(slots[i]) || !IsPresent(slots[j])
  }

  predicate SameUnion(f: Field, g: Field) {
    f.htype.OneOf? && g.htype == f.htype
  }

  predicate IsPresent(s: Slot) { s.One? && s.present }

  // What pb_message_set_to_defaults makes of a structure.
  function Defaults(fields: seq<Field>): (slots: seq<Slot>)
    ensures |slots| == |fields|
    decreases fields
  {
    seq(|fields|, i requires 0 <= i < |fields| => InitialSlot(fields[i]))
  }

  function InitialSlot(f: Field): Slot
    decreases f
  {
    match f.htype
    case Repeated(_) => Many([])
    case OneOf(_) => One(false, InitialContent(f.ltype, f.initial))
    case Optional(hasFlag) => One(!hasFlag, InitialContent(f.ltype, f.initial))
    case Required => One(true, InitialContent(f.ltype, f.initial))
  }

  function InitialContent(t: LType, initial: Content): Content
    decreases t
  {
    if t.Submessage? then Struct(Defaults(t.fields)) else initial
  }

  // Tags are distinct and in the range of the standard; a proto3 field starts as zero.
  ghost predicate IsDescriptor(fields: seq<Field>)
    decreases fields
  {
    && (forall i :: 0 <= i < |fields| ==> IsField(fields[i]))
    && forall i, j :: 0 <= i < j < |fields| ==> fields[i].tag != fields[j].tag
  }

  ghost predicate IsField(f: Field)
    decreases f
  {
    && 1 <= f.tag < 0x2000_0000
    && (if f.ltype.Submessage? then IsDescriptor(f.ltype.fields) else Typed(f.ltype, f.initial))
    && (f.htype == Optional(false) && !f.ltype.Submessage? && !f.ltype.FixedBytes? ==>
          f.initial == if f.ltype.ByteArray? || f.ltype.CharArray? then Octets([]) else Number(0))
  }

  // ---------- Presence in proto3 ----------

  // pb_check_proto3_default_value.  A member of a union counts as default here if it is not the one
  // that is present, so that a whole message is default if all its fields are.
  predicate IsDefault(f: Field, s: Slot)
    decreases f
  {
    match f.htype
    case Required => false
    case Repeated(_) => s.Many? && s.items == []
    case OneOf(_) => !IsPresent(s)
    case Optional(hasFlag) => if hasFlag then !IsPresent(s) else s.One? && IsZero(f.ltype, s.content)
  }

  predicate IsZero(t: LType, c: Content)
    decreases t
  {
    match t
    case FixedBytes(length) => length == 0
    case Submessage(fields) =>
      c.Struct? && |c.slots| == |fields| && forall i :: 0 <= i < |fields| ==> IsDefault(fields[i], c.slots[i])
    case _ => c == Number(0) || c == Octets([])
  }

  // Whether a single field is written.
  predicate IsWritten(f: Field, s: Slot) {
    match f.htype
    case Required => true
    case Optional(hasFlag) => if hasFlag then IsPresent(s) else !IsDefault(f, s)
    case OneOf(_) => IsPresent(s)
    case Repeated(_) => s.Many? && s.items != []
  }

  // ---------- Bytes ----------

  function Unsigned(n: int): nat
    requires n + LIMIT64 >= 0
  {
    if n < 0 then n + LIMIT64 else n
  }

  function ZigZag(n: int): nat { if n < 0 then -2 * n - 1 else 2 * n }

  function Delimited(b: Bytes): Bytes { PutVarint32(|b|) + b }

  function WireType(t: LType): (w: nat)
    ensures w < 8
  {
    match t
    case Bool => 0
    case VarInt(_) => 0
    case UVarInt(_) => 0
    case SVarInt(_) => 0
    case Fixed32 => 5
    case Fixed64 => 1
    case _ => 2
  }

  const LENGTH_DELIMITED: nat := 2

  function TagBytes(tag: nat, wireType: nat): Bytes { PutVarint32(8 * tag + wireType) }

  // What follows the tag.
  ghost function Payload(t: LType, c: Content): Bytes
    requires Typed(t, c)
    decreases t, 0
  {
    match t
    case Bool => PutVarint32(c.n)
    case VarInt(_) => PutVarint32(Unsigned(c.n))
    case UVarInt(_) => PutVarint32(c.n)
    case SVarInt(_) => PutVarint32(ZigZag(c.n))
    case Fixed32 => EncodeFixed(c.n, 4)
    case Fixed64 => EncodeFixed(c.n, 8)
    case Submessage(fields) => Delimited(Encoded(fields, c.slots))
    case _ => Delimited(c.bytes)
  }

  ghost function Payloads(t: LType, items: seq<Content>): Bytes
    requires forall i :: 0 <= i < |items| ==> Typed(t, items[i])
    decreases t, |items|
  {
    if items == [] then [] else Payload(t, items[0]) + Payloads(t, items[1..])
  }

  // Items that are not packed, each with its tag.
  ghost function Tagged(f: Field, items: seq<Content>): Bytes
    requires forall i :: 0 <= i < |items| ==> Typed(f.ltype, items[i])
    decreases f, |items|
  {
    if items == [] then [] else
      TagBytes(f.tag, WireType(f.ltype)) + Payload(f.ltype, items[0]) + Tagged(f, items[1..])
  }

  ghost function FieldBytes(f: Field, s: Slot): Bytes
    requires TypedSlot(f, s)
    decreases f, |if s.Many? then s.items else []| + 1
  {
    if !IsWritten(f, s) then []
    else if s.One? then TagBytes(f.tag, WireType(f.ltype)) + Payload(f.ltype, s.content)
    else if Packable(f.ltype) then TagBytes(f.tag, LENGTH_DELIMITED) + Delimited(Payloads(f.ltype, s.items))
    else Tagged(f, s.items)
  }

  // The bytes of the fields from the i-th on.
  ghost function EncodedFrom(fields: seq<Field>, slots: seq<Slot>, i: nat): Bytes
    requires IsMessage(fields, slots) && i <= |fields|
    decreases fields, |fields| - i
  {
    if i == |fields| then [] else FieldBytes(fields[i], slots[i]) + EncodedFrom(fields, slots, i + 1)
  }

  ghost function Encoded(fields: seq<Field>, slots: seq<Slot>): Bytes
    requires IsMessage(fields, slots)
    decreases fields, |fields| + 1
  {
    EncodedFrom(fields, slots, 0)
  }

  // ---------- What can be encoded ----------

  // The encoder's errors: a bytes array whose size says more than there is room for, an array whose
  // count does.  What is not written does not matter.
  ghost predicate Fits(t: LType, c: Content)
    requires Typed(t, c)
    decreases t
  {
    match t
    case ByteArray(room) => |c.bytes| <= room
    case Submessage(fields) => AllFit(fields, c.slots)
    case _ => true
  }

  ghost predicate FieldFits(f: Field, s: Slot)
    requires TypedSlot(f, s)
    decreases f
  {
    IsWritten(f, s) ==>
      if s.One? then Fits(f.ltype, s.content)
      else |s.items| <= f.htype.arraySize && forall i :: 0 <= i < |s.items| ==> Fits(f.ltype, s.items[i])
  }

  ghost predicate AllFit(fields: seq<Field>, slots: seq<Slot>)
    requires IsMessage(fields, slots)
    decreases fields
  {
    forall i :: 0 <= i < |fields| ==> FieldFits(fields[i], slots[i])
  }
}
