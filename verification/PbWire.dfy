/** Messages as the Protocol Buffers Encoding specification describes them, section "Message Structure": a
    list of records, each a field number, one of four forms of value, and the value.  What nanopb writes is
    such a list, and what it does not know of such a list it passes over. */
module PbWire {
  import opened Dbformat
  import opened Coding
  import opened Pb
  import opened PbParse
  import opened PbNumbers

  datatype Value = Varint(n: nat) | Eight(b: Bytes) | Counted(b: Bytes) | Four(b: Bytes)

  datatype Record = Record(number: nat, value: Value)

  ghost predicate IsValue(v: Value) {
    match v
    case Varint(n) => n < LIMIT64
    case Eight(b) => |b| == 8
    case Counted(b) => true
    case Four(b) => |b| == 4
  }

  ghost function ValueBytes(v: Value): Bytes {
    match v
    case Varint(n) => PutVarint32(n)
    case Eight(b) => b
    case Counted(b) => PutVarint32(|b|) + b
    case Four(b) => b
  }

  // The low three bits of a record's key.
  function Form(v: Value): nat {
    match v
    case Varint(_) => 0
    case Eight(_) => 1
    case Counted(_) => 2
    case Four(_) => 5
  }

  ghost function RecordBytes(r: Record): Bytes { PutVarint32(8 * r.number + Form(r.value)) + ValueBytes(r.value) }

  ghost function WireBytes(rs: seq<Record>): Bytes {
    if rs == [] then [] else RecordBytes(rs[0]) + WireBytes(rs[1..])
  }

  lemma {:induction false} WireConcat(a: seq<Record>, b: seq<Record>)
    ensures WireBytes(a + b) == WireBytes(a) + WireBytes(b)
  {
    hide RecordBytes;
    if a == [] {
      assert a + b == b;
    } else {
      WireConcat(a[1..], b);
      assert (a + b)[1..] == a[1..] + b;
    }
  }

  // ---------- What is passed over ----------

  lemma {:induction false} VarintIsSkipped(data: Bytes, p: nat, limit: nat, n: nat)
    requires Starts(data, p, limit, PutVarint32(n))
    ensures SkippedVarint(data, p, limit) == Some(p + |PutVarint32(n)|)
    decreases n
  {
    var b := PutVarint32(n);
    assert data[p] == data[p..p + |b|][0] == b[0];
    if n >= 128 {
      assert data[p + 1..p + |b|] == data[p..p + |b|][1..] == b[1..] == PutVarint32(n / 128);
      VarintIsSkipped(data, p + 1, limit, n / 128);
    }
  }

  // A value of any form is skipped as a whole, unless its length has more than 32 bits.
  lemma ValueIsSkipped(v: Value, data: Bytes, p: nat, limit: nat)
    requires IsValue(v) && Starts(data, p, limit, ValueBytes(v)) && |data| < ADDRESSABLE
    ensures Skipped(data, p, limit, Form(v)) ==
            if v.Counted? && |v.b| >= LIMIT32 then None else Some(p + |ValueBytes(v)|)
  {
    hide PutVarint32, Varint32At, SkippedVarint;
    match v
    case Varint(n) => VarintIsSkipped(data, p, limit, n);
    case Eight(_) =>
    case Counted(b) => DelimitedIsRead(data, p, limit, b);
    case Four(_) =>
  }

  // There are no other forms.
  lemma NoOtherForms(data: Bytes, p: nat, limit: nat, form: nat)
    requires p <= limit <= |data| && form !in {0, 1, 2, 5}
    ensures Skipped(data, p, limit, form) == None
  {
  }

  // A record of an unknown field makes no difference, wherever it stands.
  lemma UnknownIsPassedOver(
      fields: seq<Field>, r: Record, data: Bytes, p: nat, limit: nat, slots: seq<Slot>, seen: set<nat>)
    requires 1 <= r.number < 0x2000_0000 && (forall i :: 0 <= i < |fields| ==> fields[i].tag != r.number)
    requires IsValue(r.value) && Starts(data, p, limit, RecordBytes(r)) && |data| < ADDRESSABLE
    requires |slots| == |fields|
    ensures p + |RecordBytes(r)| <= limit
    ensures Message(fields, data, p, limit, slots, seen) ==
            if r.value.Counted? && |r.value.b| >= LIMIT32 then None
            else Message(fields, data, p + |RecordBytes(r)|, limit, slots, seen)
  {
    hide PutVarint32, Varint32At, IndexOf, Skipped, ParsedSlot, Stored, SeenWith, ValueBytes, Finished;
    var key := 8 * r.number + Form(r.value);
    StartsSplit(data, p, limit, PutVarint32(key), ValueBytes(r.value));
    Varint32IsRead(data, p, limit, key);
    ValueIsSkipped(r.value, data, p + |PutVarint32(key)|, limit);
    assert key / 8 == r.number && key % 8 == Form(r.value);
  }

  // ---------- What is written ----------

  // The value of one content: numbers as varints, negative ones with all 64 bits or folded between the
  // others, fixed widths low byte first, everything else with its length.
  ghost function ValueOf(t: LType, c: Content): (v: Value)
    requires Typed(t, c)
    decreases t, 0
  {
    match t
    case Bool => Varint(c.n)
    case VarInt(_) => Varint(if c.n < 0 then c.n + LIMIT64 else c.n)
    case UVarInt(_) => Varint(c.n)
    case SVarInt(_) => Varint(if c.n < 0 then -2 * c.n - 1 else 2 * c.n)
    case Fixed32 => Four(EncodeFixed(c.n, 4))
    case Fixed64 => Eight(EncodeFixed(c.n, 8))
    case Submessage(fields) => Counted(WireBytes(RecordsFrom(fields, c.slots, 0)))
    case _ => Counted(c.bytes)
  }

  ghost function ValuesBytes(t: LType, items: seq<Content>): Bytes
    requires forall i :: 0 <= i < |items| ==> Typed(t, items[i])
    decreases t, |items| + 1
  {
    if items == [] then [] else ValueBytes(ValueOf(t, items[0])) + ValuesBytes(t, items[1..])
  }

  ghost function ItemRecords(f: Field, items: seq<Content>): seq<Record>
    requires forall i :: 0 <= i < |items| ==> Typed(f.ltype, items[i])
    decreases f, |items|
  {
    if items == [] then [] else [Record(f.tag, ValueOf(f.ltype, items[0]))] + ItemRecords(f, items[1..])
  }

  // In proto3 a field without a flag is there if it is not zero, and a message if it has records itself.
  ghost predicate IsThere(f: Field, c: Content)
    requires Typed(f.ltype, c)
    decreases f, 0
  {
    match f.ltype
    case Submessage(fields) => RecordsFrom(fields, c.slots, 0) != []
    case FixedBytes(length) => length > 0
    case ByteArray(_) => c.bytes != []
    case CharArray(_) => c.bytes != []
    case _ => c.n != 0
  }

  // The records of a field: arrays of numbers are packed into one.
  ghost function FieldRecords(f: Field, s: Slot): seq<Record>
    requires TypedSlot(f, s)
    decreases f, |if s.Many? then s.items else []| + 1
  {
    match f.htype
    case Required => [Record(f.tag, ValueOf(f.ltype, s.content))]
    case OneOf(_) => if s.present then [Record(f.tag, ValueOf(f.ltype, s.content))] else []
    case Optional(hasFlag) =>
      if (if hasFlag then s.present else IsThere(f, s.content)) then [Record(f.tag, ValueOf(f.ltype, s.content))]
      else []
    case Repeated(_) =>
      if Packable(f.ltype) && s.items != [] then [Record(f.tag, Counted(ValuesBytes(f.ltype, s.items)))]
      else ItemRecords(f, s.items)
  }

  ghost function RecordsFrom(fields: seq<Field>, slots: seq<Slot>, i: nat): seq<Record>
    requires IsMessage(fields, slots) && i <= |fields|
    decreases fields, |fields| - i
  {
    if i == |fields| then [] else FieldRecords(fields[i], slots[i]) + RecordsFrom(fields, slots, i + 1)
  }

  // What the encoder writes for a content is the value, and the key says so.
  lemma PayloadIsValue(t: LType, c: Content)
    requires Typed(t, c)
    ensures Payload(t, c) == ValueBytes(ValueOf(t, c)) && WireType(t) == Form(ValueOf(t, c))
    ensures IsValue(ValueOf(t, c))
    decreases t, 0
  {
    hide RecordBytes, PutVarint32, EncodeFixed;
    if t.Submessage? {
      FieldsAreRecords(t.fields, c.slots, 0);
    }
  }

  lemma {:induction false} ItemsAreValues(t: LType, items: seq<Content>)
    requires forall i :: 0 <= i < |items| ==> Typed(t, items[i])
    ensures Payloads(t, items) == ValuesBytes(t, items)
    decreases t, |items| + 1
  {
    hide Payload, ValueOf, ValueBytes, Typed;
    if items != [] {
      PayloadIsValue(t, items[0]);
      ItemsAreValues(t, items[1..]);
    }
  }

  lemma {:induction false} ItemsAreRecords(f: Field, items: seq<Content>)
    requires forall i :: 0 <= i < |items| ==> Typed(f.ltype, items[i])
    ensures Tagged(f, items) == WireBytes(ItemRecords(f, items))
    decreases f, |items|
  {
    hide Payload, ValueOf, ValueBytes, Typed, PutVarint32;
    if items != [] {
      PayloadIsValue(f.ltype, items[0]);
      ItemsAreRecords(f, items[1..]);
      assert ItemRecords(f, items)[1..] == ItemRecords(f, items[1..]);
    }
  }

  lemma FieldIsRecords(f: Field, s: Slot)
    requires TypedSlot(f, s)
    ensures FieldBytes(f, s) == WireBytes(FieldRecords(f, s))
    ensures IsWritten(f, s) <==> FieldRecords(f, s) != []
    decreases f, |if s.Many? then s.items else []| + 1
  {
    hide Payload, ValueOf, PutVarint32, Payloads, Tagged, ItemRecords, ValuesBytes, Typed;
    if s.Many? {
      ItemsAreValues(f.ltype, s.items);
      ItemsAreRecords(f, s.items);
      SomeRecords(f, s.items);
      OneRecord(Record(f.tag, Counted(ValuesBytes(f.ltype, s.items))));
    } else {
      if f.htype == Optional(false) {
        ZeroIsNotThere(f, s.content);
      }
      if IsWritten(f, s) {
        PayloadIsValue(f.ltype, s.content);
        OneRecord(Record(f.tag, ValueOf(f.ltype, s.content)));
      }
    }
  }

  lemma OneRecord(r: Record)
    ensures WireBytes([r]) == RecordBytes(r)
  {
    assert [r][1..] == [];
  }

  lemma SomeRecords(f: Field, items: seq<Content>)
    requires forall i :: 0 <= i < |items| ==> Typed(f.ltype, items[i])
    ensures ItemRecords(f, items) == [] <==> items == []
  {
  }

  lemma ZeroIsNotThere(f: Field, c: Content)
    requires Typed(f.ltype, c)
    ensures IsZero(f.ltype, c) <==> !IsThere(f, c)
    decreases f, 0
  {
    if f.ltype.Submessage? {
      NoRecordsIfDefault(f.ltype.fields, c.slots, 0);
    }
  }

  lemma {:induction false} NoRecordsIfDefault(fields: seq<Field>, slots: seq<Slot>, i: nat)
    requires IsMessage(fields, slots) && i <= |fields|
    ensures RecordsFrom(fields, slots, i) == [] <==>
            forall j :: i <= j < |fields| ==> IsDefault(fields[j], slots[j])
    decreases fields, |fields| - i
  {
    hide FieldRecords, IsDefault, TypedSlot;
    if i < |fields| {
      FieldIsRecords(fields[i], slots[i]);
      DefaultIffNotWritten(fields[i], slots[i]);
      NoRecordsIfDefault(fields, slots, i + 1);
    }
  }

  lemma DefaultIffNotWritten(f: Field, s: Slot)
    requires TypedSlot(f, s)
    ensures IsDefault(f, s) <==> !IsWritten(f, s)
  {
  }

  lemma {:induction false} FieldsAreRecords(fields: seq<Field>, slots: seq<Slot>, i: nat)
    requires IsMessage(fields, slots) && i <= |fields|
    ensures EncodedFrom(fields, slots, i) == WireBytes(RecordsFrom(fields, slots, i))
    decreases fields, |fields| - i
  {
    hide FieldBytes, FieldRecords, TypedSlot, WireBytes;
    if i == |fields| {
      NoRecords();
    } else {
      FieldIsRecords(fields[i], slots[i]);
      FieldsAreRecords(fields, slots, i + 1);
      WireConcat(FieldRecords(fields[i], slots[i]), RecordsFrom(fields, slots, i + 1));
    }
  }

  lemma NoRecords()
    ensures WireBytes([]) == []
  {
  }

  // The bytes of a message are records by the specification, field by field.
  lemma EncodedIsRecords(fields: seq<Field>, slots: seq<Slot>)
    requires IsMessage(fields, slots)
    ensures Encoded(fields, slots) == WireBytes(RecordsFrom(fields, slots, 0))
    ensures forall r :: r in RecordsFrom(fields, slots, 0) ==>
              IsValue(r.value) && exists i :: 0 <= i < |fields| && fields[i].tag == r.number
  {
    hide FieldBytes, FieldRecords, TypedSlot, WireBytes;
    FieldsAreRecords(fields, slots, 0);
    RecordsAreFields(fields, slots, 0);
  }

  lemma {:induction false} RecordsAreFields(fields: seq<Field>, slots: seq<Slot>, i: nat)
    requires IsMessage(fields, slots) && i <= |fields|
    ensures forall r :: r in RecordsFrom(fields, slots, i) ==>
              IsValue(r.value) && exists j :: 0 <= j < |fields| && fields[j].tag == r.number
    decreases |fields| - i
  {
    hide FieldRecords, TypedSlot, IsValue;
    if i < |fields| {
      RecordsAreFields(fields, slots, i + 1);
      ValuesAreValid(fields[i], slots[i]);
    }
  }

  lemma ValuesAreValid(f: Field, s: Slot)
    requires TypedSlot(f, s)
    ensures forall r :: r in FieldRecords(f, s) ==> r.number == f.tag && IsValue(r.value)
  {
    hide ValueOf, Typed, ItemRecords, ValuesBytes;
    if s.Many? {
      ItemsAreValid(f, s.items);
    } else if f.htype.OneOf? ==> s.present {
      PayloadIsValue(f.ltype, s.content);
    }
  }

  lemma {:induction false} ItemsAreValid(f: Field, items: seq<Content>)
    requires forall i :: 0 <= i < |items| ==> Typed(f.ltype, items[i])
    ensures forall r :: r in ItemRecords(f, items) ==> r.number == f.tag && IsValue(r.value)
  {
    hide ValueOf, Typed, IsValue;
    if items != [] {
      PayloadIsValue(f.ltype, items[0]);
      ItemsAreValid(f, items[1..]);
    }
  }
}
