/** Decoding what nanopb encodes: exactly when it succeeds, and that it then gives the message back up to
    the contents of absent fields; what a reader with another descriptor makes of it; and that messages
    one after the other are decoded as one merged message. */
module PbRoundTrip {
  import opened Dbformat
  import opened Coding
  import opened Pb
  import opened PbParse
  import opened PbNumbers
  import opened PbMerge

  // ---------- What reads back ----------

  // Strings end with a NUL, and the lengths written before strings, byte arrays, packed arrays and
  // submessages have at most 32 bits.  What is not written does not matter.
  ghost predicate Readable(t: LType, c: Content)
    requires Typed(t, c)
    decreases t
  {
    match t
    case ByteArray(_) => |c.bytes| < LIMIT32
    case CharArray(room) => |c.bytes| < LIMIT32 && |c.bytes| < room
    case FixedBytes(_) => |c.bytes| < LIMIT32
    case Submessage(fields) => |Encoded(fields, c.slots)| < LIMIT32 && AllReadable(fields, c.slots, 0)
    case _ => true
  }

  ghost predicate FieldReadable(f: Field, s: Slot)
    requires TypedSlot(f, s)
    decreases f
  {
    IsWritten(f, s) ==>
      if s.One? then Readable(f.ltype, s.content)
      else if Packable(f.ltype) then |Payloads(f.ltype, s.items)| < LIMIT32
      else forall i :: 0 <= i < |s.items| ==> Readable(f.ltype, s.items[i])
  }

  ghost predicate AllReadable(fields: seq<Field>, slots: seq<Slot>, from: nat)
    requires IsMessage(fields, slots)
    decreases fields
  {
    forall i :: from <= i < |fields| ==> FieldReadable(fields[i], slots[i])
  }

  // The message with initial values for the contents of absent fields.
  function NormalContent(t: LType, c: Content): Content
    decreases t, 0
  {
    if t.Submessage? && c.Struct? && |c.slots| == |t.fields| then Struct(Normal(t.fields, c.slots)) else c
  }

  function NormalItems(t: LType, items: seq<Content>): (r: seq<Content>)
    ensures |r| == |items|
    decreases t, 1
  {
    seq(|items|, i requires 0 <= i < |items| => NormalContent(t, items[i]))
  }

  function NormalSlot(f: Field, s: Slot): Slot
    decreases f
  {
    if s.Many? then Many(NormalItems(f.ltype, s.items))
    else if s.present then One(true, NormalContent(f.ltype, s.content))
    else InitialSlot(f)
  }

  function Normal(fields: seq<Field>, slots: seq<Slot>): (r: seq<Slot>)
    requires |slots| == |fields|
    ensures |r| == |fields|
    decreases fields
  {
    seq(|fields|, i requires 0 <= i < |fields| => NormalSlot(fields[i], slots[i]))
  }

  // What is not written is what decoding starts from.
  lemma DefaultIsInitial(f: Field, s: Slot)
    requires IsField(f) && TypedSlot(f, s) && !IsWritten(f, s)
    ensures NormalSlot(f, s) == InitialSlot(f)
    decreases f
  {
    if f.htype == Optional(false) {
      assert IsZero(f.ltype, s.content);
      if f.ltype.Submessage? {
        AllDefaultIsInitial(f.ltype.fields, s.content.slots);
      } else {
        ZeroIsInitial(f.ltype, s.content, f.initial);
      }
    }
  }

  lemma ZeroIsInitial(t: LType, c: Content, initial: Content)
    requires !t.Submessage? && Typed(t, c) && Typed(t, initial) && IsZero(t, c)
    requires t.FixedBytes? || initial == if t.ByteArray? || t.CharArray? then Octets([]) else Number(0)
    ensures c == initial
  {
  }

  lemma AllDefaultIsInitial(fields: seq<Field>, slots: seq<Slot>)
    requires IsDescriptor(fields) && IsMessage(fields, slots)
    requires forall i :: 0 <= i < |fields| ==> IsDefault(fields[i], slots[i])
    ensures Normal(fields, slots) == Defaults(fields)
    decreases fields
  {
    forall i | 0 <= i < |fields| ensures NormalSlot(fields[i], slots[i]) == InitialSlot(fields[i]) {
      DefaultIsInitial(fields[i], slots[i]);
    }
  }

  // ---------- With one descriptor ----------

  lemma AgreeSelf(fields: seq<Field>)
    requires IsDescriptor(fields)
    ensures Agree(fields, fields)
    decreases fields
  {
    forall i, j | 0 <= i < |fields| && 0 <= j < |fields| && fields[i].tag == fields[j].tag
      ensures SameMeaning(fields[i], fields[j])
    {
      assert i == j;
      FieldOf(fields, i);
      SameMeaningSelf(fields[i]);
    }
  }

  lemma SameMeaningSelf(f: Field)
    requires IsField(f)
    ensures SameMeaning(f, f)
    decreases f
  {
    if f.ltype.Submessage? {
      AgreeSelf(f.ltype.fields);
    }
  }

  lemma RequiredSelf(fields: seq<Field>)
    ensures HasRequired(fields, fields)
  {
  }

  // Into initial content a content is decoded as it was.
  lemma IntoInitial(t: LType, initial: Content, c: Content)
    requires Typed(t, c) && Fits(t, c) && (t.Submessage? ==> IsDescriptor(t.fields))
    ensures Accepted(t, t, InitialContent(t, initial), c) <==> Readable(t, c)
    ensures MergedContent(t, t, InitialContent(t, initial), c) == NormalContent(t, c)
    decreases t
  {
    hide Merged, Normal, AllAccepted, AllReadable, LengthFits, HasRequired, IsDescriptor, AllFit;
    LengthIsThat(t, c);
    if t.Submessage? {
      MessageIntoDefaults(t.fields, c.slots);
      RequiredSelf(t.fields);
    }
  }

  lemma LengthIsThat(t: LType, c: Content)
    requires Typed(t, c)
    ensures LengthFits(t, c) <==>
            if Packable(t) then true else if t.Submessage? then |Encoded(t.fields, c.slots)| < LIMIT32
            else |c.bytes| < LIMIT32
  {
    if t.Submessage? {
      LengthOfMessage(t, c);
    }
  }

  lemma MessageIntoDefaults(fields: seq<Field>, slots: seq<Slot>)
    requires IsDescriptor(fields) && IsMessage(fields, slots) && AllFit(fields, slots)
    ensures AllAccepted(fields, fields, Defaults(fields), slots, 0) <==> AllReadable(fields, slots, 0)
    ensures Merged(fields, fields, Defaults(fields), slots) == Normal(fields, slots)
    decreases fields
  {
    hide FieldReadable, SlotAccepted, SlotAfter, NormalSlot, FieldFits, TypedSlot, IsField, IsWritten, MergedSlot;
    forall i | 0 <= i < |fields|
      ensures FieldAccepted(fields, Defaults(fields), fields[i], slots[i]) <==> FieldReadable(fields[i], slots[i])
      ensures SlotAfter(fields, fields, Defaults(fields), slots, |fields|, i) == NormalSlot(fields[i], slots[i])
    {
      TagIsFound(fields, i);
      FieldOf(fields, i);
      SlotIntoInitial(fields[i], slots[i]);
      OwnSlot(fields, slots, i);
    }
  }

  lemma SlotIntoInitial(f: Field, s: Slot)
    requires IsField(f) && TypedSlot(f, s) && FieldFits(f, s)
    ensures SlotAccepted(f, f, InitialSlot(f), s) <==> FieldReadable(f, s)
    ensures IsWritten(f, s) ==> MergedSlot(f, f, InitialSlot(f), s) == NormalSlot(f, s)
    decreases f
  {
    hide Accepted, Readable, MergedContent, NormalContent, Typed, Fits, IsDefault, InitialContent;
    if s.Many? {
      if IsWritten(f, s) {
        forall i | 0 <= i < |s.items|
          ensures Accepted(f.ltype, f.ltype, InitialContent(f.ltype, Number(0)), s.items[i]) <==>
                  Readable(f.ltype, s.items[i])
          ensures MergedContent(f.ltype, f.ltype, InitialContent(f.ltype, Number(0)), s.items[i]) ==
                  NormalContent(f.ltype, s.items[i])
        {
          IntoInitial(f.ltype, Number(0), s.items[i]);
        }
        assert MergedItems(f.ltype, f.ltype, s.items) == NormalItems(f.ltype, s.items);
        assert [] + NormalItems(f.ltype, s.items) == NormalItems(f.ltype, s.items);
      } else {
        NothingPacked(f.ltype);
      }
    } else if IsWritten(f, s) {
      IntoInitial(f.ltype, f.initial, s.content);
    }
  }

  lemma NothingPacked(t: LType)
    ensures Payloads(t, []) == []
  {
  }

  lemma OwnSlot(fields: seq<Field>, slots: seq<Slot>, i: nat)
    requires IsDescriptor(fields) && IsMessage(fields, slots) && i < |fields|
    requires IsWritten(fields[i], slots[i]) ==>
               MergedSlot(fields[i], fields[i], InitialSlot(fields[i]), slots[i]) == NormalSlot(fields[i], slots[i])
    ensures SlotAfter(fields, fields, Defaults(fields), slots, |fields|, i) == NormalSlot(fields[i], slots[i])
  {
    hide MergedSlot, NormalSlot, IsWritten, IsField, Displaced;
    TagIsFound(fields, i);
    if !IsWritten(fields[i], slots[i]) {
      FieldOf(fields, i);
      DefaultIsInitial(fields[i], slots[i]);
    }
  }

  // What was written for a content is read back if it is readable, and is an error if not.
  lemma PayloadReadsBack(t: LType, c: Content, initial: Content, data: Bytes, p: nat, limit: nat)
    requires Typed(t, c) && Fits(t, c) && Starts(data, p, limit, Payload(t, c)) && |data| < ADDRESSABLE
    requires t.Submessage? ==> IsDescriptor(t.fields)
    ensures Parsed(t, InitialContent(t, initial), data, p, limit) ==
            if Readable(t, c) then Some((NormalContent(t, c), p + |Payload(t, c)|)) else None
  {
    hide Parsed, Payload, Readable, Accepted, MergedContent, NormalContent, Typed, Fits, IsDescriptor;
    if t.Submessage? {
      AgreeSelf(t.fields);
      DefaultsAreNormal(t.fields);
    }
    IntoInitial(t, initial, c);
    ContentIsMerged(t, t, InitialContent(t, initial), c, data, p, limit);
  }

  // ---------- Whole messages ----------

  // For every descriptor and every message the encoder accepts: decoding its bytes gives the message
  // back, up to the contents of absent fields, if and only if it is readable.
  lemma DecodeUndoesEncode(fields: seq<Field>, slots: seq<Slot>)
    requires IsDescriptor(fields) && IsMessage(fields, slots) && AllFit(fields, slots)
    requires |Encoded(fields, slots)| < ADDRESSABLE
    ensures var b := Encoded(fields, slots);
            Message(fields, b, 0, |b|, Defaults(fields), {}) ==
            if AllReadable(fields, slots, 0) then Some(Normal(fields, slots)) else None
  {
    hide Message, EncodedFrom, IsDescriptor, Agree, AllAccepted, AllReadable, Merged, Normal, IsMessage, AllFit,
         HasRequired;
    AgreeSelf(fields);
    DefaultsAreNormal(fields);
    RequiredSelf(fields);
    MessageIntoDefaults(fields, slots);
    DecodingMerges(fields, fields, Defaults(fields), slots);
  }

  // Decoding into a structure that is there already, with a descriptor that need not be the writer's,
  // merges the message into it; it fails exactly if something cannot be read or a required field of the
  // reader is none of the writer's.
  lemma DecodingMerges(reader: seq<Field>, writer: seq<Field>, cur: seq<Slot>, slots: seq<Slot>)
    requires IsDescriptor(reader) && IsDescriptor(writer) && Agree(reader, writer)
    requires IsMessage(writer, slots) && IsNormal(reader, cur) && |Encoded(writer, slots)| < ADDRESSABLE
    ensures var b := Encoded(writer, slots);
            Message(reader, b, 0, |b|, cur, {}) ==
            if AllAccepted(reader, writer, cur, slots, 0) && HasRequired(reader, writer)
            then Some(Merged(reader, writer, cur, slots)) else None
  {
    hide Message, EncodedFrom, IsDescriptor, Agree, AllAccepted, Merged, MergedUpTo, SeenAfter, HasRequired;
    var b := Encoded(writer, slots);
    assert b[0..|b|] == b;
    NothingMerged(reader, writer, cur, slots);
    FieldsAreMerged(reader, writer, cur, slots, 0, b, 0, |b|, |b|, {});
    EndIsReached(reader, b, |b|, Merged(reader, writer, cur, slots), SeenAfter(reader, writer, slots, 0, {}));
    RequiredIffSeen(reader, writer, slots);
  }

  // What a reader with other fields gets of the writer's message: the fields that both describe alike are
  // as the writer has them, and those that only the reader has are initial.
  lemma SharedFieldsAreKept(reader: seq<Field>, writer: seq<Field>, slots: seq<Slot>, i: nat)
    requires IsDescriptor(reader) && IsDescriptor(writer) && Agree(reader, writer)
    requires IsMessage(writer, slots) && AllFit(writer, slots) && i < |reader|
    ensures forall j :: 0 <= j < |writer| && writer[j] == reader[i] ==>
              Merged(reader, writer, Defaults(reader), slots)[i] == NormalSlot(reader[i], slots[j])
    ensures (forall j :: 0 <= j < |writer| ==> writer[j].tag != reader[i].tag) ==>
              Merged(reader, writer, Defaults(reader), slots)[i] == InitialSlot(reader[i])
  {
    hide MergedSlot, NormalSlot, IsWritten, IsField, Displaced, IsMessage, IsDescriptor, Agree, AllFit, MergedUpTo;
    Lengths(writer, slots);
    SlotOfMerged(reader, writer, Defaults(reader), slots, |writer|, i);
    if j :| 0 <= j < |writer| && writer[j].tag == reader[i].tag {
      TagsAreDistinct(writer);
      TagIsFound(writer, j);
      if writer[j] == reader[i] {
        SharedSlot(writer, slots, j);
      }
    }
  }

  lemma TagsAreDistinct(fields: seq<Field>)
    requires IsDescriptor(fields)
    ensures forall i, j :: 0 <= i < j < |fields| ==> fields[i].tag != fields[j].tag
  {
  }

  lemma SharedSlot(writer: seq<Field>, slots: seq<Slot>, j: nat)
    requires IsDescriptor(writer) && IsMessage(writer, slots) && AllFit(writer, slots) && j < |writer|
    ensures if IsWritten(writer[j], slots[j])
            then MergedSlot(writer[j], writer[j], InitialSlot(writer[j]), slots[j]) == NormalSlot(writer[j], slots[j])
            else NormalSlot(writer[j], slots[j]) == InitialSlot(writer[j])
  {
    hide MergedSlot, NormalSlot, IsWritten, IsField, TypedSlot, FieldFits;
    FieldOf(writer, j);
    if IsWritten(writer[j], slots[j]) {
      SlotIntoInitial(writer[j], slots[j]);
    } else {
      DefaultIsInitial(writer[j], slots[j]);
    }
  }

  // Two messages one after the other are decoded as the second merged into the first.
  lemma ConcatenationMerges(fields: seq<Field>, a: seq<Slot>, b: seq<Slot>)
    requires IsDescriptor(fields) && IsMessage(fields, a) && IsMessage(fields, b) && AllFit(fields, a)
    requires |Encoded(fields, a)| + |Encoded(fields, b)| < ADDRESSABLE
    ensures IsNormal(fields, Normal(fields, a))
    ensures var bytes := Encoded(fields, a) + Encoded(fields, b);
            Message(fields, bytes, 0, |bytes|, Defaults(fields), {}) ==
            if AllReadable(fields, a, 0) && AllAccepted(fields, fields, Normal(fields, a), b, 0)
            then Some(Merged(fields, fields, Normal(fields, a), b)) else None
  {
    hide Message, EncodedFrom, IsDescriptor, Agree, AllAccepted, AllReadable, Merged, MergedUpTo, SeenAfter, Normal,
         HasRequired, IsMessage, AllFit, RequiredSeen;
    var x, y := Encoded(fields, a), Encoded(fields, b);
    var bytes := x + y;
    assert bytes[0..|x|] == x && bytes[|x|..|bytes|] == y;
    Lengths(fields, a);
    Lengths(fields, b);
    AgreeSelf(fields);
    DefaultsAreNormal(fields);
    NormalIsNormal(fields, a);
    MessageIntoDefaults(fields, a);
    NothingMerged(fields, fields, Defaults(fields), a);
    FieldsAreMerged(fields, fields, Defaults(fields), a, 0, bytes, 0, |x|, |bytes|, {});
    if AllReadable(fields, a, 0) {
      var n, seen := Normal(fields, a), SeenAfter(fields, fields, a, 0, {});
      NothingMerged(fields, fields, n, b);
      FieldsAreMerged(fields, fields, n, b, 0, bytes, |x|, |bytes|, |bytes|, seen);
      var all := SeenAfter(fields, fields, b, 0, seen);
      EndIsReached(fields, bytes, |bytes|, Merged(fields, fields, n, b), all);
      RequiredSelf(fields);
      RequiredIffSeen(fields, fields, b);
      SeenMore(fields, fields, b, 0, {}, seen);
      MoreIsEnough(fields, SeenAfter(fields, fields, b, 0, {}), all);
    }
  }

  lemma Lengths(fields: seq<Field>, slots: seq<Slot>)
    requires IsMessage(fields, slots)
    ensures |slots| == |fields|
  {
  }

  lemma {:induction false} SeenMore(
      reader: seq<Field>, writer: seq<Field>, slots: seq<Slot>, k: nat, seen: set<nat>, more: set<nat>)
    requires |writer| == |slots| && k <= |writer| && seen <= more
    ensures SeenAfter(reader, writer, slots, k, seen) <= SeenAfter(reader, writer, slots, k, more)
    decreases |writer| - k
  {
    hide IsWritten;
    if k < |writer| {
      SeenMore(reader, writer, slots, k + 1, SeenField(reader, writer[k], slots[k], seen),
               SeenField(reader, writer[k], slots[k], more));
    }
  }

  lemma MoreIsEnough(fields: seq<Field>, seen: set<nat>, more: set<nat>)
    requires RequiredSeen(fields, seen) && seen <= more
    ensures RequiredSeen(fields, more)
  {
  }

  lemma NormalIsNormal(fields: seq<Field>, slots: seq<Slot>)
    requires IsMessage(fields, slots)
    ensures IsNormal(fields, Normal(fields, slots))
    decreases fields
  {
    forall i | 0 <= i < |fields| ensures IsNormalSlot(fields[i], NormalSlot(fields[i], slots[i])) {
      assert TypedSlot(fields[i], slots[i]);
      SlotIsNormal(fields[i], slots[i]);
    }
  }

  lemma SlotIsNormal(f: Field, s: Slot)
    requires TypedSlot(f, s)
    ensures IsNormalSlot(f, NormalSlot(f, s))
    decreases f
  {
    InitialIsNormal(f);
    if s.One? && s.present && f.ltype.Submessage? {
      NormalIsNormal(f.ltype.fields, s.content.slots);
    }
  }

  // A zero in place of a key ends the message, whatever follows.
  lemma ZeroKeyEnds(fields: seq<Field>, slots: seq<Slot>, rest: Bytes)
    requires IsDescriptor(fields) && IsMessage(fields, slots) && AllFit(fields, slots)
    requires |Encoded(fields, slots)| + |rest| + 1 < ADDRESSABLE
    ensures var b := Encoded(fields, slots) + [0] + rest;
            Message(fields, b, 0, |b|, Defaults(fields), {}) ==
            if AllReadable(fields, slots, 0) then Some(Normal(fields, slots)) else None
  {
    hide Message, EncodedFrom, IsDescriptor, Agree, AllAccepted, AllReadable, Merged, MergedUpTo, SeenAfter, Normal,
         HasRequired, IsMessage, AllFit, RequiredSeen;
    var x := Encoded(fields, slots);
    var b := x + [0] + rest;
    assert b[0..|x|] == x && b[|x|] == 0;
    Lengths(fields, slots);
    AgreeSelf(fields);
    DefaultsAreNormal(fields);
    MessageIntoDefaults(fields, slots);
    NothingMerged(fields, fields, Defaults(fields), slots);
    FieldsAreMerged(fields, fields, Defaults(fields), slots, 0, b, 0, |x|, |b|, {});
    ZeroIsReached(fields, b, |x|, Normal(fields, slots), SeenAfter(fields, fields, slots, 0, {}));
    RequiredSelf(fields);
    RequiredIffSeen(fields, fields, slots);
  }

  lemma ZeroIsReached(fields: seq<Field>, data: Bytes, p: nat, cur: seq<Slot>, seen: set<nat>)
    requires p < |data| && data[p] == 0 && |cur| == |fields|
    ensures Message(fields, data, p, |data|, cur, seen) == if RequiredSeen(fields, seen) then Some(cur) else None
  {
  }

  // ---------- Absent contents do not matter ----------

  // What a message shows is unchanged: it is a message of the same descriptor, and it has the same bytes.
  lemma NormalEncodesTheSame(fields: seq<Field>, slots: seq<Slot>)
    requires IsDescriptor(fields) && IsMessage(fields, slots)
    ensures IsMessage(fields, Normal(fields, slots))
    ensures Encoded(fields, Normal(fields, slots)) == Encoded(fields, slots)
    decreases fields, |fields| + 1
  {
    hide TypedSlot, NormalSlot, FieldBytes, IsField;
    NormalIsMessage(fields, slots);
    SameFrom(fields, slots, 0);
  }

  lemma DefaultsAreMessage(fields: seq<Field>)
    requires IsDescriptor(fields)
    ensures IsMessage(fields, Defaults(fields))
    decreases fields
  {
    forall i | 0 <= i < |fields| ensures TypedSlot(fields[i], InitialSlot(fields[i])) {
      InitialIsTyped(fields[i]);
    }
  }

  lemma InitialIsTyped(f: Field)
    requires IsField(f)
    ensures TypedSlot(f, InitialSlot(f))
    decreases f
  {
    if f.ltype.Submessage? {
      DefaultsAreMessage(f.ltype.fields);
    }
  }

  lemma NormalIsMessage(fields: seq<Field>, slots: seq<Slot>)
    requires IsDescriptor(fields) && IsMessage(fields, slots)
    ensures IsMessage(fields, Normal(fields, slots))
    decreases fields, 0
  {
    hide TypedSlot, IsField;
    forall i | 0 <= i < |fields|
      ensures TypedSlot(fields[i], NormalSlot(fields[i], slots[i]))
      ensures IsPresent(NormalSlot(fields[i], slots[i])) ==> IsPresent(slots[i]) || !fields[i].htype.OneOf?
    {
      NormalIsTyped(fields[i], slots[i]);
    }
  }

  lemma NormalIsTyped(f: Field, s: Slot)
    requires IsField(f) && TypedSlot(f, s)
    ensures TypedSlot(f, NormalSlot(f, s))
    ensures f.htype.OneOf? ==> IsPresent(NormalSlot(f, s)) == IsPresent(s)
    decreases f
  {
    hide Typed;
    InitialIsTyped(f);
    if s.One? {
      if s.present {
        NormalContentIsTyped(f.ltype, s.content);
      }
    } else {
      forall i | 0 <= i < |s.items| ensures Typed(f.ltype, NormalContent(f.ltype, s.items[i])) {
        NormalContentIsTyped(f.ltype, s.items[i]);
      }
    }
  }

  lemma NormalContentIsTyped(t: LType, c: Content)
    requires Typed(t, c) && (t.Submessage? ==> IsDescriptor(t.fields))
    ensures Typed(t, NormalContent(t, c))
    decreases t
  {
    if t.Submessage? {
      NormalIsMessage(t.fields, c.slots);
    }
  }

  lemma {:induction false} SameFrom(fields: seq<Field>, slots: seq<Slot>, i: nat)
    requires IsDescriptor(fields) && IsMessage(fields, slots) && IsMessage(fields, Normal(fields, slots))
    requires i <= |fields|
    ensures EncodedFrom(fields, Normal(fields, slots), i) == EncodedFrom(fields, slots, i)
    decreases fields, |fields| - i
  {
    hide TypedSlot, FieldBytes, IsField, NormalSlot;
    if i < |fields| {
      SameFrom(fields, slots, i + 1);
      assert IsField(fields[i]) && TypedSlot(fields[i], slots[i]);
      SameField(fields[i], slots[i]);
    }
  }

  lemma SameField(f: Field, s: Slot)
    requires IsField(f) && TypedSlot(f, s)
    ensures TypedSlot(f, NormalSlot(f, s)) && FieldBytes(f, NormalSlot(f, s)) == FieldBytes(f, s)
    decreases f
  {
    hide Typed, Payload, Payloads, Tagged, TagBytes, IsDefault;
    NormalIsTyped(f, s);
    SameDefault(f, s);
    if s.Many? {
      SameItems(f, s.items);
    } else if s.present {
      SamePayload(f.ltype, s.content);
    }
  }

  lemma SamePayload(t: LType, c: Content)
    requires Typed(t, c) && (t.Submessage? ==> IsDescriptor(t.fields))
    ensures Typed(t, NormalContent(t, c)) && Payload(t, NormalContent(t, c)) == Payload(t, c)
    decreases t
  {
    NormalContentIsTyped(t, c);
    if t.Submessage? {
      NormalEncodesTheSame(t.fields, c.slots);
    }
  }

  lemma {:induction false} SameItems(f: Field, items: seq<Content>)
    requires IsField(f) && forall i :: 0 <= i < |items| ==> Typed(f.ltype, items[i])
    ensures forall i :: 0 <= i < |items| ==> Typed(f.ltype, NormalItems(f.ltype, items)[i])
    ensures Payloads(f.ltype, NormalItems(f.ltype, items)) == Payloads(f.ltype, items)
    ensures Tagged(f, NormalItems(f.ltype, items)) == Tagged(f, items)
    decreases f, 0, |items|
  {
    hide Typed, Payload, TagBytes, NormalContent;
    if items != [] {
      SamePayload(f.ltype, items[0]);
      SameItems(f, items[1..]);
      assert NormalItems(f.ltype, items)[1..] == NormalItems(f.ltype, items[1..]);
      assert NormalItems(f.ltype, items) == [NormalContent(f.ltype, items[0])] + NormalItems(f.ltype, items[1..]);
    }
  }

  lemma SameDefault(f: Field, s: Slot)
    requires IsField(f) && TypedSlot(f, s)
    ensures IsDefault(f, NormalSlot(f, s)) == IsDefault(f, s)
    decreases f
  {
    hide Typed;
    if f.htype == Optional(false) {
      SameZero(f.ltype, s.content);
    }
  }

  lemma SameZero(t: LType, c: Content)
    requires Typed(t, c) && (t.Submessage? ==> IsDescriptor(t.fields))
    ensures IsZero(t, NormalContent(t, c)) == IsZero(t, c)
    decreases t
  {
    if t.Submessage? {
      forall i | 0 <= i < |t.fields|
        ensures IsDefault(t.fields[i], NormalSlot(t.fields[i], c.slots[i])) == IsDefault(t.fields[i], c.slots[i])
      {
        SameDefault(t.fields[i], c.slots[i]);
      }
    }
  }
}
