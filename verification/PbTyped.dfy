/** What nanopb's decoder makes of any bytes at all (ios/Pods/nanopb/pb_decode.c): if it succeeds, a message
    of the descriptor, in range and within its sizes, which can be encoded. */
module PbTyped {
  import opened Dbformat
  import opened Coding
  import opened Pb
  import opened PbParse
  import opened PbNumbers

  // A structure within its sizes, in all its parts, be they present or not.
  ghost predicate WholeContent(t: LType, c: Content)
    decreases t
  {
    Typed(t, c) &&
    match t
    case ByteArray(room) => |c.bytes| <= room
    case Submessage(fields) => Whole(fields, c.slots)
    case _ => true
  }

  ghost predicate WholeSlot(f: Field, s: Slot)
    decreases f
  {
    match s
    case One(present, content) =>
      !f.htype.Repeated? && WholeContent(f.ltype, content) && (f.htype.OneOf? || f.htype == Optional(true) || present)
    case Many(items) =>
      && f.htype.Repeated? && |items| <= f.htype.arraySize
      && forall i :: 0 <= i < |items| ==> WholeContent(f.ltype, items[i])
  }

  ghost predicate Whole(fields: seq<Field>, slots: seq<Slot>)
    decreases fields
  {
    && |slots| == |fields| && (forall i :: 0 <= i < |fields| ==> WholeSlot(fields[i], slots[i]))
    && OneOfEach(fields, slots)
  }

  // Of the members of a union at most one is present.
  ghost predicate OneOfEach(fields: seq<Field>, slots: seq<Slot>)
    requires |slots| == |fields|
  {
    forall i, j :: 0 <= i < j < |fields| && fields[i].htype.OneOf? && fields[j].htype.OneOf? &&
                   fields[i].htype.union == fields[j].htype.union ==>
      !IsPresent(slots[i]) || !IsPresent(slots[j])
  }

  lemma WholeIsMessage(fields: seq<Field>, slots: seq<Slot>)
    requires Whole(fields, slots)
    ensures IsMessage(fields, slots) && AllFit(fields, slots)
    decreases fields
  {
    hide WholeContent, Typed;
    forall i | 0 <= i < |fields|
      ensures TypedSlot(fields[i], slots[i]) && FieldFits(fields[i], slots[i])
    {
      SlotIsTyped(fields[i], slots[i]);
    }
  }

  lemma SlotIsTyped(f: Field, s: Slot)
    requires WholeSlot(f, s)
    ensures TypedSlot(f, s) && FieldFits(f, s)
    decreases f
  {
    hide WholeContent, Typed, Fits;
    if s.One? {
      ContentFits(f.ltype, s.content);
    } else {
      forall i | 0 <= i < |s.items| ensures Typed(f.ltype, s.items[i]) && Fits(f.ltype, s.items[i]) {
        ContentFits(f.ltype, s.items[i]);
      }
    }
  }

  lemma ContentFits(t: LType, c: Content)
    requires WholeContent(t, c)
    ensures Typed(t, c) && Fits(t, c)
    decreases t
  {
    if t.Submessage? {
      WholeIsMessage(t.fields, c.slots);
    }
  }

  // ---------- What decoding starts from ----------

  ghost predicate InitialsFit(fields: seq<Field>)
    decreases fields
  {
    forall i :: 0 <= i < |fields| ==> InitialFits(fields[i])
  }

  ghost predicate InitialFits(f: Field)
    decreases f
  {
    match f.ltype
    case ByteArray(room) => f.initial.Octets? ==> |f.initial.bytes| <= room
    case Submessage(fields) => InitialsFit(fields)
    case _ => true
  }

  lemma DefaultsAreWhole(fields: seq<Field>)
    requires IsDescriptor(fields) && InitialsFit(fields)
    ensures Whole(fields, Defaults(fields))
    decreases fields
  {
    hide WholeContent, IsField, InitialFits;
    forall i | 0 <= i < |fields| ensures WholeSlot(fields[i], InitialSlot(fields[i])) {
      InitialIsWhole(fields[i]);
    }
  }

  lemma InitialIsWhole(f: Field)
    requires IsField(f) && InitialFits(f)
    ensures WholeSlot(f, InitialSlot(f)) && WholeContent(f.ltype, InitialContent(f.ltype, f.initial))
    decreases f
  {
    if f.ltype.Submessage? {
      DefaultsAreWhole(f.ltype.fields);
      WholeIsMessage(f.ltype.fields, Defaults(f.ltype.fields));
    }
  }

  // ---------- What decoding makes ----------

  lemma NumberIsTyped(t: LType, target: Content, data: Bytes, p: nat, limit: nat)
    requires Packable(t) && p <= limit <= |data|
    ensures var c := Parsed(t, target, data, p, limit); c.Some? ==> WholeContent(t, c.value.0)
  {
    hide Varint32At, Varint64, SignedValue, UnZigZag, DecodeFixed;
    Widths();
    if t.Fixed32? && p + 4 <= limit {
      DecodeFixedFits(data[p..p + 4]);
    } else if t.Fixed64? && p + 8 <= limit {
      DecodeFixedFits(data[p..p + 8]);
    }
  }

  lemma BytesAreTyped(t: LType, target: Content, data: Bytes, p: nat, limit: nat)
    requires t.ByteArray? || t.CharArray? || t.FixedBytes?
    requires p <= limit <= |data|
    ensures var c := Parsed(t, target, data, p, limit); c.Some? ==> WholeContent(t, c.value.0)
  {
    hide Varint32At, Text;
    var z := Sized(data, p, limit);
    if z.Some? {
      TextOf(data[z.value.0..z.value.1]);
    }
  }

  lemma {:induction false} ContentIsTyped(t: LType, target: Content, data: Bytes, p: nat, limit: nat)
    requires p <= limit <= |data|
    requires t.Submessage? ==> IsDescriptor(t.fields) && InitialsFit(t.fields) && WholeContent(t, target)
    ensures var c := Parsed(t, target, data, p, limit); c.Some? ==> WholeContent(t, c.value.0)
    decreases t, 1
  {
    hide WholeContent, Parsed;
    if Packable(t) {
      NumberIsTyped(t, target, data, p, limit);
    } else if !t.Submessage? {
      BytesAreTyped(t, target, data, p, limit);
    } else {
      SubmessageIsTyped(t, target, data, p, limit);
    }
  }

  lemma SubmessageIsTyped(t: LType, target: Content, data: Bytes, p: nat, limit: nat)
    requires t.Submessage? && p <= limit <= |data|
    requires IsDescriptor(t.fields) && InitialsFit(t.fields) && WholeContent(t, target)
    ensures var c := Parsed(t, target, data, p, limit); c.Some? ==> WholeContent(t, c.value.0)
    decreases t, 0
  {
    hide Message, Sized, IsDescriptor, InitialsFit, Whole;
    var z := Sized(data, p, limit);
    WholeLength(t.fields, target.slots);
    if z.Some? {
      DecodedIsWhole(t.fields, data, z.value.0, z.value.1, target.slots, {});
      var m := Message(t.fields, data, z.value.0, z.value.1, target.slots, {});
      if m.Some? {
        WholeIsMessage(t.fields, m.value);
      }
    }
  }

  lemma WholeLength(fields: seq<Field>, slots: seq<Slot>)
    requires Whole(fields, slots)
    ensures |slots| == |fields|
  {
  }

  lemma {:induction false} PackedAreTyped(
      t: LType, data: Bytes, p: nat, limit: nat, items: seq<Content>, most: nat)
    requires Packable(t) && p <= limit <= |data| && |items| <= most
    requires forall i :: 0 <= i < |items| ==> WholeContent(t, items[i])
    ensures var r := Packed(t, data, p, limit, items, most);
            r.Some? ==> |r.value| <= most && forall i :: 0 <= i < |r.value| ==> WholeContent(t, r.value[i])
    decreases most - |items|
  {
    hide WholeContent, Parsed;
    if p < limit && |items| < most {
      NumberIsTyped(t, InitialContent(t, Number(0)), data, p, limit);
      var c := Parsed(t, InitialContent(t, Number(0)), data, p, limit);
      if c.Some? {
        PackedAreTyped(t, data, c.value.1, limit, items + [c.value.0], most);
      }
    }
  }

  lemma SlotIsWhole(f: Field, wireType: nat, s: Slot, data: Bytes, p: nat, limit: nat)
    requires IsField(f) && InitialFits(f) && WholeSlot(f, s) && p <= limit <= |data|
    ensures var r := ParsedSlot(f, wireType, s, data, p, limit); r.Some? ==> WholeSlot(f, r.value.0)
    decreases f
  {
    hide WholeContent, Parsed, Packed, Sized, InitialContent, Typed;
    if f.htype.Repeated? {
      FreshIsWhole(f);
      if wireType == LENGTH_DELIMITED && Packable(f.ltype) {
        var z := Sized(data, p, limit);
        if z.Some? {
          PackedAreTyped(f.ltype, data, z.value.0, z.value.1, s.items, f.htype.arraySize);
        }
      } else {
        ContentIsTyped(f.ltype, InitialContent(f.ltype, Number(0)), data, p, limit);
      }
    } else {
      InitialIsWhole(f);
      ContentIsTyped(f.ltype, Target(f, s), data, p, limit);
    }
  }

  lemma FreshIsWhole(f: Field)
    requires IsField(f) && InitialFits(f)
    ensures f.ltype.Submessage? ==>
              && IsDescriptor(f.ltype.fields) && InitialsFit(f.ltype.fields)
              && WholeContent(f.ltype, InitialContent(f.ltype, Number(0)))
  {
    if f.ltype.Submessage? {
      InitialIsWhole(f);
    }
  }

  lemma StoredIsWhole(fields: seq<Field>, slots: seq<Slot>, i: nat, s: Slot)
    requires IsDescriptor(fields) && InitialsFit(fields) && Whole(fields, slots) && i < |fields|
    requires WholeSlot(fields[i], s)
    ensures Whole(fields, Stored(fields, slots, i, s))
  {
    hide WholeContent, IsField, InitialFits;
    var r := Stored(fields, slots, i, s);
    forall j | 0 <= j < |fields| ensures WholeSlot(fields[j], r[j]) {
      InitialIsWhole(fields[j]);
    }
    forall j, k | 0 <= j < k < |fields| && fields[j].htype.OneOf? && fields[k].htype.OneOf? &&
                  fields[j].htype.union == fields[k].htype.union
      ensures !IsPresent(r[j]) || !IsPresent(r[k])
    {
      assert fields[j].htype == fields[k].htype;
    }
  }

  // Whatever the bytes are: what is decoded into a structure within its sizes is one again.
  lemma {:induction false} DecodedIsWhole(
      fields: seq<Field>, data: Bytes, p: nat, limit: nat, slots: seq<Slot>, seen: set<nat>)
    requires IsDescriptor(fields) && InitialsFit(fields) && Whole(fields, slots) && |slots| == |fields|
    requires p <= limit <= |data|
    ensures var r := Message(fields, data, p, limit, slots, seen); r.Some? ==> Whole(fields, r.value)
    decreases fields, limit - p
  {
    hide Whole, WholeSlot, ParsedSlot, Skipped, AfterBool, IndexOf, Stored, SeenWith, RequiredSeen, Varint32At, IsField,
         InitialFits;
    if p < limit {
      var key := Varint32At(data, p, limit);
      if key.Some? && key.value.0 != 0 {
        var i := IndexOf(fields, key.value.0 / 8);
        if i.None? {
          var q := if fields == [] && key.value.0 < 8 then AfterBool(data, key.value.1, limit)
                   else Skipped(data, key.value.1, limit, key.value.0 % 8);
          if q.Some? {
            DecodedIsWhole(fields, data, q.value, limit, slots, seen);
          }
        } else {
          SlotOfWhole(fields, slots, i.value);
          SlotIsWhole(fields[i.value], key.value.0 % 8, slots[i.value], data, key.value.1, limit);
          var s := ParsedSlot(fields[i.value], key.value.0 % 8, slots[i.value], data, key.value.1, limit);
          if s.Some? {
            StoredIsWhole(fields, slots, i.value, s.value.0);
            DecodedIsWhole(fields, data, s.value.1, limit, Stored(fields, slots, i.value, s.value.0),
                           SeenWith(fields, seen, i.value));
          }
        }
      }
    }
  }

  lemma SlotOfWhole(fields: seq<Field>, slots: seq<Slot>, i: nat)
    requires Whole(fields, slots) && i < |fields|
    ensures WholeSlot(fields[i], slots[i])
  {
    hide WholeSlot;
  }

  // So what was decoded is a message that can be encoded.
  lemma DecodedIsMessage(fields: seq<Field>, data: Bytes, p: nat, limit: nat)
    requires IsDescriptor(fields) && InitialsFit(fields) && p <= limit <= |data|
    ensures var r := Message(fields, data, p, limit, Defaults(fields), {});
            r.Some? ==> IsMessage(fields, r.value) && AllFit(fields, r.value) && OneOfEach(fields, r.value)
  {
    hide Message, WholeSlot, IsDescriptor, InitialsFit, IsMessage, AllFit;
    DefaultsAreWhole(fields);
    DecodedIsWhole(fields, data, p, limit, Defaults(fields), {});
    var r := Message(fields, data, p, limit, Defaults(fields), {});
    if r.Some? {
      WholeIsMessage(fields, r.value);
    }
  }
}
