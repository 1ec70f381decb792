/** What decoding a message into another one gives (ios/Pods/nanopb/pb_decode.c, pb_decode_noinit), when the
    writer's descriptor may be another than the reader's: the two merged, field by field, as the section
    "Last One Wins" of the Protocol Buffers Encoding specification has it. */
module PbMerge {
  import opened Dbformat
  import opened Coding
  import opened Pb
  import opened PbParse
  import opened PbNumbers
  import opened PbWire

  // ---------- Reader and writer ----------

  // The descriptors mean the same by the tags they share.  Either may have fields that the other lacks.
  ghost predicate Agree(reader: seq<Field>, writer: seq<Field>)
    decreases reader
  {
    forall i, j :: 0 <= i < |reader| && 0 <= j < |writer| && reader[i].tag == writer[j].tag ==>
      SameMeaning(reader[i], writer[j])
  }

  ghost predicate SameMeaning(f: Field, g: Field)
    decreases f
  {
    f.htype == g.htype && SameType(f.ltype, g.ltype)
  }

  ghost predicate SameType(t: LType, w: LType)
    decreases t
  {
    if t.Submessage? then w.Submessage? && Agree(t.fields, w.fields) else t == w
  }

  // A structure in which all that is absent has its initial value.
  ghost predicate IsNormal(fields: seq<Field>, slots: seq<Slot>)
    decreases fields
  {
    |slots| == |fields| && forall i :: 0 <= i < |fields| ==> IsNormalSlot(fields[i], slots[i])
  }

  ghost predicate IsNormalSlot(f: Field, s: Slot)
    decreases f
  {
    if f.htype.Repeated? then s.Many?
    else
      && s.One? && (s.present || s == InitialSlot(f))
      && (f.ltype.Submessage? ==> s.content.Struct? && IsNormal(f.ltype.fields, s.content.slots))
  }

  // ---------- Merging ----------

  // A submessage is merged into the one that is there; of anything else the last one wins.
  ghost function MergedContent(t: LType, w: LType, into: Content, c: Content): Content
    decreases t, 0
  {
    if t.Submessage? && w.Submessage? && c.Struct? && |c.slots| == |w.fields| &&
       into.Struct? && |into.slots| == |t.fields|
    then Struct(Merged(t.fields, w.fields, into.slots, c.slots)) else c
  }

  ghost function MergedItems(t: LType, w: LType, items: seq<Content>): (r: seq<Content>)
    ensures |r| == |items|
    decreases t, 1
  {
    seq(|items|, i requires 0 <= i < |items| => MergedContent(t, w, InitialContent(t, Number(0)), items[i]))
  }

  // Items are added to those that are there.
  ghost function MergedSlot(f: Field, g: Field, into: Slot, s: Slot): Slot
    decreases f, 0
  {
    match s
    case Many(items) => Many((if into.Many? then into.items else []) + MergedItems(f.ltype, g.ltype, items))
    case One(_, content) => One(true, MergedContent(f.ltype, g.ltype, Held(f, into), content))
  }

  // What an absent field counts as.
  function Held(f: Field, s: Slot): Content {
    if IsPresent(s) then s.content else InitialContent(f.ltype, f.initial)
  }

  // Among the writer's first k fields is another member of the reader's union.
  ghost predicate Displaced(reader: seq<Field>, writer: seq<Field>, slots: seq<Slot>, k: nat, i: nat)
    requires i < |reader| && k <= |writer| == |slots|
  {
    exists m, n :: 0 <= m < k && 0 <= n < |reader| && n != i && reader[n].tag == writer[m].tag &&
                   SameUnion(reader[i], reader[n]) && IsWritten(writer[m], slots[m])
  }

  // The reader's i-th field, once the writer's first k have come.
  ghost function SlotAfter(
      reader: seq<Field>, writer: seq<Field>, cur: seq<Slot>, slots: seq<Slot>, k: nat, i: nat): Slot
    requires i < |reader| == |cur| && k <= |writer| == |slots|
    decreases reader, 0
  {
    var j := IndexOf(writer, reader[i].tag);
    if j.Some? && j.value < k && IsWritten(writer[j.value], slots[j.value])
      then MergedSlot(reader[i], writer[j.value], cur[i], slots[j.value])
    else if Displaced(reader, writer, slots, k, i) then InitialSlot(reader[i])
    else cur[i]
  }

  ghost function MergedUpTo(
      reader: seq<Field>, writer: seq<Field>, cur: seq<Slot>, slots: seq<Slot>, k: nat): (r: seq<Slot>)
    requires |reader| == |cur| && k <= |writer| == |slots|
    ensures |r| == |reader|
    decreases reader, 1
  {
    seq(|reader|, i requires 0 <= i < |reader| => SlotAfter(reader, writer, cur, slots, k, i))
  }

  ghost function Merged(reader: seq<Field>, writer: seq<Field>, cur: seq<Slot>, slots: seq<Slot>): (r: seq<Slot>)
    requires |reader| == |cur| && |writer| == |slots|
    ensures |r| == |reader|
    decreases reader, 2
  {
    MergedUpTo(reader, writer, cur, slots, |writer|)
  }

  // ---------- What can be read ----------

  ghost predicate LengthFits(t: LType, c: Content)
    requires Typed(t, c)
  {
    var v := ValueOf(t, c);
    v.Counted? ==> |v.b| < LIMIT32
  }

  // Strings end with a NUL, bytes fit, and a submessage has the required fields of its reader.
  ghost predicate Accepted(t: LType, w: LType, into: Content, c: Content)
    requires Typed(w, c)
    decreases t, 0
  {
    LengthFits(w, c) &&
    match t
    case ByteArray(room) => c.Octets? && |c.bytes| <= room
    case CharArray(room) => c.Octets? && |c.bytes| < room
    case Submessage(fields) =>
      && w.Submessage? && into.Struct? && |into.slots| == |fields|
      && AllAccepted(fields, w.fields, into.slots, c.slots, 0) && HasRequired(fields, w.fields)
    case _ => true
  }

  // All required fields of the reader, up to the 64 it keeps track of, are fields of the writer.
  ghost predicate HasRequired(reader: seq<Field>, writer: seq<Field>) {
    forall i :: 0 <= i < |reader| && reader[i].htype.Required? && RequiredBefore(reader, i) < MAX_REQUIRED_FIELDS ==>
      exists j :: 0 <= j < |writer| && writer[j].tag == reader[i].tag
  }

  ghost predicate ItemsAccepted(t: LType, w: LType, items: seq<Content>, from: nat)
    requires forall i :: 0 <= i < |items| ==> Typed(w, items[i])
    decreases t, 1
  {
    forall i :: from <= i < |items| ==> Accepted(t, w, InitialContent(t, Number(0)), items[i])
  }

  ghost predicate SlotAccepted(f: Field, g: Field, into: Slot, s: Slot)
    requires TypedSlot(g, s)
    decreases f, 0
  {
    match s
    case One(_, content) => !IsWritten(g, s) || Accepted(f.ltype, g.ltype, Held(f, into), content)
    case Many(items) =>
      && f.htype.Repeated? && into.Many? && (items != [] ==> |into.items| + |items| <= f.htype.arraySize)
      && if Packable(g.ltype) then |Payloads(g.ltype, items)| < LIMIT32
         else ItemsAccepted(f.ltype, g.ltype, items, 0)
  }

  // Of what is passed over only the lengths matter.
  ghost predicate SlotPassed(g: Field, s: Slot)
    requires TypedSlot(g, s)
  {
    match s
    case One(_, content) => !IsWritten(g, s) || LengthFits(g.ltype, content)
    case Many(items) =>
      if Packable(g.ltype) then |Payloads(g.ltype, items)| < LIMIT32
      else forall i :: 0 <= i < |items| ==> LengthFits(g.ltype, items[i])
  }

  ghost predicate FieldAccepted(reader: seq<Field>, cur: seq<Slot>, g: Field, s: Slot)
    requires |cur| == |reader| && TypedSlot(g, s)
    decreases reader, 0
  {
    var i := IndexOf(reader, g.tag);
    if i.None? then SlotPassed(g, s) else SlotAccepted(reader[i.value], g, cur[i.value], s)
  }

  ghost predicate AllAccepted(
      reader: seq<Field>, writer: seq<Field>, cur: seq<Slot>, slots: seq<Slot>, from: nat)
    requires |cur| == |reader| && IsMessage(writer, slots)
    decreases reader, 1
  {
    forall j :: from <= j < |writer| ==> FieldAccepted(reader, cur, writer[j], slots[j])
  }

  // ---------- Contents ----------

  lemma OctetsAreTaken(t: LType, c: Content, into: Content, data: Bytes, p: nat, limit: nat)
    requires t.ByteArray? || t.CharArray? || t.FixedBytes?
    requires Typed(t, c) && Starts(data, p, limit, Payload(t, c)) && |data| < ADDRESSABLE
    ensures Parsed(t, into, data, p, limit) == if Accepted(t, t, into, c) then Some((c, p + |Payload(t, c)|)) else None
  {
    hide Sized, Varint32At, Starts, Delimited, Text;
    DelimitedIsRead(data, p, limit, c.bytes);
    if t.CharArray? {
      TextOfNonZero(c.bytes);
    }
    if t.FixedBytes? && c.bytes == [] {
      assert seq(t.length, _ => 0) == c.bytes;
    }
  }

  lemma NumberIsAccepted(t: LType, c: Content, into: Content)
    requires Packable(t) && Typed(t, c)
    ensures Accepted(t, t, into, c)
  {
  }

  lemma LengthOfMessage(w: LType, c: Content)
    requires w.Submessage? && Typed(w, c)
    ensures LengthFits(w, c) <==> |Encoded(w.fields, c.slots)| < LIMIT32
  {
    FieldsAreRecords(w.fields, c.slots, 0);
  }

  // A content of any type is decoded into what is there.
  lemma {:induction false} ContentIsMerged(
      t: LType, w: LType, into: Content, c: Content, data: Bytes, p: nat, limit: nat)
    requires SameType(t, w) && Typed(w, c)
    requires Starts(data, p, limit, Payload(w, c)) && |data| < ADDRESSABLE
    requires t.Submessage? ==>
               IsDescriptor(t.fields) && IsDescriptor(w.fields) && into.Struct? && IsNormal(t.fields, into.slots)
    ensures Parsed(t, into, data, p, limit) ==
            if Accepted(t, w, into, c) then Some((MergedContent(t, w, into, c), p + |Payload(w, c)|)) else None
    decreases t, 1
  {
    hide Parsed, Payload, Accepted, Typed;
    if Packable(t) {
      NumberIsRead(t, c, into, data, p, limit);
      NumberIsAccepted(t, c, into);
    } else if !t.Submessage? {
      OctetsAreTaken(t, c, into, data, p, limit);
    } else {
      SubmessageIsMerged(t, w, into, c, data, p, limit);
    }
  }

  lemma SubmessageIsMerged(t: LType, w: LType, into: Content, c: Content, data: Bytes, p: nat, limit: nat)
    requires t.Submessage? && SameType(t, w) && Typed(w, c)
    requires Starts(data, p, limit, Payload(w, c)) && |data| < ADDRESSABLE
    requires IsDescriptor(t.fields) && IsDescriptor(w.fields) && into.Struct? && IsNormal(t.fields, into.slots)
    ensures Parsed(t, into, data, p, limit) ==
            if Accepted(t, w, into, c) then Some((MergedContent(t, w, into, c), p + |Payload(w, c)|)) else None
    decreases t, 0
  {
    hide Message, Merged, MergedUpTo, IsDescriptor, AllAccepted, HasRequired, EncodedFrom, Sized, Starts, Delimited,
         LengthFits, RequiredSeen, Agree;
    var b := Encoded(w.fields, c.slots);
    LengthOfMessage(w, c);
    DelimitedIsRead(data, p, limit, b);
    StartsEnds(data, p, limit, Delimited(b));
    if |b| < LIMIT32 {
      var from, end := p + |Delimited(b)| - |b|, p + |Delimited(b)|;
      NothingMerged(t.fields, w.fields, into.slots, c.slots);
      FieldsAreMerged(t.fields, w.fields, into.slots, c.slots, 0, data, from, end, end, {});
      EndIsReached(t.fields, data, end, Merged(t.fields, w.fields, into.slots, c.slots),
                   SeenAfter(t.fields, w.fields, c.slots, 0, {}));
      RequiredIffSeen(t.fields, w.fields, c.slots);
    }
  }

  lemma NothingMerged(reader: seq<Field>, writer: seq<Field>, cur: seq<Slot>, slots: seq<Slot>)
    requires |reader| == |cur| && |writer| == |slots|
    ensures MergedUpTo(reader, writer, cur, slots, 0) == cur
  {
  }

  lemma EndIsReached(fields: seq<Field>, data: Bytes, limit: nat, cur: seq<Slot>, seen: set<nat>)
    requires limit <= |data| && |cur| == |fields|
    ensures Message(fields, data, limit, limit, cur, seen) == if RequiredSeen(fields, seen) then Some(cur) else None
  {
  }

  // ---------- Required fields ----------

  // What the reader has seen once the writer's fields from the k-th on have come.
  ghost function SeenAfter(
      reader: seq<Field>, writer: seq<Field>, slots: seq<Slot>, k: nat, seen: set<nat>): set<nat>
    requires |writer| == |slots| && k <= |writer|
    decreases |writer| - k
  {
    if k == |writer| then seen
    else SeenAfter(reader, writer, slots, k + 1, SeenField(reader, writer[k], slots[k], seen))
  }

  ghost function SeenField(reader: seq<Field>, g: Field, s: Slot, seen: set<nat>): set<nat> {
    var i := IndexOf(reader, g.tag);
    if i.Some? && IsWritten(g, s) then SeenWith(reader, seen, i.value) else seen
  }

  // The n-th required field of the reader is among the writer's from the k-th on.
  ghost predicate Comes(reader: seq<Field>, writer: seq<Field>, k: nat, n: nat) {
    exists i, j ::
      0 <= i < |reader| && k <= j < |writer| && reader[i].htype.Required? && RequiredBefore(reader, i) == n &&
      writer[j].tag == reader[i].tag
  }

  lemma {:induction false} SeenIffComes(
      reader: seq<Field>, writer: seq<Field>, slots: seq<Slot>, k: nat, seen: set<nat>, n: nat)
    requires IsDescriptor(reader) && Agree(reader, writer) && |writer| == |slots| && k <= |writer|
    requires n < MAX_REQUIRED_FIELDS
    ensures n in SeenAfter(reader, writer, slots, k, seen) <==> n in seen || Comes(reader, writer, k, n)
    decreases |writer| - k
  {
    hide RequiredBefore, SameMeaning, IsField;
    if k < |writer| {
      SeenIffComes(reader, writer, slots, k + 1, SeenField(reader, writer[k], slots[k], seen), n);
      OneFieldComes(reader, writer, slots, k, seen, n);
    }
  }

  lemma OneFieldComes(
      reader: seq<Field>, writer: seq<Field>, slots: seq<Slot>, k: nat, seen: set<nat>, n: nat)
    requires IsDescriptor(reader) && Agree(reader, writer) && |writer| == |slots| && k < |writer|
    requires n < MAX_REQUIRED_FIELDS
    ensures n in SeenField(reader, writer[k], slots[k], seen) || Comes(reader, writer, k + 1, n) <==>
            n in seen || Comes(reader, writer, k, n)
  {
    hide RequiredBefore, IsField;
    var found := IndexOf(reader, writer[k].tag);
    if found.Some? {
      assert SameMeaning(reader[found.value], writer[k]);
      forall i | 0 <= i < |reader| && reader[i].tag == writer[k].tag ensures i == found.value {
        TagIsFound(reader, i);
      }
    }
  }

  lemma {:induction false} RequiredOfNumber(fields: seq<Field>, k: nat, n: nat) returns (i: nat)
    requires k <= |fields| && n < RequiredBefore(fields, k)
    ensures i < k && fields[i].htype.Required? && RequiredBefore(fields, i) == n
  {
    if RequiredBefore(fields, k - 1) == n {
      i := k - 1;
    } else {
      i := RequiredOfNumber(fields, k - 1, n);
    }
  }

  lemma {:induction false} FewerRequiredBefore(fields: seq<Field>, i: nat, k: nat)
    requires i <= k <= |fields|
    ensures RequiredBefore(fields, i) <= RequiredBefore(fields, k)
    decreases k
  {
    if i < k {
      FewerRequiredBefore(fields, i, k - 1);
    }
  }

  lemma NumberOfRequired(fields: seq<Field>, i: nat, j: nat)
    requires i < |fields| && j < |fields| && fields[i].htype.Required? && fields[j].htype.Required?
    requires RequiredBefore(fields, i) == RequiredBefore(fields, j)
    ensures i == j
  {
    hide RequiredBefore;
    if i < j {
      RequiredCountsOn(fields, i, j);
    } else if j < i {
      RequiredCountsOn(fields, j, i);
    }
  }

  lemma RequiredCountsOn(fields: seq<Field>, i: nat, k: nat)
    requires i < k <= |fields| && fields[i].htype.Required?
    ensures RequiredBefore(fields, i) < RequiredBefore(fields, k)
  {
    FewerRequiredBefore(fields, i + 1, k);
  }

  lemma RequiredIffSeen(reader: seq<Field>, writer: seq<Field>, slots: seq<Slot>)
    requires IsDescriptor(reader) && Agree(reader, writer) && |writer| == |slots|
    ensures RequiredSeen(reader, SeenAfter(reader, writer, slots, 0, {})) <==> HasRequired(reader, writer)
  {
    hide IsDescriptor, Agree, SeenAfter;
    var count := RequiredBefore(reader, |reader|);
    forall n | 0 <= n < MAX_REQUIRED_FIELDS
      ensures n in SeenAfter(reader, writer, slots, 0, {}) <==> Comes(reader, writer, 0, n)
    {
      SeenIffComes(reader, writer, slots, 0, {}, n);
    }
    if HasRequired(reader, writer) {
      forall n | 0 <= n < count && n < MAX_REQUIRED_FIELDS ensures Comes(reader, writer, 0, n) {
        var i := RequiredOfNumber(reader, |reader|, n);
      }
    }
    if RequiredSeen(reader, SeenAfter(reader, writer, slots, 0, {})) {
      forall i | 0 <= i < |reader| && reader[i].htype.Required? && RequiredBefore(reader, i) < MAX_REQUIRED_FIELDS
        ensures exists j :: 0 <= j < |writer| && writer[j].tag == reader[i].tag
      {
        RequiredCountsOn(reader, i, |reader|);
        assert Comes(reader, writer, 0, RequiredBefore(reader, i));
        var i', j :| 0 <= i' < |reader| && 0 <= j < |writer| && reader[i'].htype.Required? &&
                     RequiredBefore(reader, i') == RequiredBefore(reader, i) && writer[j].tag == reader[i'].tag;
        NumberOfRequired(reader, i, i');
      }
    }
  }

  // ---------- One field ----------

  // A key is read, and what comes next is decided by its field.
  lemma KeyIsRead(
      fields: seq<Field>, i: nat, wireType: nat, data: Bytes, p: nat, limit: nat, cur: seq<Slot>, seen: set<nat>)
    requires IsDescriptor(fields) && i < |fields| && wireType < 8 && |cur| == |fields|
    requires Starts(data, p, limit, TagBytes(fields[i].tag, wireType))
    ensures var q := p + |TagBytes(fields[i].tag, wireType)|;
            && p < q <= limit
            && var s := ParsedSlot(fields[i], wireType, cur[i], data, q, limit);
            Message(fields, data, p, limit, cur, seen) ==
            if s.None? then None
            else Message(fields, data, s.value.1, limit, Stored(fields, cur, i, s.value.0), SeenWith(fields, seen, i))
  {
    hide ParsedSlot, PutVarint32, Varint32At, IndexOf, Stored, SeenWith;
    assert IsField(fields[i]);
    var key := 8 * fields[i].tag + wireType;
    assert key / 8 == fields[i].tag && key % 8 == wireType;
    Varint32IsRead(data, p, limit, key);
    TagIsFound(fields, i);
  }

  // Of a union only one member is written, so no other field of the writer's touches this one.
  lemma Untouched(reader: seq<Field>, writer: seq<Field>, cur: seq<Slot>, slots: seq<Slot>, k: nat, i: nat)
    requires IsDescriptor(reader) && IsDescriptor(writer) && Agree(reader, writer) && IsMessage(writer, slots)
    requires |reader| == |cur| && k < |writer| && i < |reader| && reader[i].tag == writer[k].tag
    requires IsWritten(writer[k], slots[k])
    ensures SlotAfter(reader, writer, cur, slots, k, i) == cur[i]
  {
    hide IsField;
    TagIsFound(writer, k);
    assert SameMeaning(reader[i], writer[k]);
    forall m, n | 0 <= m < k && 0 <= n < |reader| && reader[n].tag == writer[m].tag && SameUnion(reader[i], reader[n])
      ensures !IsWritten(writer[m], slots[m])
    {
      OneMemberIsWritten(reader, writer, slots, m, n, k, i);
    }
  }

  lemma OneMemberIsWritten(
      reader: seq<Field>, writer: seq<Field>, slots: seq<Slot>, m: nat, n: nat, k: nat, i: nat)
    requires Agree(reader, writer) && IsMessage(writer, slots) && m < k < |writer| && n < |reader| && i < |reader|
    requires reader[n].tag == writer[m].tag && reader[i].tag == writer[k].tag && SameUnion(reader[i], reader[n])
    requires IsWritten(writer[k], slots[k])
    ensures !IsWritten(writer[m], slots[m])
  {
    assert SameMeaning(reader[n], writer[m]) && SameMeaning(reader[i], writer[k]);
    assert SameUnion(writer[m], writer[k]);
  }

  lemma StoresNext(reader: seq<Field>, writer: seq<Field>, cur: seq<Slot>, slots: seq<Slot>, k: nat, i: nat)
    requires IsDescriptor(reader) && IsDescriptor(writer) && Agree(reader, writer) && IsMessage(writer, slots)
    requires |reader| == |cur| && k < |writer| && i < |reader| && reader[i].tag == writer[k].tag
    requires IsWritten(writer[k], slots[k])
    ensures Stored(reader, MergedUpTo(reader, writer, cur, slots, k), i,
                   MergedSlot(reader[i], writer[k], cur[i], slots[k])) ==
            MergedUpTo(reader, writer, cur, slots, k + 1)
  {
    hide MergedSlot, IsField, SlotAfter;
    TagIsFound(writer, k);
    forall n | 0 <= n < |reader|
      ensures SlotAfter(reader, writer, cur, slots, k + 1, n) ==
              if n == i then MergedSlot(reader[i], writer[k], cur[i], slots[k])
              else if SameUnion(reader[i], reader[n]) then InitialSlot(reader[n])
              else SlotAfter(reader, writer, cur, slots, k, n)
    {
      SlotIsStored(reader, writer, cur, slots, k, i, n);
    }
  }

  lemma SlotIsStored(
      reader: seq<Field>, writer: seq<Field>, cur: seq<Slot>, slots: seq<Slot>, k: nat, i: nat, n: nat)
    requires IsDescriptor(reader) && IsDescriptor(writer) && Agree(reader, writer) && IsMessage(writer, slots)
    requires |reader| == |cur| && k < |writer| && i < |reader| && reader[i].tag == writer[k].tag && n < |reader|
    requires IsWritten(writer[k], slots[k])
    ensures SlotAfter(reader, writer, cur, slots, k + 1, n) ==
            if n == i then MergedSlot(reader[i], writer[k], cur[i], slots[k])
            else if SameUnion(reader[i], reader[n]) then InitialSlot(reader[n])
            else SlotAfter(reader, writer, cur, slots, k, n)
  {
    hide MergedSlot, IsField, IsDefault;
    TagIsFound(writer, k);
    if n != i {
      assert reader[n].tag != reader[i].tag;
      var j := IndexOf(writer, reader[n].tag);
      assert j.Some? ==> j.value != k;
      assert SameMeaning(reader[i], writer[k]);
      if SameUnion(reader[i], reader[n]) {
        if j.Some? && j.value < k {
          assert SameMeaning(reader[n], writer[j.value]) && SameUnion(writer[j.value], writer[k]);
        }
        assert SameUnion(reader[n], reader[i]);
        assert Displaced(reader, writer, slots, k + 1, n);
      } else if Displaced(reader, writer, slots, k + 1, n) {
        var m, n' :| 0 <= m < k + 1 && 0 <= n' < |reader| && n' != n && reader[n'].tag == writer[m].tag &&
                     SameUnion(reader[n], reader[n']) && IsWritten(writer[m], slots[m]);
        assert m == k ==> n' == i;
      }
    }
  }

  // A field that is not written, or that the reader does not know.
  lemma NothingStored(reader: seq<Field>, writer: seq<Field>, cur: seq<Slot>, slots: seq<Slot>, k: nat)
    requires IsDescriptor(writer) && |reader| == |cur| && k < |writer| == |slots|
    requires !IsWritten(writer[k], slots[k]) || IndexOf(reader, writer[k].tag).None?
    ensures MergedUpTo(reader, writer, cur, slots, k + 1) == MergedUpTo(reader, writer, cur, slots, k)
  {
    hide MergedSlot, IsField, IsDefault, IsWritten;
    forall i | 0 <= i < |reader|
      ensures SlotAfter(reader, writer, cur, slots, k + 1, i) == SlotAfter(reader, writer, cur, slots, k, i)
    {
      TagIsFound(writer, k);
      if Displaced(reader, writer, slots, k + 1, i) {
        var m, n :| 0 <= m < k + 1 && 0 <= n < |reader| && n != i && reader[n].tag == writer[m].tag &&
                    SameUnion(reader[i], reader[n]) && IsWritten(writer[m], slots[m]);
        assert m < k;
      }
    }
  }

  lemma {:induction false} RecordsArePassedOver(
      fields: seq<Field>, rs: seq<Record>, number: nat, data: Bytes, p: nat, limit: nat, slots: seq<Slot>,
      seen: set<nat>)
    requires 1 <= number < 0x2000_0000 && (forall i :: 0 <= i < |fields| ==> fields[i].tag != number)
    requires forall r :: r in rs ==> r.number == number && IsValue(r.value)
    requires Starts(data, p, limit, WireBytes(rs)) && |data| < ADDRESSABLE && |slots| == |fields|
    ensures Message(fields, data, p, limit, slots, seen) ==
            if exists r :: r in rs && r.value.Counted? && |r.value.b| >= LIMIT32 then None
            else Message(fields, data, p + |WireBytes(rs)|, limit, slots, seen)
    decreases |rs|
  {
    hide Message, RecordBytes, IsValue;
    if rs != [] {
      StartsSplit(data, p, limit, RecordBytes(rs[0]), WireBytes(rs[1..]));
      UnknownIsPassedOver(fields, rs[0], data, p, limit, slots, seen);
      RecordsArePassedOver(fields, rs[1..], number, data, p + |RecordBytes(rs[0])|, limit, slots, seen);
      assert forall r :: r in rs <==> r == rs[0] || r in rs[1..];
    }
  }

  lemma UnknownFieldIsPassed(
      reader: seq<Field>, g: Field, s: Slot, data: Bytes, p: nat, limit: nat, slots: seq<Slot>, seen: set<nat>)
    requires IsField(g) && TypedSlot(g, s) && IndexOf(reader, g.tag).None? && |slots| == |reader|
    requires Starts(data, p, limit, FieldBytes(g, s)) && |data| < ADDRESSABLE
    ensures Message(reader, data, p, limit, slots, seen) ==
            if SlotPassed(g, s) then Message(reader, data, p + |FieldBytes(g, s)|, limit, slots, seen) else None
  {
    hide Message, FieldBytes, FieldRecords, WireBytes, SlotPassed, IsValue, TypedSlot;
    FieldIsRecords(g, s);
    ValuesAreValid(g, s);
    PassedIffLengthsFit(g, s);
    RecordsArePassedOver(reader, FieldRecords(g, s), g.tag, data, p, limit, slots, seen);
  }

  lemma PassedIffLengthsFit(g: Field, s: Slot)
    requires TypedSlot(g, s)
    ensures SlotPassed(g, s) <==>
            !exists r :: r in FieldRecords(g, s) && r.value.Counted? && |r.value.b| >= LIMIT32
  {
    hide ValueOf, Typed, ItemRecords, Payloads, ValuesBytes;
    FieldIsRecords(g, s);
    if s.Many? {
      ItemsAreValues(g.ltype, s.items);
      LengthsOfItems(g, s.items);
      NoValues(g.ltype);
    } else if IsWritten(g, s) {
      if g.htype == Optional(false) {
        ZeroIsNotThere(g, s.content);
      }
      assert FieldRecords(g, s) == [Record(g.tag, ValueOf(g.ltype, s.content))];
      assert Record(g.tag, ValueOf(g.ltype, s.content)) in FieldRecords(g, s);
    }
  }

  lemma NoValues(t: LType)
    ensures Payloads(t, []) == []
  {
  }

  lemma {:induction false} LengthsOfItems(g: Field, items: seq<Content>)
    requires forall i :: 0 <= i < |items| ==> Typed(g.ltype, items[i])
    ensures (forall i :: 0 <= i < |items| ==> LengthFits(g.ltype, items[i])) <==>
            !exists r :: r in ItemRecords(g, items) && r.value.Counted? && |r.value.b| >= LIMIT32
  {
    hide ValueOf, Typed;
    if items != [] {
      LengthsOfItems(g, items[1..]);
      var first := Record(g.tag, ValueOf(g.ltype, items[0]));
      assert ItemRecords(g, items) == [first] + ItemRecords(g, items[1..]);
      assert first in ItemRecords(g, items);
      assert forall i :: 0 < i < |items| ==> items[i] == items[1..][i - 1];
    }
  }

  // A packed array is added to the items that are there.
  lemma {:induction false} PackedIsAdded(
      t: LType, had: seq<Content>, items: seq<Content>, j: nat, data: Bytes, p: nat, limit: nat, most: nat)
    requires Packable(t) && (forall i :: 0 <= i < |items| ==> Typed(t, items[i])) && j <= |items|
    requires p <= limit <= |data| && data[p..limit] == Payloads(t, items[j..])
    ensures Packed(t, data, p, limit, had + items[..j], most) ==
            if j == |items| || |had| + |items| <= most then Some(had + items) else None
    decreases |items| - j
  {
    hide Payload, Parsed, Typed;
    if j == |items| {
      assert items[..j] == items && items[j..] == [];
    } else {
      var c, rest := items[j], Payloads(t, items[j + 1..]);
      var b := Payload(t, c);
      assert items[j..][1..] == items[j + 1..];
      assert data[p..p + |b|] == data[p..limit][..|b|] == b;
      assert data[p + |b|..limit] == data[p..limit][|b|..] == rest;
      NumberIsRead(t, c, InitialContent(t, Number(0)), data, p, limit);
      PayloadIsNotEmpty(t, c);
      assert had + items[..j] + [c] == had + items[..j + 1];
      PackedIsAdded(t, had, items, j + 1, data, p + |b|, limit, most);
    }
  }

  lemma NumbersAreMerged(t: LType, w: LType, items: seq<Content>)
    requires !t.Submessage?
    ensures MergedItems(t, w, items) == items
  {
  }

  lemma TaggedUnfolds(f: Field, items: seq<Content>, j: nat)
    requires (forall i :: 0 <= i < |items| ==> Typed(f.ltype, items[i])) && j < |items|
    ensures Tagged(f, items[j..]) ==
            TagBytes(f.tag, WireType(f.ltype)) + (Payload(f.ltype, items[j]) + Tagged(f, items[j + 1..]))
  {
    assert items[j..][1..] == items[j + 1..];
    AddAssociates(TagBytes(f.tag, WireType(f.ltype)), Payload(f.ltype, items[j]), Tagged(f, items[j + 1..]));
  }

  lemma NoneTagged(f: Field, items: seq<Content>)
    requires forall i :: 0 <= i < |items| ==> Typed(f.ltype, items[i])
    ensures Tagged(f, items[|items|..]) == []
  {
  }

  lemma FreshIsNormal(t: LType)
    ensures t.Submessage? ==> var fresh' := InitialContent(t, Number(0));
                              fresh'.Struct? && IsNormal(t.fields, fresh'.slots)
  {
    if t.Submessage? {
      DefaultsAreNormal(t.fields);
    }
  }

  lemma DefaultsAreNormal(fields: seq<Field>)
    ensures IsNormal(fields, Defaults(fields))
    decreases fields
  {
    forall i | 0 <= i < |fields| ensures IsNormalSlot(fields[i], InitialSlot(fields[i])) {
      InitialIsNormal(fields[i]);
    }
  }

  lemma InitialIsNormal(f: Field)
    ensures IsNormalSlot(f, InitialSlot(f))
    decreases f
  {
    if f.ltype.Submessage? {
      DefaultsAreNormal(f.ltype.fields);
    }
  }

  lemma FieldContentIsMerged(f: Field, g: Field, into: Content, c: Content, data: Bytes, p: nat, limit: nat)
    requires SameType(f.ltype, g.ltype) && Typed(g.ltype, c)
    requires Starts(data, p, limit, Payload(g.ltype, c)) && |data| < ADDRESSABLE
    requires f.ltype.Submessage? ==>
               g.ltype.Submessage? && IsDescriptor(f.ltype.fields) && IsDescriptor(g.ltype.fields) && into.Struct? &&
               IsNormal(f.ltype.fields, into.slots)
    ensures Parsed(f.ltype, into, data, p, limit) ==
            if Accepted(f.ltype, g.ltype, into, c)
            then Some((MergedContent(f.ltype, g.ltype, into, c), p + |Payload(g.ltype, c)|)) else None
    decreases f
  {
    hide Parsed, Payload, Accepted, Typed, SameType, MergedContent, IsNormal;
    ContentIsMerged(f.ltype, g.ltype, into, c, data, p, limit);
  }

  // Items of any type with a tag each, numbers too, are added one by one.
  lemma {:induction false} TaggedAreAdded(
      reader: seq<Field>, i: nat, g: Field, had: seq<Content>, items: seq<Content>, j: nat, data: Bytes, p: nat,
      limit: nat, cur: seq<Slot>, seen: set<nat>)
    requires IsDescriptor(reader) && IsField(g) && i < |reader| == |cur| && reader[i].tag == g.tag
    requires SameMeaning(reader[i], g) && reader[i].htype.Repeated?
    requires (forall n :: 0 <= n < |items| ==> Typed(g.ltype, items[n])) && j <= |items|
    requires cur[i] == Many(had + MergedItems(reader[i].ltype, g.ltype, items[..j]))
    requires Starts(data, p, limit, Tagged(g, items[j..])) && |data| < ADDRESSABLE
    ensures Message(reader, data, p, limit, cur, seen) ==
            if ItemsAccepted(reader[i].ltype, g.ltype, items, j) &&
               (j == |items| || |had| + |items| <= reader[i].htype.arraySize)
            then Message(reader, data, p + |Tagged(g, items[j..])|, limit,
                         cur[i := Many(had + MergedItems(reader[i].ltype, g.ltype, items))], seen)
            else None
    decreases reader, 0, |items| - j
  {
    hide Message, Accepted, Payload, TagBytes, Stored, Parsed, Starts, Tagged, MergedContent, IsDescriptor, SameType,
         IsNormal, IsField, Typed;
    var f := reader[i];
    if j == |items| {
      assert items[..j] == items;
      NoneTagged(g, items);
      assert cur[i := cur[i]] == cur;
    } else {
      var c := items[j];
      var key, payload, rest := TagBytes(g.tag, WireType(g.ltype)), Payload(g.ltype, c), Tagged(g, items[j + 1..]);
      TaggedUnfolds(g, items, j);
      StartsSplit(data, p, limit, key, payload + rest);
      StartsSplit(data, p + |key|, limit, payload, rest);
      KeyIsRead(reader, i, WireType(g.ltype), data, p, limit, cur, seen);
      FieldTypes(reader, i, g);
      FreshIsNormal(f.ltype);
      FieldContentIsMerged(f, g, InitialContent(f.ltype, Number(0)), c, data, p + |key|, limit);
      ItemsAcceptedFrom(f.ltype, g.ltype, items, j);
      SeenIsSame(reader, i, seen);
      TaggedIsNotPacked(f.ltype, g.ltype);
      if |had| + j < f.htype.arraySize && Accepted(f.ltype, g.ltype, InitialContent(f.ltype, Number(0)), c) {
        var next := had + MergedItems(f.ltype, g.ltype, items[..j + 1]);
        OneItemMerged(f.ltype, g.ltype, had, items, j);
        StoredInArray(reader, cur, i, Many(next));
        TaggedAreAdded(reader, i, g, had, items, j + 1, data, p + |key| + |payload|, limit, cur[i := Many(next)], seen);
        var all := Many(had + MergedItems(f.ltype, g.ltype, items));
        assert cur[i := Many(next)][i := all] == cur[i := all];
      }
    }
  }

  lemma FieldTypes(reader: seq<Field>, i: nat, g: Field)
    requires IsDescriptor(reader) && i < |reader| && IsField(g) && SameMeaning(reader[i], g)
    ensures reader[i].ltype.Submessage? ==>
              g.ltype.Submessage? && IsDescriptor(reader[i].ltype.fields) && IsDescriptor(g.ltype.fields)
  {
    hide IsDescriptor;
    assert IsField(reader[i]) by {
      FieldOf(reader, i);
    }
  }

  lemma FieldOf(fields: seq<Field>, i: nat)
    requires IsDescriptor(fields) && i < |fields|
    ensures IsField(fields[i])
  {
  }

  lemma TaggedIsNotPacked(t: LType, w: LType)
    requires SameType(t, w)
    ensures !(WireType(w) == LENGTH_DELIMITED && Packable(t))
  {
  }

  lemma ItemsAcceptedFrom(t: LType, w: LType, items: seq<Content>, j: nat)
    requires (forall i :: 0 <= i < |items| ==> Typed(w, items[i])) && j < |items|
    ensures ItemsAccepted(t, w, items, j) <==>
            Accepted(t, w, InitialContent(t, Number(0)), items[j]) && ItemsAccepted(t, w, items, j + 1)
  {
    hide Accepted, Typed, InitialContent;
  }

  lemma SeenIsSame(reader: seq<Field>, i: nat, seen: set<nat>)
    requires i < |reader| && !reader[i].htype.Required?
    ensures SeenWith(reader, seen, i) == seen
  {
  }

  lemma OneItemMerged(t: LType, w: LType, had: seq<Content>, items: seq<Content>, j: nat)
    requires j < |items|
    ensures had + MergedItems(t, w, items[..j]) + [MergedContent(t, w, InitialContent(t, Number(0)), items[j])] ==
            had + MergedItems(t, w, items[..j + 1])
  {
    hide MergedContent;
    assert MergedItems(t, w, items[..j + 1]) ==
           MergedItems(t, w, items[..j]) + [MergedContent(t, w, InitialContent(t, Number(0)), items[j])];
  }

  lemma StoredInArray(reader: seq<Field>, cur: seq<Slot>, i: nat, s: Slot)
    requires |cur| == |reader| && i < |reader| && reader[i].htype.Repeated?
    ensures Stored(reader, cur, i, s) == cur[i := s]
  {
  }

  // ---------- A field after the others ----------

  lemma FieldIsMerged(
      reader: seq<Field>, writer: seq<Field>, cur: seq<Slot>, slots: seq<Slot>, k: nat, data: Bytes, p: nat,
      limit: nat, seen: set<nat>)
    requires IsDescriptor(reader) && IsDescriptor(writer) && Agree(reader, writer)
    requires IsMessage(writer, slots) && IsNormal(reader, cur) && |cur| == |reader| && k < |writer| == |slots|
    requires TypedSlot(writer[k], slots[k]) && |data| < ADDRESSABLE
    requires Starts(data, p, limit, FieldBytes(writer[k], slots[k]))
    ensures Message(reader, data, p, limit, MergedUpTo(reader, writer, cur, slots, k), seen) ==
            if FieldAccepted(reader, cur, writer[k], slots[k])
            then Message(reader, data, p + |FieldBytes(writer[k], slots[k])|, limit,
                         MergedUpTo(reader, writer, cur, slots, k + 1), SeenField(reader, writer[k], slots[k], seen))
            else None
    decreases reader, 1
  {
    hide Message, FieldBytes, MergedUpTo, IsNormal, IsDescriptor, Agree, SlotPassed, SlotAccepted, IsWritten, IsField,
         TypedSlot;
    var g, s := writer[k], slots[k];
    FieldOf(writer, k);
    var i := IndexOf(reader, g.tag);
    if i.None? {
      NothingStored(reader, writer, cur, slots, k);
      UnknownFieldIsPassed(reader, g, s, data, p, limit, MergedUpTo(reader, writer, cur, slots, k), seen);
    } else if !IsWritten(g, s) {
      NothingStored(reader, writer, cur, slots, k);
      NothingWritten(reader[i.value], g, cur[i.value], s);
      AgreeOn(reader, writer, i.value, k);
      NormalAt(reader, cur, i.value);
      NothingAccepted(reader[i.value], g, cur[i.value], s);
    } else {
      KnownFieldIsMerged(reader, writer, cur, slots, k, i.value, data, p, limit, seen);
    }
  }

  lemma NothingWritten(f: Field, g: Field, into: Slot, s: Slot)
    requires TypedSlot(g, s) && !IsWritten(g, s)
    ensures FieldBytes(g, s) == []
  {
  }

  lemma NothingAccepted(f: Field, g: Field, into: Slot, s: Slot)
    requires TypedSlot(g, s) && !IsWritten(g, s) && SameMeaning(f, g) && IsNormalSlot(f, into)
    ensures SlotAccepted(f, g, into, s)
  {
  }

  lemma AgreeOn(reader: seq<Field>, writer: seq<Field>, i: nat, k: nat)
    requires Agree(reader, writer) && i < |reader| && k < |writer| && reader[i].tag == writer[k].tag
    ensures SameMeaning(reader[i], writer[k])
  {
  }

  lemma NormalAt(reader: seq<Field>, cur: seq<Slot>, i: nat)
    requires IsNormal(reader, cur) && i < |reader|
    ensures IsNormalSlot(reader[i], cur[i])
  {
  }

  lemma KnownFieldIsMerged(
      reader: seq<Field>, writer: seq<Field>, cur: seq<Slot>, slots: seq<Slot>, k: nat, i: nat, data: Bytes, p: nat,
      limit: nat, seen: set<nat>)
    requires IsDescriptor(reader) && IsDescriptor(writer) && Agree(reader, writer)
    requires IsMessage(writer, slots) && IsNormal(reader, cur) && |cur| == |reader| && k < |writer| == |slots|
    requires i < |reader| && reader[i].tag == writer[k].tag && IsWritten(writer[k], slots[k])
    requires TypedSlot(writer[k], slots[k]) && |data| < ADDRESSABLE
    requires Starts(data, p, limit, FieldBytes(writer[k], slots[k]))
    ensures Message(reader, data, p, limit, MergedUpTo(reader, writer, cur, slots, k), seen) ==
            if SlotAccepted(reader[i], writer[k], cur[i], slots[k])
            then Message(reader, data, p + |FieldBytes(writer[k], slots[k])|, limit,
                         MergedUpTo(reader, writer, cur, slots, k + 1), SeenWith(reader, seen, i))
            else None
    decreases reader, 0
  {
    hide Message, MergedUpTo, IsNormal, IsDescriptor, Agree, SlotAccepted, IsWritten, FieldBytes, SlotAfter,
         MergedSlot, Stored, SeenWith, IsMessage, TypedSlot, IsNormalSlot;
    var f, g, s, into := reader[i], writer[k], slots[k], cur[i];
    FieldOf(writer, k);
    FieldOf(reader, i);
    AgreeOn(reader, writer, i, k);
    NormalAt(reader, cur, i);
    Untouched(reader, writer, cur, slots, k, i);
    var now := MergedUpTo(reader, writer, cur, slots, k);
    assert now[i] == into by {
      SlotOfMerged(reader, writer, cur, slots, k, i);
    }
    WrittenSlot(g, s);
    if s.One? {
      SingleIsMerged(reader, i, g, s, now, data, p, limit, seen);
    } else if Packable(g.ltype) {
      PackedIsMerged(reader, i, g, s, now, data, p, limit, seen);
    } else {
      ArrayIsMerged(reader, i, g, s, now, data, p, limit, seen);
    }
    StoresNext(reader, writer, cur, slots, k, i);
  }

  lemma SlotOfMerged(reader: seq<Field>, writer: seq<Field>, cur: seq<Slot>, slots: seq<Slot>, k: nat, i: nat)
    requires |reader| == |cur| && k <= |writer| == |slots| && i < |reader|
    ensures MergedUpTo(reader, writer, cur, slots, k)[i] == SlotAfter(reader, writer, cur, slots, k, i)
  {
    hide SlotAfter;
  }

  lemma WrittenSlot(g: Field, s: Slot)
    requires TypedSlot(g, s) && IsWritten(g, s)
    ensures s.One? <==> !g.htype.Repeated?
    ensures s.One? ==> Typed(g.ltype, s.content)
    ensures s.Many? ==> s.items != [] && forall n :: 0 <= n < |s.items| ==> Typed(g.ltype, s.items[n])
    ensures FieldBytes(g, s) ==
            if s.One? then TagBytes(g.tag, WireType(g.ltype)) + Payload(g.ltype, s.content)
            else if Packable(g.ltype) then TagBytes(g.tag, LENGTH_DELIMITED) + Delimited(Payloads(g.ltype, s.items))
            else Tagged(g, s.items)
  {
    hide Typed, Payload, Payloads, Tagged, IsDefault;
  }

  // In what follows `now` is what the reader has when the field comes.
  lemma SingleIsMerged(
      reader: seq<Field>, i: nat, g: Field, s: Slot, now: seq<Slot>, data: Bytes, p: nat, limit: nat, seen: set<nat>)
    requires IsDescriptor(reader) && i < |reader| == |now| && IsField(g) && reader[i].tag == g.tag
    requires SameMeaning(reader[i], g) && IsNormalSlot(reader[i], now[i]) && IsField(reader[i])
    requires s.One? && TypedSlot(g, s) && IsWritten(g, s) && |data| < ADDRESSABLE
    requires Starts(data, p, limit, FieldBytes(g, s))
    ensures Message(reader, data, p, limit, now, seen) ==
            if SlotAccepted(reader[i], g, now[i], s)
            then Message(reader, data, p + |FieldBytes(g, s)|, limit,
                         Stored(reader, now, i, MergedSlot(reader[i], g, now[i], s)), SeenWith(reader, seen, i))
            else None
    decreases reader, 0, 0
  {
    hide Message, IsDescriptor, IsWritten, FieldBytes, MergedContent, Stored, SeenWith, TypedSlot, IsNormalSlot,
         Payload, TagBytes, Parsed, Accepted, SameType, Starts, IsField, Typed, IsNormal;
    var f := reader[i];
    WrittenSlot(g, s);
    var key, payload := TagBytes(g.tag, WireType(g.ltype)), Payload(g.ltype, s.content);
    StartsSplit(data, p, limit, key, payload);
    KeyIsRead(reader, i, WireType(g.ltype), data, p, limit, now, seen);
    FieldTypes(reader, i, g);
    HeldIsTarget(f, now[i]);
    FieldContentIsMerged(f, g, Held(f, now[i]), s.content, data, p + |key|, limit);
  }

  lemma HeldIsTarget(f: Field, s: Slot)
    requires IsNormalSlot(f, s) && !f.htype.Repeated?
    ensures Target(f, s) == Held(f, s)
    ensures f.ltype.Submessage? ==> Held(f, s).Struct? && IsNormal(f.ltype.fields, Held(f, s).slots)
  {
    FreshIsNormal(f.ltype);
  }

  lemma PackedIsMerged(
      reader: seq<Field>, i: nat, g: Field, s: Slot, now: seq<Slot>, data: Bytes, p: nat, limit: nat, seen: set<nat>)
    requires IsDescriptor(reader) && i < |reader| == |now| && IsField(g) && reader[i].tag == g.tag
    requires SameMeaning(reader[i], g) && IsNormalSlot(reader[i], now[i])
    requires s.Many? && Packable(g.ltype) && TypedSlot(g, s) && IsWritten(g, s) && |data| < ADDRESSABLE
    requires Starts(data, p, limit, FieldBytes(g, s))
    ensures Message(reader, data, p, limit, now, seen) ==
            if SlotAccepted(reader[i], g, now[i], s)
            then Message(reader, data, p + |FieldBytes(g, s)|, limit,
                         Stored(reader, now, i, MergedSlot(reader[i], g, now[i], s)), SeenWith(reader, seen, i))
            else None
  {
    hide Message, IsDescriptor, IsWritten, FieldBytes, MergedItems, Stored, SeenWith, TypedSlot, Payloads, TagBytes,
         Packed, Starts, IsField, Typed, Delimited, Sized, Varint32At;
    var f, items := reader[i], s.items;
    WrittenSlot(g, s);
    var key, b := TagBytes(g.tag, LENGTH_DELIMITED), Payloads(g.ltype, items);
    StartsSplit(data, p, limit, key, Delimited(b));
    KeyIsRead(reader, i, LENGTH_DELIMITED, data, p, limit, now, seen);
    var q := p + |key|;
    DelimitedIsRead(data, q, limit, b);
    StartsEnds(data, q, limit, Delimited(b));
    NumbersAreMerged(f.ltype, g.ltype, items);
    if |b| < LIMIT32 {
      var had := ItemsOf(now[i]);
      assert items[0..] == items && had + items[..0] == had;
      PackedIsAdded(f.ltype, had, items, 0, data, q + |Delimited(b)| - |b|, q + |Delimited(b)|, f.htype.arraySize);
    }
  }

  lemma ArrayIsMerged(
      reader: seq<Field>, i: nat, g: Field, s: Slot, now: seq<Slot>, data: Bytes, p: nat, limit: nat, seen: set<nat>)
    requires IsDescriptor(reader) && i < |reader| == |now| && IsField(g) && reader[i].tag == g.tag
    requires SameMeaning(reader[i], g) && IsNormalSlot(reader[i], now[i])
    requires s.Many? && !Packable(g.ltype) && TypedSlot(g, s) && IsWritten(g, s) && |data| < ADDRESSABLE
    requires Starts(data, p, limit, FieldBytes(g, s))
    ensures Message(reader, data, p, limit, now, seen) ==
            if SlotAccepted(reader[i], g, now[i], s)
            then Message(reader, data, p + |FieldBytes(g, s)|, limit,
                         Stored(reader, now, i, MergedSlot(reader[i], g, now[i], s)), SeenWith(reader, seen, i))
            else None
    decreases reader, 0, |s.items| + 1
  {
    hide Message, IsDescriptor, IsWritten, FieldBytes, Stored, SeenWith, TypedSlot, Tagged, Accepted, Starts, IsField,
         Typed, SameType, ItemsAccepted, MergedContent;
    var f, items := reader[i], s.items;
    WrittenSlot(g, s);
    var had := now[i].items;
    NoItems(f.ltype, g.ltype);
    assert items[0..] == items && items[..0] == [] && had + [] == had;
    TaggedAreAdded(reader, i, g, had, items, 0, data, p, limit, now, seen);
    SeenIsSame(reader, i, seen);
    StoredInArray(reader, now, i, MergedSlot(f, g, now[i], s));
  }

  lemma NoItems(t: LType, w: LType)
    ensures MergedItems(t, w, []) == []
  {
  }

  // ---------- All fields ----------

  // The bytes of the writer's fields from the k-th on, and then anything: the reader goes on behind them
  // with the two messages merged.
  lemma {:induction false} FieldsAreMerged(
      reader: seq<Field>, writer: seq<Field>, cur: seq<Slot>, slots: seq<Slot>, k: nat, data: Bytes, p: nat, end: nat,
      limit: nat, seen: set<nat>)
    requires IsDescriptor(reader) && IsDescriptor(writer) && Agree(reader, writer)
    requires IsMessage(writer, slots) && IsNormal(reader, cur) && |cur| == |reader| && k <= |writer| == |slots|
    requires p <= end <= limit <= |data| < ADDRESSABLE && data[p..end] == EncodedFrom(writer, slots, k)
    ensures Message(reader, data, p, limit, MergedUpTo(reader, writer, cur, slots, k), seen) ==
            if AllAccepted(reader, writer, cur, slots, k)
            then Message(reader, data, end, limit, Merged(reader, writer, cur, slots),
                         SeenAfter(reader, writer, slots, k, seen))
            else None
    decreases reader, 2, |writer| - k
  {
    hide Message, MergedUpTo, IsDescriptor, Agree, FieldAccepted, IsNormal, FieldBytes, SeenField, TypedSlot;
    if k < |writer| {
      FieldComesFirst(writer, slots, k, data, p, end);
      var b := FieldBytes(writer[k], slots[k]);
      FieldIsMerged(reader, writer, cur, slots, k, data, p, limit, seen);
      FieldsAreMerged(reader, writer, cur, slots, k + 1, data, p + |b|, end, limit,
                      SeenField(reader, writer[k], slots[k], seen));
    }
  }

  // The bytes of the k-th field and those of the others.
  lemma FieldComesFirst(fields: seq<Field>, slots: seq<Slot>, k: nat, data: Bytes, p: nat, end: nat)
    requires IsMessage(fields, slots) && k < |fields|
    requires p <= end <= |data| && data[p..end] == EncodedFrom(fields, slots, k)
    ensures TypedSlot(fields[k], slots[k])
    ensures var b := FieldBytes(fields[k], slots[k]);
            p + |b| <= end && data[p..p + |b|] == b && data[p + |b|..end] == EncodedFrom(fields, slots, k + 1)
  {
    hide FieldBytes;
    var b := FieldBytes(fields[k], slots[k]);
    assert data[p..p + |b|] == data[p..end][..|b|];
    assert data[p + |b|..end] == data[p..end][|b|..];
  }
}
