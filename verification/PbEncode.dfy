/** nanopb's encoder (ios/Pods/nanopb/pb_encode.c): the same code counts the bytes of a message and writes
    them, and a submessage is counted before it is written. */
module PbEncode {
  import opened Dbformat
  import opened Coding
  import opened Pb

  // What there is to see of a stream: the buffer up to its place and from its end on, the room in
  // between, and its count.
  datatype View = View(writing: bool, before: Bytes, after: Bytes, room: nat, count: nat)

  // A call that has b to write, if it can be had at all, succeeds exactly if there is room for it, and
  // then b is there and counted.  Whatever happens, nothing changes before the stream's place and
  // after its end, and its end stays where it is.
  ghost predicate Wrote(u: View, v: View, b: Bytes, fits: bool, ok: bool) {
    && v.writing == u.writing && v.after == u.after
    && (ok <==> fits && (u.writing ==> |b| <= u.room))
    && (ok ==> v.count == u.count + |b|)
    && (u.writing ==>
          && u.before <= v.before && v.count - u.count == |v.before| - |u.before| == u.room - v.room
          && (ok ==> v.before == u.before + b))
  }

  lemma WroteBoth(u: View, v: View, w: View, a: Bytes, b: Bytes, fits: bool, ok: bool)
    requires Wrote(u, v, a, true, true) && Wrote(v, w, b, fits, ok)
    ensures Wrote(u, w, a + b, fits, ok)
  {
  }

  // The rest is not tried when the first part fails.
  lemma WroteNotAll(u: View, v: View, a: Bytes, fits: bool, b: Bytes, all: bool)
    requires Wrote(u, v, a, fits, false) && (all ==> fits)
    ensures Wrote(u, v, a + b, all, false)
  {
  }

  lemma NothingYet(u: View)
    ensures Wrote(u, u, [], true, true)
  {
  }

  lemma WroteFits(u: View, v: View, b: Bytes, fits: bool)
    requires Wrote(u, v, b, fits, true)
    ensures fits && Wrote(u, v, b, true, true)
  {
  }

  lemma SizingSucceeds(v: View, b: Bytes, ok: bool)
    requires Wrote(View(false, [], [], 0, 0), v, b, true, ok)
    ensures ok && v.count == |b|
  {
  }

  lemma BufferHolds(u: View, v: View, b: Bytes, fits: bool, ok: bool)
    requires u.writing && u.before == [] && u.count == 0 && Wrote(u, v, b, fits, ok)
    ensures ok <==> fits && |b| <= u.room
    ensures ok ==> v.before == b && v.count == |b|
  {
  }

  lemma NothingWritten(u: View, b: Bytes)
    ensures Wrote(u, u, b, false, false)
  {
  }

  lemma NoRoom(u: View, b: Bytes)
    requires u.writing && |b| > u.room
    ensures Wrote(u, u, b, true, false)
  {
  }

  lemma CountsOnly(u: View, v: View, b: Bytes)
    requires !u.writing && v == u.(count := u.count + |b|)
    ensures Wrote(u, v, b, true, true)
  {
  }

  lemma SizingFails(v: View, b: Bytes, fits: bool)
    requires Wrote(View(false, [], [], 0, 0), v, b, fits, false)
    ensures !fits
  {
  }

  lemma SizingCounts(v: View, b: Bytes, fits: bool)
    requires Wrote(View(false, [], [], 0, 0), v, b, fits, true)
    ensures fits && v.count == |b|
  {
  }

  // A substream of exactly the size needed, put back into its stream.
  lemma SubstreamIsFull(u: View, sub: View, sub': View, b: Bytes, ok: bool)
    requires u.writing && sub.writing && |b| <= u.room && sub == View(true, u.before, sub.after, |b|, 0)
    requires Wrote(sub, sub', b, true, ok)
    ensures ok && sub'.count == |b| && sub'.room == 0 && sub'.after == sub.after
    ensures Wrote(u, View(true, sub'.before, u.after, u.room - |b|, u.count + |b|), b, true, true)
  {
  }

  class OStream {
    const callback: bool       // without one, bytes are only counted
    const dest: array<byte>
    const maxSize: nat
    var state: nat             // where the next byte goes
    var bytesWritten: nat

    ghost predicate Valid()
      reads this
    {
      callback ==> bytesWritten <= maxSize && state + (maxSize - bytesWritten) <= dest.Length
    }

    ghost function Now(): View
      requires Valid()
      reads this, dest
    {
      if callback then
        var room := maxSize - bytesWritten;
        View(true, dest[..state], dest[state + room..], room, bytesWritten)
      else
        View(false, [], [], 0, bytesWritten)
    }

    constructor Sizing()
      ensures Valid() && fresh(dest) && !callback && Now() == View(false, [], [], 0, 0)
    {
      callback, dest, maxSize, state, bytesWritten := false, new byte[0], 0, 0, 0;
    }

    constructor FromBuffer(buf: array<byte>, start: nat, size: nat)
      requires start + size <= buf.Length
      ensures Valid() && callback && dest == buf && state == start && maxSize == size
      ensures Now() == View(true, buf[..start], buf[start + size..], size, 0)
    {
      callback, dest, maxSize, state, bytesWritten := true, buf, size, start, 0;
    }

    // pb_write
    method Write(buf: Bytes) returns (ok: bool)
      requires Valid()
      modifies this, dest
      ensures Valid() && Wrote(old(Now()), Now(), buf, true, ok)
    {
      if |buf| > 0 && callback {
        if bytesWritten + |buf| > maxSize {
          return false;
        }
        BufWrite(buf);
      }
      bytesWritten := bytesWritten + |buf|;
      ok := true;
    }

    // buf_write
    method BufWrite(buf: Bytes)
      requires state + |buf| <= dest.Length
      modifies `state, dest
      ensures state == old(state) + |buf| && dest[..state] == old(dest[..state]) + buf
      ensures forall end :: state <= end <= dest.Length ==> dest[end..] == old(dest[end..])
    {
      for i := 0 to |buf|
        invariant state == old(state)
        invariant dest[..state + i] == old(dest[..state]) + buf[..i]
        invariant forall k :: state + i <= k < dest.Length ==> dest[k] == old(dest[k])
      {
        dest[state + i] := buf[i];
        assert dest[..state + i + 1] == dest[..state + i] + [buf[i]];
      }
      state := state + |buf|;
    }

    // pb_encode_varint
    method EncodeVarint(value: nat) returns (ok: bool)
      requires Valid()
      modifies this, dest
      ensures Valid() && Wrote(old(Now()), Now(), PutVarint32(value), true, ok)
    {
      hide Valid, Now, Wrote;
      if value <= 0x7F {
        ok := Write([value]);
      } else {
        var buffer := VarintBytes(value);
        ok := Write(buffer);
      }
    }

    // pb_encode_fixed32
    method EncodeFixed32(n: nat) returns (ok: bool)
      requires Valid()
      modifies this, dest
      ensures Valid() && Wrote(old(Now()), Now(), EncodeFixed(n, 4), true, ok)
    {
      hide Valid, Now, Wrote;
      FourBytes(n, 0);
      ok := Write([n % 256, n / 0x100 % 256, n / 0x1_0000 % 256, n / 0x100_0000 % 256]);
    }

    // pb_encode_fixed64
    method EncodeFixed64(n: nat) returns (ok: bool)
      requires Valid()
      modifies this, dest
      ensures Valid() && Wrote(old(Now()), Now(), EncodeFixed(n, 8), true, ok)
    {
      hide Valid, Now, Wrote;
      var high := n / 0x1_0000_0000;
      FourBytes(n, 4);
      FourBytes(high, 0);
      var bytes := [n % 256, n / 0x100 % 256, n / 0x1_0000 % 256, n / 0x100_0000 % 256,
                    high % 256, high / 0x100 % 256, high / 0x1_0000 % 256, high / 0x100_0000 % 256];
      assert bytes == bytes[..4] + bytes[4..] == EncodeFixed(n, 8);
      ok := Write(bytes);
    }

    // pb_encode_tag
    method EncodeTag(wireType: nat, tag: nat) returns (ok: bool)
      requires Valid()
      modifies this, dest
      ensures Valid() && Wrote(old(Now()), Now(), TagBytes(tag, wireType), true, ok)
    {
      hide Valid, Now, Wrote;
      ok := EncodeVarint(8 * tag + wireType);
    }

    // pb_encode_string
    method EncodeString(buffer: Bytes) returns (ok: bool)
      requires Valid()
      modifies this, dest
      ensures Valid() && Wrote(old(Now()), Now(), Delimited(buffer), true, ok)
    {
      hide Valid, Now, Wrote, PutVarint32;
      ghost var u := Now();
      ok := EncodeVarint(|buffer|);
      ghost var v := Now();
      if !ok {
        WroteNotAll(u, v, PutVarint32(|buffer|), true, buffer, true);
        return;
      }
      ok := Write(buffer);
      WroteBoth(u, v, Now(), PutVarint32(|buffer|), buffer, true, ok);
    }

    // The field encoders of PB_ENCODERS.
    method EncodeContent(t: LType, c: Content) returns (ok: bool)
      requires Valid() && Typed(t, c) && (t.Submessage? ==> IsDescriptor(t.fields))
      modifies this, dest
      ensures Valid() && Wrote(old(Now()), Now(), Payload(t, c), Fits(t, c), ok)
      decreases t, 0
    {
      hide Valid, Now, Wrote, PutVarint32, EncodeFixed, Encoded, Delimited, IsMessage, AllFit;
      match t
      case Bool => ok := EncodeVarint(if c.n != 0 then 1 else 0);
      case VarInt(_) => ok := EncodeVarint(Unsigned(c.n));
      case UVarInt(_) => ok := EncodeVarint(c.n);
      case SVarInt(_) => ok := EncodeVarint(ZigZag(c.n));
      case Fixed32 => ok := EncodeFixed32(c.n);
      case Fixed64 => ok := EncodeFixed64(c.n);
      case ByteArray(room) =>
        if |c.bytes| > room {
          NothingWritten(Now(), Payload(t, c));
          return false;
        }
        ok := EncodeString(c.bytes);
      case CharArray(_) => ok := EncodeString(c.bytes);
      case FixedBytes(_) => ok := EncodeString(c.bytes);
      case Submessage(fields) => ok := EncodeSubmessage(fields, c.slots);
    }

    // A tag and what follows it.
    method EncodeSingle(f: Field, c: Content) returns (ok: bool)
      requires Valid() && Typed(f.ltype, c) && IsField(f)
      modifies this, dest
      ensures Valid()
      ensures Wrote(old(Now()), Now(), TagBytes(f.tag, WireType(f.ltype)) + Payload(f.ltype, c), Fits(f.ltype, c), ok)
      decreases f, 0
    {
      hide Valid, Now, Wrote, TagBytes, Payload, Typed, Fits;
      ghost var u := Now();
      ok := EncodeTag(WireType(f.ltype), f.tag);
      ghost var v := Now();
      ghost var key, payload := TagBytes(f.tag, WireType(f.ltype)), Payload(f.ltype, c);
      if !ok {
        WroteNotAll(u, v, key, true, payload, Fits(f.ltype, c));
        return;
      }
      ok := EncodeContent(f.ltype, c);
      WroteBoth(u, v, Now(), key, payload, Fits(f.ltype, c), ok);
    }

    // pb_encode_submessage
    method EncodeSubmessage(fields: seq<Field>, slots: seq<Slot>) returns (ok: bool)
      requires Valid() && IsDescriptor(fields) && IsMessage(fields, slots)
      modifies this, dest
      ensures Valid() && Wrote(old(Now()), Now(), Delimited(Encoded(fields, slots)), AllFit(fields, slots), ok)
      decreases fields, 3
    {
      hide Valid, Now, PutVarint32, Encoded, IsDescriptor, IsMessage, AllFit, Wrote;
      ghost var u := Now();
      ghost var b := Encoded(fields, slots);
      // First calculate the message size using a non-writing substream.
      var counted := GetEncodedSize(fields, slots);
      if counted.None? {
        NothingWritten(u, Delimited(b));
        return false;
      }
      var size := counted.value;
      ok := EncodeVarint(size);
      ghost var v := Now();
      if !ok {
        WroteNotAll(u, v, PutVarint32(size), true, b, true);
        return;
      }
      if !callback {
        Count(size, b);
        ok := true;
      } else {
        ok := EncodeInSubstream(fields, slots, size);
      }
      WroteBoth(u, v, Now(), PutVarint32(size), b, true, ok);
    }

    // pb_write without data
    method Count(size: nat, ghost b: Bytes)
      requires Valid() && !callback && size == |b|
      modifies this
      ensures Valid() && Wrote(old(Now()), Now(), b, true, true)
    {
      bytesWritten := bytesWritten + size;
    }

    // The second pass, which cannot write more than the first one has counted.
    method EncodeInSubstream(fields: seq<Field>, slots: seq<Slot>, size: nat) returns (ok: bool)
      requires Valid() && callback && IsDescriptor(fields) && IsMessage(fields, slots) && AllFit(fields, slots)
      requires size == |Encoded(fields, slots)|
      modifies this, dest
      ensures Valid() && Wrote(old(Now()), Now(), Encoded(fields, slots), true, ok)
      decreases fields, 2
    {
      hide PutVarint32, Encoded, IsDescriptor, IsMessage, AllFit, Wrote;
      ghost var u := Now();
      ghost var b := Encoded(fields, slots);
      if bytesWritten + size > maxSize {
        NoRoom(u, b);
        return false;
      }
      ghost var start, end, tail := state + size, state + (maxSize - bytesWritten), dest[state + size..];
      TailOf(dest, start, end);
      var substream := new OStream.FromBuffer(dest, state, size);
      ghost var sub := substream.Now();
      ok := substream.Encode(fields, slots);
      SubstreamIsFull(u, sub, substream.Now(), b, ok);
      SubstreamEnds(substream, start, tail);
      TailOf(dest, start, end);
      bytesWritten, state := bytesWritten + substream.bytesWritten, substream.state;
      if substream.bytesWritten != size {
        return false;
      }
    }

    // pb_encode
    method Encode(fields: seq<Field>, slots: seq<Slot>) returns (ok: bool)
      requires Valid() && IsDescriptor(fields) && IsMessage(fields, slots)
      modifies this, dest
      ensures Valid() && Wrote(old(Now()), Now(), Encoded(fields, slots), AllFit(fields, slots), ok)
      decreases fields, 1
    {
      hide Valid, Now, Wrote, IsMessage, IsDescriptor, FieldBytes, FieldFits;
      ghost var u := Now();
      NothingYet(u);
      for i := 0 to |fields|
        invariant Valid() && FitsUpTo(fields, slots, i)
        invariant Wrote(u, Now(), EncodedUpTo(fields, slots, i), true, true)
      {
        ghost var v := Now();
        FieldOf(fields, slots, i);
        ghost var b, fits := FieldBytes(fields[i], slots[i]), FieldFits(fields[i], slots[i]);
        ok := EncodeBasicField(fields, slots, i);
        WroteBoth(u, v, Now(), EncodedUpTo(fields, slots, i), b, fits, ok);
        if !ok {
          Rest(fields, slots, i + 1);
          WroteNotAll(u, Now(), EncodedUpTo(fields, slots, i + 1), fits, EncodedFrom(fields, slots, i + 1),
                      AllFit(fields, slots));
          return;
        }
        WroteFits(u, Now(), EncodedUpTo(fields, slots, i + 1), fits);
      }
      Rest(fields, slots, |fields|);
      ok := true;
    }

    // encode_basic_field
    method EncodeBasicField(fields: seq<Field>, slots: seq<Slot>, i: nat) returns (ok: bool)
      requires Valid() && IsDescriptor(fields) && IsMessage(fields, slots) && i < |fields|
      modifies this, dest
      ensures Valid() && TypedSlot(fields[i], slots[i])
      ensures Wrote(old(Now()), Now(), FieldBytes(fields[i], slots[i]), FieldFits(fields[i], slots[i]), ok)
      decreases fields, 0
    {
      hide Valid, Now, Wrote, TagBytes, Payload, Fits, Typed, IsDefault;
      var f, s := fields[i], slots[i];
      assert TypedSlot(f, s) && IsField(f);
      var present := true;
      match f.htype {
        case Required =>
        case Optional(hasFlag) =>
          if hasFlag {
            present := s.present;
          } else {
            var isDefault := CheckDefault(fields, slots, i);
            present := !isDefault;
          }
        case OneOf(union) =>
          WhichIsPresent(fields, slots, union, i);
          present := Which(fields, slots, union) == f.tag;
        case Repeated(_) =>
          ok := EncodeArray(f, s.items);
          return;
      }
      if present {
        ok := EncodeSingle(f, s.content);
      } else {
        NothingYet(Now());
        ok := true;
      }
    }

    // encode_array
    method EncodeArray(f: Field, items: seq<Content>) returns (ok: bool)
      requires Valid() && IsField(f) && TypedSlot(f, Many(items))
      modifies this, dest
      ensures Valid() && Wrote(old(Now()), Now(), FieldBytes(f, Many(items)), FieldFits(f, Many(items)), ok)
      decreases f, 2
    {
      hide Valid, Now, Wrote, TagBytes, Payload, Fits, Payloads, Tagged;
      if items == [] {
        NothingYet(Now());
        return true;
      }
      if |items| > f.htype.arraySize {
        NothingWritten(Now(), FieldBytes(f, Many(items)));
        return false;
      }
      if Packable(f.ltype) {
        NumbersFit(f.ltype, items);
        ok := EncodePacked(f, items);
      } else {
        ok := EncodeTagged(f, items);
      }
    }

    method EncodePacked(f: Field, items: seq<Content>) returns (ok: bool)
      requires Valid() && Packable(f.ltype) && forall i :: 0 <= i < |items| ==> Typed(f.ltype, items[i])
      modifies this, dest
      ensures Valid()
      ensures Wrote(old(Now()), Now(), TagBytes(f.tag, LENGTH_DELIMITED) + Delimited(Payloads(f.ltype, items)), true,
                ok)
      decreases f, 1
    {
      hide Wrote, TagBytes, PutVarint32, Payloads, Typed;
      ghost var u := Now();
      ghost var key, b := TagBytes(f.tag, LENGTH_DELIMITED), Payloads(f.ltype, items);
      ok := EncodeTag(LENGTH_DELIMITED, f.tag);
      ghost var v := Now();
      if !ok {
        WroteNotAll(u, v, key, true, Delimited(b), true);
        return;
      }
      var size := PackedSize(f.ltype, items);
      ok := EncodeVarint(size);
      ghost var w := Now();
      if !ok {
        WroteNotAll(v, w, PutVarint32(size), true, b, true);
        WroteBoth(u, v, w, key, Delimited(b), true, false);
        return;
      }
      if !callback {
        bytesWritten := bytesWritten + size;  // pb_write without data
        CountsOnly(w, Now(), b);
      } else {
        ok := EncodeItems(f.ltype, items);
      }
      WroteBoth(v, w, Now(), PutVarint32(size), b, true, ok);
      WroteBoth(u, v, Now(), key, Delimited(b), true, ok);
    }

    // The contents of an array, one after the other.
    method EncodeItems(t: LType, items: seq<Content>) returns (ok: bool)
      requires Valid() && Packable(t) && forall i :: 0 <= i < |items| ==> Typed(t, items[i])
      modifies this, dest
      ensures Valid() && Wrote(old(Now()), Now(), Payloads(t, items), true, ok)
      decreases t, 1
    {
      hide Valid, Now, Wrote, Payload, Payloads, Typed;
      ghost var u := Now();
      NothingYet(u);
      NoPayloads(t, items);
      for i := 0 to |items|
        invariant Valid() && Wrote(u, Now(), Payloads(t, items[..i]), true, true)
      {
        ghost var v := Now();
        PayloadsSplit(t, items, i);
        NumbersFit(t, items);
        ok := EncodeContent(t, items[i]);
        WroteBoth(u, v, Now(), Payloads(t, items[..i]), Payload(t, items[i]), true, ok);
        if !ok {
          WroteNotAll(u, Now(), Payloads(t, items[..i + 1]), true, Payloads(t, items[i + 1..]), true);
          return;
        }
      }
      assert items[..|items|] == items;
      ok := true;
    }

    // Items that are not packed, each with its tag.
    method EncodeTagged(f: Field, items: seq<Content>) returns (ok: bool)
      requires Valid() && IsField(f) && forall i :: 0 <= i < |items| ==> Typed(f.ltype, items[i])
      modifies this, dest
      ensures Valid() && Wrote(old(Now()), Now(), Tagged(f, items), AllItemsFit(f.ltype, items), ok)
      decreases f, 1
    {
      hide Valid, Now, Wrote, Payload, TagBytes, Tagged, Typed, IsField, Fits;
      ghost var u := Now();
      NothingYet(u);
      NoneTagged(f, items);
      for i := 0 to |items|
        invariant Valid() && forall j :: 0 <= j < i ==> Fits(f.ltype, items[j])
        invariant Wrote(u, Now(), Tagged(f, items[..i]), true, true)
      {
        ghost var v := Now();
        ghost var b, fits := TagBytes(f.tag, WireType(f.ltype)) + Payload(f.ltype, items[i]), Fits(f.ltype, items[i]);
        TaggedSplit(f, items, i);
        ok := EncodeSingle(f, items[i]);
        WroteBoth(u, v, Now(), Tagged(f, items[..i]), b, fits, ok);
        if !ok {
          WroteNotAll(u, Now(), Tagged(f, items[..i + 1]), fits, Tagged(f, items[i + 1..]),
                      AllItemsFit(f.ltype, items));
          return;
        }
        WroteFits(u, Now(), Tagged(f, items[..i + 1]), fits);
      }
      assert items[..|items|] == items;
      ok := true;
    }
  }

  // The total size of a packed array.
  method PackedSize(t: LType, items: seq<Content>) returns (size: nat)
    requires Packable(t) && forall i :: 0 <= i < |items| ==> Typed(t, items[i])
    ensures size == |Payloads(t, items)|
    decreases t, 2
  {
    hide Payloads, Typed, Wrote;
    if t.Fixed32? {
      FixedSizes(t, items);
      size := 4 * |items|;
    } else if t.Fixed64? {
      FixedSizes(t, items);
      size := 8 * |items|;
    } else {
      var sizestream := new OStream.Sizing();
      var ok := sizestream.EncodeItems(t, items);
      SizingSucceeds(sizestream.Now(), Payloads(t, items), ok);
      size := sizestream.bytesWritten;
    }
  }

  // pb_get_encoded_size
  method GetEncodedSize(fields: seq<Field>, slots: seq<Slot>) returns (size: Option<nat>)
    requires IsDescriptor(fields) && IsMessage(fields, slots)
    ensures size == if AllFit(fields, slots) then Some(|Encoded(fields, slots)|) else None
    decreases fields, 2
  {
    hide IsDescriptor, IsMessage, AllFit, Encoded, Wrote;
    var stream := new OStream.Sizing();
    var ok := stream.Encode(fields, slots);
    if ok {
      SizingCounts(stream.Now(), Encoded(fields, slots), AllFit(fields, slots));
      size := Some(stream.bytesWritten);
    } else {
      SizingFails(stream.Now(), Encoded(fields, slots), AllFit(fields, slots));
      size := None;
    }
  }

  // The sizing pass counts exactly the bytes that the writing pass puts into a buffer; it is written if
  // and only if it can be encoded and has room.
  method EncodeToBuffer(fields: seq<Field>, slots: seq<Slot>, buf: array<byte>) returns (size: Option<nat>)
    requires IsDescriptor(fields) && IsMessage(fields, slots)
    modifies buf
    ensures size.Some? <==> AllFit(fields, slots) && |Encoded(fields, slots)| <= buf.Length
    ensures size.Some? ==> size.value == |Encoded(fields, slots)| && buf[..size.value] == Encoded(fields, slots)
  {
    hide IsDescriptor, IsMessage, AllFit, Encoded, Wrote;
    var stream := new OStream.FromBuffer(buf, 0, buf.Length);
    ghost var u := stream.Now();
    var ok := stream.Encode(fields, slots);
    BufferHolds(u, stream.Now(), Encoded(fields, slots), AllFit(fields, slots), ok);
    size := if ok then Some(stream.bytesWritten) else None;
    assert ok ==> buf[..stream.state] == Encoded(fields, slots);
  }

  // ---------- Presence ----------

  // The which_ field of a union: the tag of the member that is present.
  function Which(fields: seq<Field>, slots: seq<Slot>, union: nat): nat
    requires |slots| == |fields|
  {
    if fields == [] then 0
    else
      var n := |fields| - 1;
      if fields[n].htype == OneOf(union) && IsPresent(slots[n]) then fields[n].tag
      else Which(fields[..n], slots[..n], union)
  }

  lemma {:induction false} WhichIsZero(fields: seq<Field>, slots: seq<Slot>, union: nat)
    requires |slots| == |fields| && forall i :: 0 <= i < |fields| ==> fields[i].tag > 0
    ensures Which(fields, slots, union) == 0 <==>
            forall i :: 0 <= i < |fields| && fields[i].htype == OneOf(union) ==> !IsPresent(slots[i])
  {
    if fields != [] {
      var n := |fields| - 1;
      WhichIsZero(fields[..n], slots[..n], union);
      assert forall i :: 0 <= i < n ==> fields[..n][i] == fields[i] && slots[..n][i] == slots[i];
    }
  }

  lemma {:induction false} WhichIsTag(fields: seq<Field>, slots: seq<Slot>, union: nat, i: nat)
    requires |slots| == |fields| && i < |fields| && fields[i].htype == OneOf(union) && fields[i].tag > 0
    requires forall j, k :: 0 <= j < k < |fields| ==> fields[j].tag != fields[k].tag
    requires forall j ::
               0 <= j < |fields| && j != i && fields[j].htype == OneOf(union) && IsPresent(slots[i]) ==>
               !IsPresent(slots[j])
    ensures Which(fields, slots, union) == fields[i].tag <==> IsPresent(slots[i])
  {
    var n := |fields| - 1;
    if i < n {
      assert fields[n].tag != fields[i].tag;
      assert forall j :: 0 <= j < n ==> fields[..n][j] == fields[j] && slots[..n][j] == slots[j];
      WhichIsTag(fields[..n], slots[..n], union, i);
    } else if !IsPresent(slots[i]) {
      OtherTag(fields[..n], slots[..n], union, fields[n].tag);
    }
  }

  lemma {:induction false} OtherTag(fields: seq<Field>, slots: seq<Slot>, union: nat, tag: nat)
    requires |slots| == |fields| && tag > 0 && forall j :: 0 <= j < |fields| ==> fields[j].tag != tag
    ensures Which(fields, slots, union) != tag
  {
    if fields != [] {
      var n := |fields| - 1;
      OtherTag(fields[..n], slots[..n], union, tag);
    }
  }

  lemma WhichIsPresent(fields: seq<Field>, slots: seq<Slot>, union: nat, i: nat)
    requires IsDescriptor(fields) && IsMessage(fields, slots) && i < |fields| && fields[i].htype == OneOf(union)
    ensures Which(fields, slots, union) == fields[i].tag <==> IsPresent(slots[i])
  {
    assert IsField(fields[i]);
    forall j | 0 <= j < |fields| && j != i && fields[j].htype == OneOf(union) && IsPresent(slots[i])
      ensures !IsPresent(slots[j])
    {
      assert SameUnion(fields[i], fields[j]) && SameUnion(fields[j], fields[i]);
    }
    WhichIsTag(fields, slots, union, i);
  }

  // pb_check_proto3_default_value
  method CheckDefault(fields: seq<Field>, slots: seq<Slot>, i: nat) returns (r: bool)
    requires IsDescriptor(fields) && IsMessage(fields, slots) && i < |fields|
    ensures !fields[i].htype.OneOf? ==> (r <==> IsDefault(fields[i], slots[i]))
    ensures fields[i].htype.OneOf? ==> (r <==> Which(fields, slots, fields[i].htype.union) == 0)
    decreases fields, 0
  {
    hide Typed, Which;
    var f, s := fields[i], slots[i];
    assert TypedSlot(f, s) && IsField(f);
    match f.htype
    case Required => r := false;
    case Repeated(_) => r := s.items == [];
    case OneOf(union) => r := Which(fields, slots, union) == 0;
    case Optional(hasFlag) =>
      if hasFlag {
        r := !s.present;
      } else {
        r := CheckZero(f, s.content);
      }
  }

  method CheckZero(f: Field, c: Content) returns (r: bool)
    requires IsField(f) && Typed(f.ltype, c)
    ensures r == IsZero(f.ltype, c)
    decreases f, 0
  {
    match f.ltype
    case FixedBytes(length) => r := length == 0;
    case ByteArray(_) => r := |c.bytes| == 0;
    case CharArray(_) => r := c.bytes == [];
    case Submessage(fields) => r := CheckAllDefault(fields, c.slots);
    case _ => r := c.n == 0;
  }

  method CheckAllDefault(fields: seq<Field>, slots: seq<Slot>) returns (r: bool)
    requires IsDescriptor(fields) && IsMessage(fields, slots)
    ensures r <==> forall i :: 0 <= i < |fields| ==> IsDefault(fields[i], slots[i])
    decreases fields, 1
  {
    hide IsDescriptor, IsMessage, IsDefault, Which;
    SameLength(fields, slots);
    for i := 0 to |fields|
      invariant forall j :: 0 <= j < i ==> IsDefault(fields[j], slots[j])
    {
      r := CheckDefault(fields, slots, i);
      DefaultOfUnion(fields, slots, i, r);
      if !r {
        return;
      }
    }
    r := true;
  }

  lemma SameLength(fields: seq<Field>, slots: seq<Slot>)
    requires IsMessage(fields, slots)
    ensures |slots| == |fields|
  {
  }

  lemma DefaultOfUnion(fields: seq<Field>, slots: seq<Slot>, i: nat, r: bool)
    requires IsDescriptor(fields) && IsMessage(fields, slots) && i < |fields|
    requires !fields[i].htype.OneOf? ==> (r <==> IsDefault(fields[i], slots[i]))
    requires fields[i].htype.OneOf? ==> (r <==> Which(fields, slots, fields[i].htype.union) == 0)
    ensures r ==> IsDefault(fields[i], slots[i])
    ensures !r ==> exists j :: 0 <= j < |fields| && !IsDefault(fields[j], slots[j])
  {
    hide IsMessage, Typed;
    if fields[i].htype.OneOf? {
      assert forall j :: 0 <= j < |fields| ==> IsField(fields[j]);
      SameLength(fields, slots);
      WhichIsZero(fields, slots, fields[i].htype.union);
      if !r {
        var j :| 0 <= j < |fields| && fields[j].htype == fields[i].htype && IsPresent(slots[j]);
        assert !IsDefault(fields[j], slots[j]);
      }
    }
  }

  // ---------- Bytes so far ----------

  ghost function EncodedUpTo(fields: seq<Field>, slots: seq<Slot>, i: nat): Bytes
    requires IsMessage(fields, slots) && i <= |fields|
  {
    if i == 0 then [] else EncodedUpTo(fields, slots, i - 1) + FieldBytes(fields[i - 1], slots[i - 1])
  }

  lemma {:induction false} Rest(fields: seq<Field>, slots: seq<Slot>, i: nat)
    requires IsMessage(fields, slots) && i <= |fields|
    ensures EncodedUpTo(fields, slots, i) + EncodedFrom(fields, slots, i) == Encoded(fields, slots)
    ensures i == |fields| ==> EncodedUpTo(fields, slots, i) == Encoded(fields, slots)
  {
    hide FieldBytes, IsMessage, TypedSlot, EncodedUpTo, EncodedFrom, Encoded;
    RestEnds(fields, slots);
    if i > 0 {
      Rest(fields, slots, i - 1);
      RestUnfolds(fields, slots, i - 1);
    }
  }

  lemma RestEnds(fields: seq<Field>, slots: seq<Slot>)
    requires IsMessage(fields, slots)
    ensures EncodedUpTo(fields, slots, 0) == [] && EncodedFrom(fields, slots, 0) == Encoded(fields, slots)
    ensures EncodedFrom(fields, slots, |fields|) == []
  {
  }

  lemma RestUnfolds(fields: seq<Field>, slots: seq<Slot>, i: nat)
    requires IsMessage(fields, slots) && i < |fields|
    ensures EncodedUpTo(fields, slots, i + 1) + EncodedFrom(fields, slots, i + 1) ==
            EncodedUpTo(fields, slots, i) + EncodedFrom(fields, slots, i)
  {
    hide FieldBytes, IsMessage, TypedSlot;
    FieldIsTyped(fields, slots, i);
    var b, up, from := FieldBytes(fields[i], slots[i]), EncodedUpTo(fields, slots, i),
        EncodedFrom(fields, slots, i + 1);
    assert EncodedUpTo(fields, slots, i + 1) == up + b && EncodedFrom(fields, slots, i) == b + from;
    assert (up + b) + from == up + (b + from);
  }

  lemma FieldIsTyped(fields: seq<Field>, slots: seq<Slot>, i: nat)
    requires IsMessage(fields, slots) && i < |fields|
    ensures |slots| == |fields| && TypedSlot(fields[i], slots[i])
  {
  }

  ghost predicate FitsUpTo(fields: seq<Field>, slots: seq<Slot>, i: nat)
    requires IsMessage(fields, slots)
  {
    forall j :: 0 <= j < i && j < |fields| ==> FieldFits(fields[j], slots[j])
  }

  lemma FieldOf(fields: seq<Field>, slots: seq<Slot>, i: nat)
    requires IsDescriptor(fields) && IsMessage(fields, slots) && i < |fields|
    ensures |slots| == |fields| && TypedSlot(fields[i], slots[i]) && IsField(fields[i])
  {
  }

  ghost predicate AllItemsFit(t: LType, items: seq<Content>)
    requires forall i :: 0 <= i < |items| ==> Typed(t, items[i])
  {
    forall i :: 0 <= i < |items| ==> Fits(t, items[i])
  }

  lemma NumbersFit(t: LType, items: seq<Content>)
    requires Packable(t) && forall i :: 0 <= i < |items| ==> Typed(t, items[i])
    ensures forall i :: 0 <= i < |items| ==> Fits(t, items[i])
  {
  }

  lemma NoPayloads(t: LType, items: seq<Content>)
    requires forall i :: 0 <= i < |items| ==> Typed(t, items[i])
    ensures Payloads(t, items[..0]) == []
  {
  }

  lemma {:induction false} PayloadsConcat(t: LType, a: seq<Content>, b: seq<Content>)
    requires forall i :: 0 <= i < |a| ==> Typed(t, a[i])
    requires forall i :: 0 <= i < |b| ==> Typed(t, b[i])
    ensures forall i :: 0 <= i < |a + b| ==> Typed(t, (a + b)[i])
    ensures Payloads(t, a + b) == Payloads(t, a) + Payloads(t, b)
  {
    hide Payload, Typed;
    if a == [] {
      assert a + b == b;
    } else {
      PayloadsConcat(t, a[1..], b);
      assert (a + b)[1..] == a[1..] + b;
    }
  }

  lemma PayloadsOne(t: LType, c: Content)
    requires Typed(t, c)
    ensures Payloads(t, [c]) == Payload(t, c)
  {
    hide Payload, Typed;
    assert Payloads(t, [c][1..]) == [];
  }

  lemma PayloadsSplit(t: LType, items: seq<Content>, i: nat)
    requires (forall j :: 0 <= j < |items| ==> Typed(t, items[j])) && i < |items|
    ensures Payloads(t, items[..i + 1]) == Payloads(t, items[..i]) + Payload(t, items[i])
    ensures Payloads(t, items[..i + 1]) + Payloads(t, items[i + 1..]) == Payloads(t, items)
  {
    hide Payload, Typed, Payloads;
    PayloadsOne(t, items[i]);
    assert items[..i] + [items[i]] == items[..i + 1];
    PayloadsConcat(t, items[..i], [items[i]]);
    assert items[..i + 1] + items[i + 1..] == items;
    PayloadsConcat(t, items[..i + 1], items[i + 1..]);
  }

  lemma NoneTagged(f: Field, items: seq<Content>)
    requires forall i :: 0 <= i < |items| ==> Typed(f.ltype, items[i])
    ensures Tagged(f, items[..0]) == []
  {
  }

  lemma {:induction false} TaggedConcat(f: Field, a: seq<Content>, b: seq<Content>)
    requires forall i :: 0 <= i < |a| ==> Typed(f.ltype, a[i])
    requires forall i :: 0 <= i < |b| ==> Typed(f.ltype, b[i])
    ensures forall i :: 0 <= i < |a + b| ==> Typed(f.ltype, (a + b)[i])
    ensures Tagged(f, a + b) == Tagged(f, a) + Tagged(f, b)
  {
    hide Payload, Typed, TagBytes;
    if a == [] {
      assert a + b == b;
    } else {
      TaggedConcat(f, a[1..], b);
      assert (a + b)[1..] == a[1..] + b;
    }
  }

  lemma TaggedOne(f: Field, c: Content)
    requires Typed(f.ltype, c)
    ensures Tagged(f, [c]) == TagBytes(f.tag, WireType(f.ltype)) + Payload(f.ltype, c)
  {
    hide Payload, Typed, TagBytes;
    assert Tagged(f, [c][1..]) == [];
  }

  lemma TaggedSplit(f: Field, items: seq<Content>, i: nat)
    requires (forall j :: 0 <= j < |items| ==> Typed(f.ltype, items[j])) && i < |items|
    ensures Tagged(f, items[..i + 1]) ==
            Tagged(f, items[..i]) + (TagBytes(f.tag, WireType(f.ltype)) + Payload(f.ltype, items[i]))
    ensures Tagged(f, items[..i + 1]) + Tagged(f, items[i + 1..]) == Tagged(f, items)
  {
    hide Payload, Typed, TagBytes, Tagged;
    TaggedOne(f, items[i]);
    assert items[..i] + [items[i]] == items[..i + 1];
    TaggedConcat(f, items[..i], [items[i]]);
    assert items[..i + 1] + items[i + 1..] == items;
    TaggedConcat(f, items[..i + 1], items[i + 1..]);
  }

  lemma {:induction false} FixedSizes(t: LType, items: seq<Content>)
    requires (t.Fixed32? || t.Fixed64?) && forall i :: 0 <= i < |items| ==> Typed(t, items[i])
    ensures |Payloads(t, items)| == (if t.Fixed32? then 4 else 8) * |items|
  {
    if items != [] {
      FixedSizes(t, items[1..]);
    }
  }

  lemma DivSteps(n: nat)
    ensures n / 256 / 256 == n / 0x1_0000
    ensures n / 0x1_0000 / 256 == n / 0x100_0000
    ensures n / 0x100_0000 / 256 == n / 0x1_0000_0000
  {
  }

  lemma FourUnfold(n: nat, a: nat, b: nat, c: nat, d: nat, k: nat)
    requires a == n / 256 && b == a / 256 && c == b / 256 && d == c / 256
    ensures EncodeFixed(n, k + 4) == [n % 256, a % 256, b % 256, c % 256] + EncodeFixed(d, k)
    ensures k == 0 ==> EncodeFixed(n, 4) == [n % 256, a % 256, b % 256, c % 256]
  {
    assert EncodeFixed(c, k + 1) == [c % 256] + EncodeFixed(d, k);
    assert EncodeFixed(b, k + 2) == [b % 256] + EncodeFixed(c, k + 1);
    assert EncodeFixed(a, k + 3) == [a % 256] + EncodeFixed(b, k + 2);
  }

  lemma FourBytes(n: nat, k: nat)
    ensures EncodeFixed(n, k + 4) ==
            [n % 256, n / 0x100 % 256, n / 0x1_0000 % 256, n / 0x100_0000 % 256] + EncodeFixed(n / 0x1_0000_0000, k)
    ensures k == 0 ==> EncodeFixed(n, 4) == [n % 256, n / 0x100 % 256, n / 0x1_0000 % 256, n / 0x100_0000 % 256]
  {
    DivSteps(n);
    var a, b, c, d := n / 256, n / 0x1_0000, n / 0x100_0000, n / 0x1_0000_0000;
    FourUnfold(n, a, b, c, d, k);
  }

  lemma TailOf(a: array<byte>, start: nat, end: nat)
    requires start <= end <= a.Length
    ensures a[end..] == a[start..][end - start..]
  {
  }

  lemma SubstreamEnds(stream: OStream, start: nat, tail: Bytes)
    requires stream.Valid() && stream.callback && stream.Now().room == 0 && stream.Now().after == tail
    requires start + |tail| == stream.dest.Length
    ensures stream.bytesWritten == stream.maxSize && stream.state == start && stream.dest[start..] == tail
    ensures stream.Now().before == stream.dest[..start]
  {
    assert stream.Now().after == stream.dest[stream.state..];
  }

  method VarintBytes(value: nat) returns (buffer: Bytes)
    requires value > 0x7F
    ensures buffer == PutVarint32(value)
  {
    hide Continued, PutVarint32;
    buffer := [];
    var left := value;
    while left != 0
      invariant left != 0 ==> buffer + Continued(left) == Continued(value)
      invariant left == 0 ==> buffer == Continued(value)
    {
      ContinuedUnfolds(buffer, left);
      buffer := buffer + [left % 128 + 128];
      left := left / 128;
    }
    ClearTopBit(value);
    buffer := buffer[|buffer| - 1 := buffer[|buffer| - 1] - 128];
  }

  // The bytes of a varint before the top bit of the last one is cleared.
  ghost function Continued(n: nat): (b: Bytes)
    requires n > 0
    ensures |b| > 0
  {
    [n % 128 + 128] + (if n < 128 then [] else Continued(n / 128))
  }

  lemma ContinuedUnfolds(buffer: Bytes, n: nat)
    requires n > 0
    ensures n < 128 ==> n / 128 == 0 && buffer + [n % 128 + 128] == buffer + Continued(n)
    ensures n >= 128 ==> n / 128 > 0 && buffer + [n % 128 + 128] + Continued(n / 128) == buffer + Continued(n)
  {
  }

  lemma {:induction false} ClearTopBit(n: nat)
    requires n > 0
    ensures var b := Continued(n);
            b[|b| - 1] >= 128 && b[|b| - 1 := b[|b| - 1] - 128] == PutVarint32(n)
  {
    if n >= 128 {
      ClearTopBit(n / 128);
    }
  }
}
