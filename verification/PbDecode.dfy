/** nanopb's decoder (ios/Pods/nanopb/pb_decode.c, pb_common.c): streams over a buffer, the field iterator
    that wraps around, and the loop over the fields of a message. */
module PbDecode {
  import opened Dbformat
  import opened Coding
  import opened Pb
  import opened PbParse

  // pb_field_iter_t
  class FieldIter {
    const fields: seq<Field>
    var pos: nat
    var requiredFieldIndex: nat

    ghost predicate Valid()
      reads this
    {
      && (if fields == [] then pos == 0 else pos < |fields|)
      && requiredFieldIndex == RequiredBefore(fields, pos)
    }

    // pb_field_iter_begin
    constructor (fields: seq<Field>)
      ensures Valid() && this.fields == fields && pos == 0
    {
      this.fields, pos, requiredFieldIndex := fields, 0, 0;
    }

    // pb_field_iter_next
    method Next() returns (more: bool)
      requires Valid()
      modifies this
      ensures Valid() && more == (old(pos) + 1 < |fields|) && pos == if more then old(pos) + 1 else 0
    {
      if fields == [] {
        return false;
      }
      var previous := fields[pos];
      pos := pos + 1;
      if pos == |fields| {
        pos, requiredFieldIndex := 0, 0;  // wrapped back to the beginning
        return false;
      }
      if previous.htype.Required? {
        requiredFieldIndex := requiredFieldIndex + 1;
      }
      more := true;
    }

    // pb_field_iter_find: from where the iterator stands, once around.
    method Find(tag: nat) returns (found: bool)
      requires Valid() && forall i, j :: 0 <= i < j < |fields| ==> fields[i].tag != fields[j].tag
      modifies this
      ensures Valid() && found == IndexOf(fields, tag).Some?
      ensures found ==> IndexOf(fields, tag) == Some(pos)
    {
      var start, n := pos, |fields|;
      if n == 0 {
        return false;
      }
      var seen := 0;
      while seen == 0 || pos != start
        invariant Valid() && seen <= n && pos == if start + seen < n then start + seen else start + seen - n
        invariant forall j :: 0 <= j < n && (start <= j < start + seen || j < start + seen - n) ==> fields[j].tag != tag
        decreases n - seen
      {
        if fields[pos].tag == tag {
          return true;
        }
        var more := Next();
        seen := seen + 1;
      }
      found := false;
    }

    // How many fields are required: the count at the last field, and perhaps that field.
    method CountRequired() returns (count: nat)
      requires Valid()
      modifies this
      ensures Valid() && count == RequiredBefore(fields, |fields|)
    {
      if fields == [] {
        return 0;
      }
      count := 0;
      var more := true;
      var last := fields[pos];
      while more
        invariant Valid() && (!more ==> count == RequiredBefore(fields, |fields| - 1) && last == fields[|fields| - 1])
        decreases more, |fields| - pos
      {
        count, last := requiredFieldIndex, fields[pos];
        more := Next();
      }
      if last.htype.Required? {
        count := count + 1;
      }
    }
  }

  // pb_istream_t
  class IStream {
    const data: Bytes
    var state: nat
    var bytesLeft: nat

    ghost predicate Valid()
      reads this
    {
      state + bytesLeft <= |data|
    }

    ghost predicate At(p: nat, limit: nat)
      reads this
    {
      state == p && state + bytesLeft == limit
    }

    constructor (data: Bytes, start: nat, size: nat)
      requires start + size <= |data|
      ensures Valid() && this.data == data && At(start, start + size)
    {
      this.data, state, bytesLeft := data, start, size;
    }

    // pb_read
    method Read(count: nat) returns (r: Option<Bytes>)
      requires Valid()
      modifies this
      ensures Valid()
      ensures if count > old(bytesLeft) then r == None && unchanged(this)
              else r == Some(data[old(state)..old(state) + count]) && At(old(state) + count, old(state + bytesLeft))
    {
      if bytesLeft < count {
        return None;
      }
      r := Some(data[state..state + count]);
      state, bytesLeft := state + count, bytesLeft - count;
    }

    // pb_readbyte
    method ReadByte() returns (r: Option<byte>)
      requires Valid()
      modifies this
      ensures Valid()
      ensures if old(bytesLeft) == 0 then r == None && unchanged(this)
              else r == Some(data[old(state)]) && At(old(state) + 1, old(state + bytesLeft))
    {
      if bytesLeft == 0 {
        return None;
      }
      r := Some(data[state]);
      state, bytesLeft := state + 1, bytesLeft - 1;
    }

    // pb_decode_varint32
    method DecodeVarint32() returns (r: Option<nat>)
      requires Valid()
      modifies this
      ensures Valid()
      ensures var v := Varint32At(data, old(state), old(state + bytesLeft));
              (r.Some? <==> v.Some?) && (r.Some? ==> r.value == v.value.0 && At(v.value.1, old(state + bytesLeft)))
    {
      hide Shifted, With;
      ghost var limit := state + bytesLeft;
      var b := ReadByte();
      if b.None? {
        return None;
      }
      if b.value < 128 {
        return Some(b.value);
      }
      var bitpos: nat, result: nat := 7, b.value - 128;
      ghost var v := Varint32At(data, old(state), limit);
      while true
        invariant Valid() && state + bytesLeft == limit && result < LIMIT32 && bitpos < 256
        invariant v == MoreOf32(data, state, limit, bitpos, result)
        decreases bytesLeft
      {
        b := ReadByte();
        if b.None? || Overflows(result, b.value, bitpos) {
          return None;
        }
        result := With(result, b.value, bitpos);
        bitpos := (bitpos + 7) % 256;
        if b.value < 128 {
          break;
        }
      }
      // The last byte may have been at bit 28, where only four bits fit.
      if bitpos == 35 && b.value / 16 % 8 != 0 {
        return None;
      }
      r := Some(result);
    }

    // pb_decode_varint: ten bytes at most, as in util/coding.cc of LevelDB.
    method DecodeVarint() returns (r: Option<nat>)
      requires Valid()
      modifies this
      ensures Valid()
      ensures var v := Varint64(data, old(state), old(state + bytesLeft));
              (r.Some? <==> v.Some?) && (r.Some? ==> r.value == v.value.0 && At(v.value.1, old(state + bytesLeft)))
    {
      hide GetVarint, PutVarint32;
      var v := GetVarint64Ptr(data, state, state + bytesLeft);
      if v.None? {
        return None;
      }
      r := Some(v.value.0);
      state, bytesLeft := v.value.1, state + bytesLeft - v.value.1;
    }

    // pb_skip_field
    method SkipField(wireType: nat) returns (ok: bool)
      requires Valid()
      modifies this
      ensures Valid()
      ensures var q := Skipped(data, old(state), old(state + bytesLeft), wireType);
              ok == q.Some? && (ok ==> At(q.value, old(state + bytesLeft)))
    {
      hide Varint32At, SkippedVarint;
      var bytes: Option<Bytes>;
      match wireType {
        case 0 =>
          ok := SkipVarint();
          return;
        case 1 =>
          bytes := Read(8);
        case 2 =>
          var length := DecodeVarint32();
          if length.None? {
            return false;
          }
          bytes := Read(length.value);
        case 5 =>
          bytes := Read(4);
        case _ =>
          return false;
      }
      ok := bytes.Some?;
    }

    // pb_skip_varint
    method SkipVarint() returns (ok: bool)
      requires Valid()
      modifies this
      ensures Valid()
      ensures var q := SkippedVarint(data, old(state), old(state + bytesLeft));
              ok == q.Some? && (ok ==> At(q.value, old(state + bytesLeft)))
    {
      ghost var limit, q := state + bytesLeft, SkippedVarint(data, state, state + bytesLeft);
      while true
        invariant Valid() && state + bytesLeft == limit && q == SkippedVarint(data, state, limit)
        decreases bytesLeft
      {
        var b := ReadByte();
        if b.None? || b.value < 128 {
          return b.Some?;
        }
      }
    }

    // pb_make_string_substream: the stream goes on after the substream once that is closed.
    method MakeStringSubstream() returns (substream: Option<IStream>)
      requires Valid()
      modifies this
      ensures Valid() && (substream.Some? <==> Sized(data, old(state), old(state + bytesLeft)).Some?)
      ensures substream.Some? ==>
                var (p, q), sub := Sized(data, old(state), old(state + bytesLeft)).value, substream.value;
                && fresh(sub) && sub.Valid() && sub.data == data && sub.At(p, q)
                && state == p && q + bytesLeft == old(state + bytesLeft)
    {
      hide Varint32At;
      var size := DecodeVarint32();
      if size.None? || bytesLeft < size.value {
        return None;
      }
      var s := new IStream(data, state, size.value);
      bytesLeft := bytesLeft - size.value;
      substream := Some(s);
    }

    // pb_close_string_substream: what is left of it is skipped.
    method CloseStringSubstream(substream: IStream)
      requires Valid() && substream.Valid() && substream != this && substream.data == data
      requires substream.state + substream.bytesLeft + bytesLeft <= |data|
      modifies this, substream
      ensures Valid()
      ensures At(old(substream.state + substream.bytesLeft), old(substream.state + substream.bytesLeft + bytesLeft))
    {
      var rest := substream.Read(substream.bytesLeft);
      state := substream.state;
    }

    // The field decoders of PB_DECODERS.
    method DecodeContent(t: LType, target: Content) returns (r: Option<Content>)
      requires Valid() && (t.Submessage? ==> IsDescriptor(t.fields))
      modifies this
      ensures Valid()
      ensures var c := Parsed(t, target, data, old(state), old(state + bytesLeft));
              (r.Some? <==> c.Some?) && (r.Some? ==> r.value == c.value.0 && At(c.value.1, old(state + bytesLeft)))
      decreases t, 0
    {
      hide Varint32At, Varint64, Sized, Message, IsDescriptor, SignedValue, UnZigZag, DecodeFixed, Text;
      match t
      case Bool =>
        var value := DecodeVarint32();
        r := if value.None? then None else Some(Number(if value.value != 0 then 1 else 0));
      case VarInt(w) =>
        var value := DecodeVarint();
        r := if value.None? then None else Clamped(-Half(w), SignedValue(value.value, w), Half(w));
      case UVarInt(w) =>
        var value := DecodeVarint();
        r := if value.None? then None else Clamped(0, value.value, 2 * Half(w));
      case SVarInt(w) =>
        var value := DecodeVarint();
        r := if value.None? then None else Clamped(-Half(w), UnZigZag(value.value), Half(w));
      case Fixed32 =>
        var bytes := Read(4);
        r := if bytes.None? then None else Some(Number(DecodeFixed(bytes.value)));
      case Fixed64 =>
        var bytes := Read(8);
        r := if bytes.None? then None else Some(Number(DecodeFixed(bytes.value)));
      case ByteArray(room) => r := DecodeBytes(room);
      case CharArray(room) => r := DecodeString(room);
      case FixedBytes(length) => r := DecodeFixedLengthBytes(length);
      case Submessage(fields) => r := DecodeSubmessage(fields, target);
    }

    // pb_dec_bytes
    method DecodeBytes(room: nat) returns (r: Option<Content>)
      requires Valid()
      modifies this
      ensures Valid()
      ensures var c := Parsed(ByteArray(room), Number(0), data, old(state), old(state + bytesLeft));
              (r.Some? <==> c.Some?) && (r.Some? ==> r.value == c.value.0 && At(c.value.1, old(state + bytesLeft)))
    {
      hide Varint32At;
      var size := DecodeVarint32();
      if size.None? || size.value > room {
        return None;
      }
      var bytes := Read(size.value);
      r := if bytes.None? then None else Some(Octets(bytes.value));
    }

    // pb_dec_string
    method DecodeString(room: nat) returns (r: Option<Content>)
      requires Valid()
      modifies this
      ensures Valid()
      ensures var c := Parsed(CharArray(room), Number(0), data, old(state), old(state + bytesLeft));
              (r.Some? <==> c.Some?) && (r.Some? ==> r.value == c.value.0 && At(c.value.1, old(state + bytesLeft)))
    {
      hide Varint32At, Text;
      var size := DecodeVarint32();
      if size.None? || size.value + 1 > room {
        return None;
      }
      var bytes := Read(size.value);
      r := if bytes.None? then None else Some(Octets(Text(bytes.value)));
    }

    // pb_dec_fixed_length_bytes
    method DecodeFixedLengthBytes(length: nat) returns (r: Option<Content>)
      requires Valid()
      modifies this
      ensures Valid()
      ensures var c := Parsed(FixedBytes(length), Number(0), data, old(state), old(state + bytesLeft));
              (r.Some? <==> c.Some?) && (r.Some? ==> r.value == c.value.0 && At(c.value.1, old(state + bytesLeft)))
    {
      hide Varint32At;
      var size := DecodeVarint32();
      if size.None? {
        return None;
      }
      if size.value == 0 {
        return Some(Octets(seq(length, _ => 0)));
      }
      if size.value != length {
        return None;
      }
      var bytes := Read(length);
      r := if bytes.None? then None else Some(Octets(bytes.value));
    }

    // pb_dec_submessage; a fresh array item has its defaults already.
    method DecodeSubmessage(fields: seq<Field>, target: Content) returns (r: Option<Content>)
      requires Valid() && IsDescriptor(fields)
      modifies this
      ensures Valid()
      ensures var c := Parsed(Submessage(fields), target, data, old(state), old(state + bytesLeft));
              (r.Some? <==> c.Some?) && (r.Some? ==> r.value == c.value.0 && At(c.value.1, old(state + bytesLeft)))
      decreases fields, 1
    {
      hide Sized, Message, IsDescriptor, SlotsOf;
      var substream := MakeStringSubstream();
      if substream.None? {
        return None;
      }
      var slots := substream.value.DecodeNoinit(fields, SlotsOf(fields, target));
      if slots.None? {
        return None;
      }
      CloseStringSubstream(substream.value);
      r := Some(Struct(slots.value));
    }

    // decode_static_field
    method DecodeStaticField(f: Field, wireType: nat, s: Slot) returns (r: Option<Slot>)
      requires Valid() && IsField(f)
      modifies this
      ensures Valid()
      ensures var c := ParsedSlot(f, wireType, s, data, old(state), old(state + bytesLeft));
              (r.Some? <==> c.Some?) && (r.Some? ==> r.value == c.value.0 && At(c.value.1, old(state + bytesLeft)))
      decreases f, 0
    {
      hide Sized, Parsed, Packed, InitialContent, Typed;
      match f.htype
      case Repeated(arraySize) =>
        if wireType == LENGTH_DELIMITED && Packable(f.ltype) {
          var substream := MakeStringSubstream();
          if substream.None? {
            return None;
          }
          var items := substream.value.DecodePacked(f.ltype, ItemsOf(s), arraySize);
          if items.None? {
            return None;
          }
          CloseStringSubstream(substream.value);
          r := Some(Many(items.value));
        } else {
          if |ItemsOf(s)| >= arraySize {
            return None;
          }
          var c := DecodeContent(f.ltype, InitialContent(f.ltype, Number(0)));
          r := if c.None? then None else Some(Many(ItemsOf(s) + [c.value]));
        }
      case _ =>
        var c := DecodeContent(f.ltype, Target(f, s));
        r := if c.None? then None else Some(One(true, c.value));
    }

    // The loop over a packed array.
    method DecodePacked(t: LType, items0: seq<Content>, arraySize: nat) returns (r: Option<seq<Content>>)
      requires Valid() && Packable(t)
      modifies this
      ensures Valid() && r == Packed(t, data, old(state), old(state + bytesLeft), items0, arraySize)
      ensures r.Some? ==> At(old(state + bytesLeft), old(state + bytesLeft))
      decreases t, 1
    {
      hide Parsed, InitialContent;
      var items := items0;
      ghost var limit, all := state + bytesLeft, Packed(t, data, state, state + bytesLeft, items0, arraySize);
      while bytesLeft > 0 && |items| < arraySize
        invariant Valid() && state + bytesLeft == limit && all == Packed(t, data, state, limit, items, arraySize)
        decreases if |items| < arraySize then arraySize - |items| else 0
      {
        var c := DecodeContent(t, InitialContent(t, Number(0)));
        if c.None? {
          return None;
        }
        items := items + [c.value];
      }
      r := if bytesLeft != 0 then None else Some(items);
    }

    // A field whose tag is not found; with an empty descriptor, tag 0 is the end mark's.
    method SkipUnknown(fields: seq<Field>, key: nat) returns (ok: bool)
      requires Valid()
      modifies this
      ensures Valid()
      ensures var q := if fields == [] && key < 8 then AfterBool(data, old(state), old(state + bytesLeft))
                       else Skipped(data, old(state), old(state + bytesLeft), key % 8);
              ok == q.Some? && (ok ==> At(q.value, old(state + bytesLeft)))
    {
      hide Varint32At, Skipped;
      if fields == [] && key < 8 {
        var flag := DecodeVarint32();
        ok := flag.Some?;
      } else {
        ok := SkipField(key % 8);
      }
    }

    // pb_decode_noinit
    method DecodeNoinit(fields: seq<Field>, slots0: seq<Slot>) returns (r: Option<seq<Slot>>)
      requires Valid() && IsDescriptor(fields) && |slots0| == |fields|
      modifies this
      ensures Valid() && r == Message(fields, data, old(state), old(state + bytesLeft), slots0, {})
      ensures r.Some? ==> state <= old(state + bytesLeft) && state + bytesLeft == old(state + bytesLeft)
      decreases fields, 0
    {
      hide Varint32At, ParsedSlot, Skipped, AfterBool, IndexOf, Stored, RequiredSeen, RequiredBefore, Message, IsField;
      var iter := new FieldIter(fields);
      var slots, seen := slots0, {};
      ghost var limit, all := state + bytesLeft, Message(fields, data, state, state + bytesLeft, slots0, {});
      MessageEnds(fields, data, limit);
      while bytesLeft > 0
        invariant Valid() && state + bytesLeft == limit && |slots| == |fields|
        invariant iter.Valid() && iter.fields == fields && fresh(iter)
        invariant all == Message(fields, data, state, limit, slots, seen)
        decreases bytesLeft
      {
        MessageUnfolds(fields, data, state, limit, slots, seen);
        var key := DecodeVarint32();
        if key.None? {
          return None;
        }
        if key.value == 0 {
          break;  // zero-terminated
        }
        var found := iter.Find(key.value / 8);
        if !found {
          var ok := SkipUnknown(fields, key.value);
          if !ok {
            return None;
          }
        } else {
          var i := iter.pos;
          if fields[i].htype.Required? && iter.requiredFieldIndex < MAX_REQUIRED_FIELDS {
            seen := seen + {iter.requiredFieldIndex};
          }
          var s := DecodeStaticField(fields[i], key.value % 8, slots[i]);
          if s.None? {
            return None;
          }
          slots := Stored(fields, slots, i, s.value);
        }
      }
      var complete := AllRequiredSeen(iter, seen);
      r := if complete then Some(slots) else None;
    }

    // pb_decode
    method Decode(fields: seq<Field>) returns (r: Option<seq<Slot>>)
      requires Valid() && IsDescriptor(fields)
      modifies this
      ensures Valid() && r == Message(fields, data, old(state), old(state + bytesLeft), Defaults(fields), {})
    {
      hide Message, IsDescriptor, Defaults;
      var slots := SetToDefaults(fields);
      r := DecodeNoinit(fields, slots);
    }
  }

  function Clamped(low: int, n: int, high: int): Option<Content> {
    if low <= n < high then Some(Number(n)) else None
  }

  lemma MessageEnds(fields: seq<Field>, data: Bytes, limit: nat)
    requires limit <= |data|
    ensures forall slots, seen ::
              |slots| == |fields| ==> Message(fields, data, limit, limit, slots, seen) == Finished(fields, slots, seen)
  {
  }

  // One step of the loop in pb_decode_noinit.
  lemma MessageUnfolds(fields: seq<Field>, data: Bytes, p: nat, limit: nat, slots: seq<Slot>, seen: set<nat>)
    requires p < limit <= |data| && |slots| == |fields|
    ensures var key := Varint32At(data, p, limit);
            Message(fields, data, p, limit, slots, seen) ==
            if key.None? then None
            else if key.value.0 == 0 then Finished(fields, slots, seen)
            else
              var i := IndexOf(fields, key.value.0 / 8);
              if i.None? then
                var q := if fields == [] && key.value.0 < 8 then AfterBool(data, key.value.1, limit)
                         else Skipped(data, key.value.1, limit, key.value.0 % 8);
                if q.None? then None else Message(fields, data, q.value, limit, slots, seen)
              else
                var s := ParsedSlot(fields[i.value], key.value.0 % 8, slots[i.value], data, key.value.1, limit);
                if s.None? then None
                else Message(fields, data, s.value.1, limit, Stored(fields, slots, i.value, s.value.0),
                             SeenWith(fields, seen, i.value))
  {
  }

  // The check at the end of pb_decode_noinit.
  method AllRequiredSeen(iter: FieldIter, seen: set<nat>) returns (complete: bool)
    requires iter.Valid()
    modifies iter
    ensures complete == RequiredSeen(iter.fields, seen)
  {
    hide RequiredBefore;
    var count := iter.CountRequired();
    if count > MAX_REQUIRED_FIELDS {
      count := MAX_REQUIRED_FIELDS;
    }
    for n := 0 to count
      invariant forall m :: 0 <= m < n ==> m in seen
    {
      if n !in seen {
        return false;
      }
    }
    complete := true;
  }

  // pb_message_set_to_defaults
  method SetToDefaults(fields: seq<Field>) returns (slots: seq<Slot>)
    ensures slots == Defaults(fields)
  {
    slots := [];
    for i := 0 to |fields|
      invariant |slots| == i && forall j :: 0 <= j < i ==> slots[j] == InitialSlot(fields[j])
    {
      slots := slots + [InitialSlot(fields[i])];
    }
  }
}
