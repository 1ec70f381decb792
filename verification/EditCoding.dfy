/** Version edits as manifest records (db/version_edit.cc). */
module EditCoding {
  import opened Dbformat
  import opened Coding

  // Tag numbers; 8 was once used for large value references.
  const COMPARATOR: nat := 1
  const LOG_NUMBER: nat := 2
  const NEXT_FILE_NUMBER: nat := 3
  const LAST_SEQUENCE: nat := 4
  const COMPACT_POINTER: nat := 5
  const DELETED_FILE: nat := 6
  const NEW_FILE: nat := 7
  const PREV_LOG_NUMBER: nat := 9

  // A file as an edit lists it; keys are in their encoded form.
  datatype FileRecord = FileRecord(number: nat, fileSize: nat, smallest: Bytes, largest: Bytes)

  datatype Edit = Edit(comparator: Option<Bytes>, logNumber: Option<nat>, prevLogNumber: Option<nat>,
    nextFileNumber: Option<nat>, lastSequence: Option<nat>, compactPointers: seq<(nat, Bytes)>,
    deletedFiles: set<(nat, nat)>, newFiles: seq<(nat, FileRecord)>)

  const CLEAR: Edit := Edit(None, None, None, None, None, [], {}, [])

  // What Clear leaves of an edit: the compaction pointers stay.
  function Cleared(e: Edit): Edit { CLEAR.(compactPointers := e.compactPointers) }

  // One tagged field of an edit.
  datatype Field =
    | Comparator(name: Bytes)
    | LogNumber(n: nat)
    | PrevLogNumber(n: nat)
    | NextFileNumber(n: nat)
    | LastSequence(n: nat)
    | CompactPointer(level: nat, key: Bytes)
    | DeletedFile(level: nat, number: nat)
    | NewFile(level: nat, file: FileRecord)

  ghost predicate ValidField(f: Field) {
    match f
    case Comparator(name) => |name| < LIMIT32
    case LogNumber(n) => n < LIMIT64
    case PrevLogNumber(n) => n < LIMIT64
    case NextFileNumber(n) => n < LIMIT64
    case LastSequence(n) => n < LIMIT64
    case CompactPointer(level, key) => level < NUM_LEVELS && |key| < LIMIT32
    case DeletedFile(level, number) => level < NUM_LEVELS && number < LIMIT64
    case NewFile(level, file) => level < NUM_LEVELS && ValidRecord(file)
  }

  ghost predicate ValidRecord(f: FileRecord) {
    f.number < LIMIT64 && f.fileSize < LIMIT64 && |f.smallest| < LIMIT32 && |f.largest| < LIMIT32
  }

  // What reading the field does to the edit.
  function Collect(e: Edit, f: Field): Edit {
    match f
    case Comparator(name) => e.(comparator := Some(name))
    case LogNumber(n) => e.(logNumber := Some(n))
    case PrevLogNumber(n) => e.(prevLogNumber := Some(n))
    case NextFileNumber(n) => e.(nextFileNumber := Some(n))
    case LastSequence(n) => e.(lastSequence := Some(n))
    case CompactPointer(level, key) => e.(compactPointers := e.compactPointers + [(level, key)])
    case DeletedFile(level, number) => e.(deletedFiles := e.deletedFiles + {(level, number)})
    case NewFile(level, file) => e.(newFiles := e.newFiles + [(level, file)])
  }

  function CollectAll(e: Edit, fs: seq<Field>): Edit
    decreases |fs|
  {
    if fs == [] then e else CollectAll(Collect(e, fs[0]), fs[1..])
  }

  // ---------- Bytes ----------

  function Prefixed(s: Bytes): Bytes { PutVarint32(|s|) + s }

  function Body(f: Field): Bytes {
    match f
    case Comparator(name) => Prefixed(name)
    case LogNumber(n) => PutVarint32(n)
    case PrevLogNumber(n) => PutVarint32(n)
    case NextFileNumber(n) => PutVarint32(n)
    case LastSequence(n) => PutVarint32(n)
    case CompactPointer(level, key) => PutVarint32(level) + Prefixed(key)
    case DeletedFile(level, number) => PutVarint32(level) + PutVarint32(number)
    case NewFile(level, file) =>
      PutVarint32(level) +
      (PutVarint32(file.number) + (PutVarint32(file.fileSize) + (Prefixed(file.smallest) + Prefixed(file.largest))))
  }

  function TagOf(f: Field): nat {
    match f
    case Comparator(_) => COMPARATOR
    case LogNumber(_) => LOG_NUMBER
    case PrevLogNumber(_) => PREV_LOG_NUMBER
    case NextFileNumber(_) => NEXT_FILE_NUMBER
    case LastSequence(_) => LAST_SEQUENCE
    case CompactPointer(_, _) => COMPACT_POINTER
    case DeletedFile(_, _) => DELETED_FILE
    case NewFile(_, _) => NEW_FILE
  }

  function FieldBytes(f: Field): Bytes { PutVarint32(TagOf(f)) + Body(f) }

  function Encoded(fs: seq<Field>): Bytes {
    if fs == [] then [] else FieldBytes(fs[0]) + Encoded(fs[1..])
  }

  lemma {:induction false} AppendField(e: Edit, fs: seq<Field>, f: Field)
    ensures CollectAll(e, fs + [f]) == Collect(CollectAll(e, fs), f) && Encoded(fs + [f]) == Encoded(fs) + FieldBytes(f)
    decreases |fs|
  {
    hide FieldBytes, Collect;
    if fs == [] {
      assert fs + [f] == [f] && [f][1..] == [];
    } else {
      AppendField(Collect(e, fs[0]), fs[1..], f);
      assert (fs + [f])[1..] == fs[1..] + [f];
      assert FieldBytes(fs[0]) + (Encoded(fs[1..]) + FieldBytes(f)) ==
          FieldBytes(fs[0]) + Encoded(fs[1..]) + FieldBytes(f);
    }
  }

  // ---------- Parsing ----------

  datatype Parsed = End | Malformed | Got(field: Field, next: nat)

  // GetLengthPrefixedSlice.
  function Slice(data: Bytes, p: nat): (r: Option<(Bytes, nat)>)
    requires p <= |data|
    ensures r.Some? ==> p < r.value.1 <= |data|
  {
    var n := Varint32(data, p, |data|);
    if n.None? || n.value.1 + n.value.0 > |data| then None
    else Some((data[n.value.1..n.value.1 + n.value.0], n.value.1 + n.value.0))
  }

  // GetLevel.
  function Level(data: Bytes, p: nat): (r: Option<(nat, nat)>)
    requires p <= |data|
    ensures r.Some? ==> p < r.value.1 <= |data| && r.value.0 < NUM_LEVELS
  {
    var n := Varint32(data, p, |data|);
    if n.None? || n.value.0 >= NUM_LEVELS then None else n
  }

  function Number(data: Bytes, p: nat): (r: Option<(nat, nat)>)
    requires p <= |data|
    ensures r.Some? ==> p < r.value.1 <= |data|
  {
    Varint64(data, p, |data|)
  }

  function OneNumber(n: Option<(nat, nat)>, field: nat -> Field): Parsed {
    if n.None? then Malformed else Got(field(n.value.0), n.value.1)
  }

  function NewFileAt(data: Bytes, p: nat): (r: Parsed)
    requires p <= |data|
    ensures r.Got? ==> p < r.next <= |data|
  {
    var level := Level(data, p);
    if level.None? then Malformed else
    var number := Number(data, level.value.1);
    if number.None? then Malformed else
    var size := Number(data, number.value.1);
    if size.None? then Malformed else
    var smallest := Slice(data, size.value.1);
    if smallest.None? then Malformed else
    var largest := Slice(data, smallest.value.1);
    if largest.None? then Malformed else
    Got(NewFile(level.value.0, FileRecord(number.value.0, size.value.0, smallest.value.0, largest.value.0)),
        largest.value.1)
  }

  // The field whose tag has just been read.
  function FieldAt(tag: nat, data: Bytes, p: nat): (r: Parsed)
    requires p <= |data|
    ensures r.Got? ==> p < r.next <= |data|
  {
    if tag == COMPARATOR then
      var s := Slice(data, p);
      if s.None? then Malformed else Got(Comparator(s.value.0), s.value.1)
    else if tag == LOG_NUMBER then OneNumber(Number(data, p), (n: nat) => LogNumber(n))
    else if tag == PREV_LOG_NUMBER then OneNumber(Number(data, p), (n: nat) => PrevLogNumber(n))
    else if tag == NEXT_FILE_NUMBER then OneNumber(Number(data, p), (n: nat) => NextFileNumber(n))
    else if tag == LAST_SEQUENCE then OneNumber(Number(data, p), (n: nat) => LastSequence(n))
    else if tag == COMPACT_POINTER then
      var level := Level(data, p);
      if level.None? then Malformed else
      var key := Slice(data, level.value.1);
      if key.None? then Malformed else Got(CompactPointer(level.value.0, key.value.0), key.value.1)
    else if tag == DELETED_FILE then
      var level := Level(data, p);
      if level.None? then Malformed
        else OneNumber(Number(data, level.value.1), (n: nat) => DeletedFile(level.value.0, n))
    else if tag == NEW_FILE then NewFileAt(data, p)
    else Malformed
  }

  function ParsedAt(data: Bytes, p: nat): (r: Parsed)
    requires p <= |data|
    ensures r.Got? ==> p < r.next <= |data|
  {
    var tag := Varint32(data, p, |data|);
    if tag.None? then End else FieldAt(tag.value.0, data, tag.value.1)
  }

  // The edit the bytes from p on add up to, or nothing when they are not a list of fields.
  function Decoded(e: Edit, data: Bytes, p: nat): Option<Edit>
    requires p <= |data|
    decreases |data| - p
  {
    match ParsedAt(data, p)
    case End => if p == |data| then Some(e) else None
    case Malformed => None
    case Got(f, q) => Decoded(Collect(e, f), data, q)
  }

  // ---------- Parsing undoes encoding ----------

  lemma SliceOfPrefixed(data: Bytes, p: nat, s: Bytes)
    requires |s| < LIMIT32 && Starts(data, p, |data|, Prefixed(s))
    ensures Slice(data, p) == Some((s, p + |Prefixed(s)|))
  {
    hide Varint32, PutVarint32;
    StartsSplit(data, p, |data|, PutVarint32(|s|), s);
    Varint32OfPut(data, p, |data|, |s|);
  }

  lemma LevelOfPut(data: Bytes, p: nat, level: nat)
    requires level < NUM_LEVELS && Starts(data, p, |data|, PutVarint32(level))
    ensures Level(data, p) == Some((level, p + |PutVarint32(level)|))
  {
    hide Varint32, PutVarint32, Starts;
    Varint32OfPut(data, p, |data|, level);
  }

  lemma NewFileOfBody(data: Bytes, p: nat, level: nat, f: FileRecord)
    requires level < NUM_LEVELS && ValidRecord(f) && Starts(data, p, |data|, Body(NewFile(level, f)))
    ensures NewFileAt(data, p) == Got(NewFile(level, f), p + |Body(NewFile(level, f))|)
  {
    hide Varint32, Varint64, PutVarint32, Starts, Slice, Level, Prefixed;
    var ls, ns, zs, ss, gs := PutVarint32(level), PutVarint32(f.number), PutVarint32(f.fileSize), Prefixed(f.smallest),
        Prefixed(f.largest);
    assert Body(NewFile(level, f)) == ls + (ns + (zs + (ss + gs)));
    StartsSplit(data, p, |data|, ls, ns + (zs + (ss + gs)));
    LevelOfPut(data, p, level);
    var q := p + |ls|;
    StartsSplit(data, q, |data|, ns, zs + (ss + gs));
    Varint64OfPut(data, q, |data|, f.number);
    q := q + |ns|;
    StartsSplit(data, q, |data|, zs, ss + gs);
    Varint64OfPut(data, q, |data|, f.fileSize);
    q := q + |zs|;
    StartsSplit(data, q, |data|, ss, gs);
    SliceOfPrefixed(data, q, f.smallest);
    SliceOfPrefixed(data, q + |ss|, f.largest);
  }

  lemma FieldOfBody(data: Bytes, p: nat, f: Field)
    requires ValidField(f) && Starts(data, p, |data|, Body(f)) && p <= |data|
    ensures FieldAt(TagOf(f), data, p) == Got(f, p + |Body(f)|)
  {
    hide Varint32, Varint64, PutVarint32, Starts, Slice, Level, Prefixed, NewFileAt, ValidRecord;
    match f
    case Comparator(name) => SliceOfPrefixed(data, p, name);
    case LogNumber(n) => Varint64OfPut(data, p, |data|, n);
    case PrevLogNumber(n) => Varint64OfPut(data, p, |data|, n);
    case NextFileNumber(n) => Varint64OfPut(data, p, |data|, n);
    case LastSequence(n) => Varint64OfPut(data, p, |data|, n);
    case CompactPointer(level, key) =>
      StartsSplit(data, p, |data|, PutVarint32(level), Prefixed(key));
      LevelOfPut(data, p, level);
      SliceOfPrefixed(data, p + |PutVarint32(level)|, key);
    case DeletedFile(level, number) =>
      StartsSplit(data, p, |data|, PutVarint32(level), PutVarint32(number));
      LevelOfPut(data, p, level);
      Varint64OfPut(data, p + |PutVarint32(level)|, |data|, number);
    case NewFile(level, file) => NewFileOfBody(data, p, level, file);
  }

  lemma ParsedOfField(data: Bytes, p: nat, f: Field)
    requires ValidField(f) && Starts(data, p, |data|, FieldBytes(f)) && p <= |data|
    ensures ParsedAt(data, p) == Got(f, p + |FieldBytes(f)|)
  {
    hide Varint32, PutVarint32, Starts, ValidField, FieldAt, Body;
    StartsSplit(data, p, |data|, PutVarint32(TagOf(f)), Body(f));
    InRange(data, p, PutVarint32(TagOf(f)));
    Varint32OfPut(data, p, |data|, TagOf(f));
    FieldOfBody(data, p + |PutVarint32(TagOf(f))|, f);
  }

  lemma InRange(data: Bytes, p: nat, b: Bytes)
    requires Starts(data, p, |data|, b)
    ensures p + |b| <= |data|
  {
  }

  ghost predicate ValidFields(fs: seq<Field>) { forall i :: 0 <= i < |fs| ==> ValidField(fs[i]) }

  // Reading a list of fields back collects exactly that list.
  lemma {:induction false} DecodedOfEncoded(e: Edit, data: Bytes, p: nat, fs: seq<Field>)
    requires ValidFields(fs) && p <= |data| && data[p..] == Encoded(fs)
    ensures Decoded(e, data, p) == Some(CollectAll(e, fs))
    decreases |fs|
  {
    hide FieldBytes, Collect, ParsedAt, ValidField;
    if fs == [] {
      NothingLeft(data, p);
    } else {
      var b := FieldBytes(fs[0]);
      assert data[p..p + |b|] == data[p..][..|b|] == b;
      ParsedOfField(data, p, fs[0]);
      assert data[p + |b|..] == data[p..][|b|..] == Encoded(fs[1..]);
      DecodedOfEncoded(Collect(e, fs[0]), data, p + |b|, fs[1..]);
    }
  }

  lemma NothingLeft(data: Bytes, p: nat)
    requires p == |data|
    ensures ParsedAt(data, p) == End
  {
  }

  // ---------- The class ----------

  // Everything in the edit fits its encoding.
  ghost predicate ValidEdit(e: Edit) { ValidHead(e) && ValidPointers(e) && ValidDeletions(e) && ValidAdditions(e) }

  ghost predicate ValidHead(e: Edit) {
    && (e.comparator.Some? ==> |e.comparator.value| < LIMIT32)
    && (e.logNumber.Some? ==> e.logNumber.value < LIMIT64)
    && (e.prevLogNumber.Some? ==> e.prevLogNumber.value < LIMIT64)
    && (e.nextFileNumber.Some? ==> e.nextFileNumber.value < LIMIT64)
    && (e.lastSequence.Some? ==> e.lastSequence.value < LIMIT64)
  }

  ghost predicate ValidPointers(e: Edit) {
    forall i ::
        0 <= i < |e.compactPointers| ==> e.compactPointers[i].0 < NUM_LEVELS && |e.compactPointers[i].1| < LIMIT32
  }

  ghost predicate ValidDeletions(e: Edit) { forall p :: p in e.deletedFiles ==> p.0 < NUM_LEVELS && p.1 < LIMIT64 }

  ghost predicate ValidAdditions(e: Edit) {
    forall i :: 0 <= i < |e.newFiles| ==> e.newFiles[i].0 < NUM_LEVELS && ValidRecord(e.newFiles[i].1)
  }

  // dst lists fields that add up to e.
  ghost predicate Lists(dst: Bytes, fs: seq<Field>, e: Edit) {
    dst == Encoded(fs) && ValidFields(fs) && CollectAll(CLEAR, fs) == e
  }

  function Head(e: Edit): Edit { e.(compactPointers := [], deletedFiles := {}, newFiles := []) }

  // One field of EncodeTo.
  method PutField(dst: Bytes, f: Field, ghost e: Edit, ghost fs: seq<Field>) returns (r: Bytes, ghost more: seq<Field>)
    requires Lists(dst, fs, e) && ValidField(f)
    ensures Lists(r, more, Collect(e, f))
  {
    hide Encoded, CollectAll, ValidField, FieldBytes, Collect;
    AppendField(CLEAR, fs, f);
    more := fs + [f];
    r := dst + FieldBytes(f);
  }

  lemma NothingListed()
    ensures Lists([], [], CLEAR)
  {
  }

  class VersionEdit {
    var e: Edit

    constructor ()
      ensures e == CLEAR
    {
      e := CLEAR;
    }

    method Clear()
      modifies this
      ensures e == Cleared(old(e))
    {
      e := CLEAR.(compactPointers := e.compactPointers);
    }

    method EncodeHead() returns (dst: Bytes, ghost fs: seq<Field>)
      requires ValidHead(e)
      ensures Lists(dst, fs, Head(e))
    {
      hide Lists;
      dst, fs := [], [];
      ghost var sum := CLEAR;
      NothingListed();
      if e.comparator.Some? {
        dst, fs := PutField(dst, Comparator(e.comparator.value), sum, fs);
        sum := sum.(comparator := e.comparator);
      }
      if e.logNumber.Some? {
        dst, fs := PutField(dst, LogNumber(e.logNumber.value), sum, fs);
        sum := sum.(logNumber := e.logNumber);
      }
      if e.prevLogNumber.Some? {
        dst, fs := PutField(dst, PrevLogNumber(e.prevLogNumber.value), sum, fs);
        sum := sum.(prevLogNumber := e.prevLogNumber);
      }
      if e.nextFileNumber.Some? {
        dst, fs := PutField(dst, NextFileNumber(e.nextFileNumber.value), sum, fs);
        sum := sum.(nextFileNumber := e.nextFileNumber);
      }
      if e.lastSequence.Some? {
        dst, fs := PutField(dst, LastSequence(e.lastSequence.value), sum, fs);
        sum := sum.(lastSequence := e.lastSequence);
      }
    }

    method EncodePointers(dst0: Bytes, ghost fs0: seq<Field>) returns (dst: Bytes, ghost fs: seq<Field>)
      requires ValidPointers(e) && Lists(dst0, fs0, Head(e))
      ensures Lists(dst, fs, Head(e).(compactPointers := e.compactPointers))
    {
      hide Lists;
      dst, fs := dst0, fs0;
      ghost var head := Head(e);
      for i := 0 to |e.compactPointers|
        invariant Lists(dst, fs, head.(compactPointers := e.compactPointers[..i]))
      {
        assert e.compactPointers[..i + 1] == e.compactPointers[..i] + [e.compactPointers[i]];
        dst, fs := PutField(dst, CompactPointer(e.compactPointers[i].0, e.compactPointers[i].1),
                            head.(compactPointers := e.compactPointers[..i]), fs);
      }
      assert e.compactPointers[..|e.compactPointers|] == e.compactPointers;
    }

    method EncodeDeletions(dst0: Bytes, ghost fs0: seq<Field>) returns (dst: Bytes, ghost fs: seq<Field>)
      requires ValidDeletions(e) && Lists(dst0, fs0, Head(e).(compactPointers := e.compactPointers))
      ensures Lists(dst, fs, e.(newFiles := []))
    {
      hide Lists;
      dst, fs := dst0, fs0;
      ghost var head := Head(e).(compactPointers := e.compactPointers);
      var left := e.deletedFiles;
      assert e.deletedFiles - left == {};
      while left != {}
        invariant left <= e.deletedFiles
        invariant Lists(dst, fs, head.(deletedFiles := e.deletedFiles - left))
        decreases |left|
      {
        var p :| p in left;
        assert e.deletedFiles - (left - {p}) == e.deletedFiles - left + {(p.0, p.1)};
        dst, fs := PutField(dst, DeletedFile(p.0, p.1), head.(deletedFiles := e.deletedFiles - left), fs);
        left := left - {p};
      }
      assert e.deletedFiles - {} == e.deletedFiles;
    }

    method EncodeAdditions(dst0: Bytes, ghost fs0: seq<Field>) returns (dst: Bytes, ghost fs: seq<Field>)
      requires ValidAdditions(e) && Lists(dst0, fs0, e.(newFiles := []))
      ensures Lists(dst, fs, e)
    {
      hide Lists;
      dst, fs := dst0, fs0;
      for i := 0 to |e.newFiles|
        invariant Lists(dst, fs, e.(newFiles := e.newFiles[..i]))
      {
        assert e.newFiles[..i + 1] == e.newFiles[..i] + [e.newFiles[i]];
        dst, fs := PutField(dst, NewFile(e.newFiles[i].0, e.newFiles[i].1), e.(newFiles := e.newFiles[..i]), fs);
      }
      assert e.newFiles[..|e.newFiles|] == e.newFiles;
    }

    // Decoding these bytes into any edit gives this edit back, its compaction pointers behind
    // those the other edit had before (Clear does not drop them).
    method EncodeTo() returns (dst: Bytes)
      requires ValidEdit(e)
      ensures forall before: Edit :: Decoded(Cleared(before), dst, 0) == Some(Behind(before.compactPointers, e))
    {
      hide Lists, ValidHead, ValidPointers, ValidDeletions, ValidAdditions, Decoded;
      ghost var fs;
      dst, fs := EncodeHead();
      dst, fs := EncodePointers(dst, fs);
      dst, fs := EncodeDeletions(dst, fs);
      dst, fs := EncodeAdditions(dst, fs);
      ListedIsDecoded(dst, fs, e);
    }

    // False when the source reports corruption; then the edit's fields mean nothing.
    method DecodeFrom(src: Bytes) returns (ok: bool)
      modifies this
      ensures ok <==> Decoded(Cleared(old(e)), src, 0).Some?
      ensures ok ==> Some(e) == Decoded(Cleared(old(e)), src, 0)
    {
      hide Slice, Level, Number, NewFileAt, Varint32;
      Clear();
      ghost var start := e;
      var p := 0;
      var tag := GetVarint32Ptr(src, p, |src|);
      while tag.Some?
        invariant p <= |src| && tag == Varint32(src, p, |src|)
        invariant Decoded(start, src, 0) == Decoded(e, src, p)
        decreases |src| - p
      {
        var q := tag.value.1;
        var field := GetField(tag.value.0, src, q);
        if !field.Got? { return false; }
        e := Collect(e, field.field);
        p := field.next;
        tag := GetVarint32Ptr(src, p, |src|);
      }
      ok := p == |src|;
    }
  }

  // e with other compaction pointers in front of its own.
  function Behind(pointers: seq<(nat, Bytes)>, e: Edit): Edit { e.(compactPointers := pointers + e.compactPointers) }

  lemma {:induction false} CollectBehind(pointers: seq<(nat, Bytes)>, e: Edit, fs: seq<Field>)
    ensures CollectAll(Behind(pointers, e), fs) == Behind(pointers, CollectAll(e, fs))
    decreases |fs|
  {
    if fs != [] {
      assert fs[0].CompactPointer? ==>
        pointers + (e.compactPointers + [(fs[0].level, fs[0].key)]) ==
          pointers + e.compactPointers + [(fs[0].level, fs[0].key)];
      CollectBehind(pointers, Collect(e, fs[0]), fs[1..]);
    }
  }

  lemma ListedIsDecoded(dst: Bytes, fs: seq<Field>, e: Edit)
    requires Lists(dst, fs, e)
    ensures forall before: Edit :: Decoded(Cleared(before), dst, 0) == Some(Behind(before.compactPointers, e))
  {
    assert dst[0..] == dst;
    forall before: Edit
      ensures Decoded(Cleared(before), dst, 0) == Some(Behind(before.compactPointers, e))
    {
      DecodedOfEncoded(Cleared(before), dst, 0, fs);
      assert before.compactPointers + [] == before.compactPointers;
      CollectBehind(before.compactPointers, CLEAR, fs);
    }
  }

  // One turn of DecodeFrom's switch, taking the pieces from the input one after the other.
  method GetField(tag: nat, src: Bytes, p: nat) returns (r: Parsed)
    requires p <= |src|
    ensures r == FieldAt(tag, src, p)
  {
    hide Varint32, Varint64;
    if tag == COMPARATOR {
      var s := GetLengthPrefixedSlice(src, p);
      r := if s.Some? then Got(Comparator(s.value.0), s.value.1) else Malformed;
    } else if tag == LOG_NUMBER || tag == PREV_LOG_NUMBER || tag == NEXT_FILE_NUMBER || tag == LAST_SEQUENCE {
      var n := GetVarint64Ptr(src, p, |src|);
      if n.None? { return Malformed; }
      var field := if tag == LOG_NUMBER then LogNumber(n.value.0)
                   else if tag == PREV_LOG_NUMBER then PrevLogNumber(n.value.0)
                   else if tag == NEXT_FILE_NUMBER then NextFileNumber(n.value.0)
                   else LastSequence(n.value.0);
      r := Got(field, n.value.1);
    } else if tag == COMPACT_POINTER || tag == DELETED_FILE || tag == NEW_FILE {
      var level := GetLevel(src, p);
      if level.None? { return Malformed; }
      if tag == COMPACT_POINTER {
        var key := GetLengthPrefixedSlice(src, level.value.1);
        r := if key.Some? then Got(CompactPointer(level.value.0, key.value.0), key.value.1) else Malformed;
      } else if tag == DELETED_FILE {
        var n := GetVarint64Ptr(src, level.value.1, |src|);
        r := if n.Some? then Got(DeletedFile(level.value.0, n.value.0), n.value.1) else Malformed;
      } else {
        var number := GetVarint64Ptr(src, level.value.1, |src|);
        if number.None? { return Malformed; }
        var size := GetVarint64Ptr(src, number.value.1, |src|);
        if size.None? { return Malformed; }
        var smallest := GetLengthPrefixedSlice(src, size.value.1);
        if smallest.None? { return Malformed; }
        var largest := GetLengthPrefixedSlice(src, smallest.value.1);
        if largest.None? { return Malformed; }
        r := Got(NewFile(level.value.0, FileRecord(number.value.0, size.value.0, smallest.value.0, largest.value.0)),
          largest.value.1);
      }
    } else {
      r := Malformed; // unknown tag
    }
  }

  method GetLengthPrefixedSlice(src: Bytes, p: nat) returns (r: Option<(Bytes, nat)>)
    requires p <= |src|
    ensures r == Slice(src, p)
  {
    var n := GetVarint32Ptr(src, p, |src|);
    if n.None? || |src| - n.value.1 < n.value.0 { return None; }
    r := Some((src[n.value.1..n.value.1 + n.value.0], n.value.1 + n.value.0));
  }

  method GetLevel(src: Bytes, p: nat) returns (r: Option<(nat, nat)>)
    requires p <= |src|
    ensures r == Level(src, p)
  {
    var n := GetVarint32Ptr(src, p, |src|);
    r := if n.Some? && n.value.0 < NUM_LEVELS then n else None;
  }
}
