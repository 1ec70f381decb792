/** Versions: seven levels of table files, and lookup in them (db/version_set.cc, Version). */
module Version {
  import opened Dbformat
  import opened History

  // A table file: its metadata and the entries stored in it.
  datatype FileMetaData = FileMetaData(
    number: nat, fileSize: nat, smallest: InternalKey, largest: InternalKey, entries: seq<Entry>)

  type Level = seq<FileMetaData>
  type Levels = seq<Level>

  const NO_FILES: Levels := [[], [], [], [], [], [], []]

  ghost predicate ValidFile(f: FileMetaData) {
    && f.entries != [] && Sorted(f.entries)
    && f.smallest == f.entries[0].key
    && f.largest == f.entries[|f.entries| - 1].key
  }

  ghost predicate ValidFiles(files: Level) {
    forall f :: f in files ==> ValidFile(f)
  }

  // Sorted by key range, and no two ranges meet.
  ghost predicate Disjoint(files: Level) {
    forall i, j :: 0 <= i < j < |files| ==> files[i].largest.Before(files[j].smallest)
  }

  ghost function FileEntries(f: FileMetaData): set<Entry> { ToSet(f.entries) }

  ghost function Entries(files: Level): set<Entry> { set f, e | f in files && e in f.entries :: e }

  ghost function AllEntries(v: Levels): set<Entry> {
    set l, e | 0 <= l < |v| && e in Entries(v[l]) :: e
  }

  // Every entry of A is newer than every entry of B about the same user key.
  ghost predicate Newer(A: set<Entry>, B: set<Entry>) {
    forall a, b :: a in A && b in B && a.key.user == b.key.user ==> a.key.sequence > b.key.sequence
  }

  ghost predicate Level0Ordered(files: Level) {
    && (forall i, j :: 0 <= i < |files| && 0 <= j < |files| && i != j ==> files[i].number != files[j].number)
    && forall f, g :: f in files && g in files && f.number > g.number ==> Newer(FileEntries(f), FileEntries(g))
  }

  // Newer entries of a user key never sit deeper than older ones.
  ghost predicate LevelsOrdered(v: Levels) {
    forall l, m :: 0 <= l < m < |v| ==> Newer(Entries(v[l]), Entries(v[m]))
  }

  ghost predicate ValidVersion(v: Levels) {
    && |v| == NUM_LEVELS
    && (forall l :: 0 <= l < |v| ==> ValidFiles(v[l]))
    && (forall l :: 0 < l < |v| ==> Disjoint(v[l]))
    && Level0Ordered(v[0])
    && LevelsOrdered(v)
  }

  // The newest entry about k visible at s among the entries S, if any.
  ghost predicate NewestIn(S: set<Entry>, k: UserKey, s: nat, r: Option<Entry>) {
    match r
    case None => NothingVisible(S, k, s)
    case Some(e) => IsNewest(S, k, s, e)
  }

  lemma EntriesAppend(files: Level, f: FileMetaData)
    ensures Entries(files + [f]) == Entries(files) + FileEntries(f)
  {
    forall e | e in Entries(files) + FileEntries(f) ensures e in Entries(files + [f]) {
      if e in Entries(files) {
        var g :| g in files && e in g.entries;
        assert g in files + [f];
      } else {
        assert f in files + [f];
      }
    }
  }

  lemma EntryInRange(f: FileMetaData, e: Entry)
    requires ValidFile(f) && e in f.entries
    ensures f.smallest.AtMost(e.key) && e.key.AtMost(f.largest)
  {
  }

  // Seek in sorted entries, then SaveValue's user key comparison: a table or memtable lookup.
  function EntriesGet(es: seq<Entry>, k: UserKey, s: nat): (r: Option<Entry>)
    requires Sorted(es)
    ensures NewestIn(ToSet(es), k, s, r)
  {
    var i := Seek(es, LookupKey(k, s));
    assert forall j :: i < j < |es| ==> es[i].key.Before(es[j].key);
    if i < |es| && es[i].key.user == k then Some(es[i]) else None
  }

  // The binary search of FindFile on any files, in order or not.
  function BinarySearch(files: Level, key: InternalKey, left: nat, right: nat): (r: nat)
    requires left <= right <= |files|
    ensures left <= r <= right
    decreases right - left
  {
    if left == right then right
    else
      var mid := (left + right) / 2;
      if files[mid].largest.Before(key) then BinarySearch(files, key, mid + 1, right)
        else BinarySearch(files, key, left, mid)
  }

  // FindFile: the first file whose largest key is at or after `key`, if the files are in order.
  method FindFile(files: Level, key: InternalKey) returns (right: nat)
    ensures right == BinarySearch(files, key, 0, |files|)
    ensures ValidFiles(files) && Disjoint(files) ==>
              && (forall i :: 0 <= i < right ==> files[i].largest.Before(key))
              && forall i :: right <= i < |files| ==> key.AtMost(files[i].largest)
  {
    hide InternalKey.Before, InternalKey.AtMost;
    var left := 0;
    right := |files|;
    while left < right
      invariant 0 <= left <= right <= |files|
      invariant BinarySearch(files, key, left, right) == BinarySearch(files, key, 0, |files|)
      invariant ValidFiles(files) && Disjoint(files) ==> SplitSoFar(files, key, left, right)
    {
      var mid := (left + right) / 2;
      SplitMore(files, key, left, mid, right);
      if files[mid].largest.Before(key) {
        left := mid + 1;
      } else {
        right := mid;
      }
    }
  }

  ghost predicate SplitSoFar(files: Level, key: InternalKey, left: nat, right: nat) {
    && left <= right <= |files|
    && (forall i :: 0 <= i < left ==> files[i].largest.Before(key))
    && forall i :: right <= i < |files| ==> key.AtMost(files[i].largest)
  }

  lemma SplitMore(files: Level, key: InternalKey, left: nat, mid: nat, right: nat)
    requires left <= mid < right <= |files|
    ensures ValidFiles(files) && Disjoint(files) && SplitSoFar(files, key, left, right) ==>
              if files[mid].largest.Before(key) then SplitSoFar(files, key, mid + 1, right)
                else SplitSoFar(files, key, left, mid)
  {
    if ValidFiles(files) && Disjoint(files) && SplitSoFar(files, key, left, right) {
      forall i | 0 <= i < mid ensures files[i].largest.Before(files[mid].largest) {
        FilesAscend(files, i, mid);
      }
      forall i | mid < i < |files| ensures files[mid].largest.Before(files[i].largest) {
        FilesAscend(files, mid, i);
      }
    }
  }

  lemma FilesAscend(files: Level, i: nat, j: nat)
    requires ValidFiles(files) && Disjoint(files) && i < j < |files|
    ensures files[i].largest.Before(files[j].largest) && files[i].smallest.Before(files[j].smallest)
  {
    assert files[i] in files && files[j] in files;
  }

  // What the lookup in a level above 0 does, be the level in order or not: one file is looked into.
  ghost function LookInLevel(files: Level, k: UserKey, s: nat): Option<Entry>
    requires ValidFiles(files)
  {
    LookInFile(files, BinarySearch(files, LookupKey(k, s), 0, |files|), k, s)
  }

  ghost function LookInFile(files: Level, index: nat, k: UserKey, s: nat): Option<Entry>
    requires ValidFiles(files)
  {
    if index < |files| && !(k < files[index].smallest.user) then
      assert files[index] in files;
      EntriesGet(files[index].entries, k, s)
    else None
  }

  // Lookup in a level above 0: binary search for the one file that can hold the answer.
  method LevelGet(files: Level, k: UserKey, s: nat) returns (r: Option<Entry>, read: Level)
    requires ValidFiles(files)
    ensures |read| <= 1 && forall f :: f in read ==> f in files && (Disjoint(files) ==> Contains(f, k))
    ensures r.Some? ==> read != []
    ensures r == LookInLevel(files, k, s)
    ensures Disjoint(files) ==> NewestIn(Entries(files), k, s, r)
  {
    hide BinarySearch;
    var index := FindFile(files, LookupKey(k, s));
    r, read := None, [];
    if index < |files| && !(k < files[index].smallest.user) {
      assert files[index] in files;
      read := [files[index]];
      r := EntriesGet(files[index].entries, k, s);
    }
    if Disjoint(files) {
      OneFileIsEnough(files, k, s, index, r);
    }
  }

  lemma OneFileIsEnough(files: Level, k: UserKey, s: nat, index: nat, r: Option<Entry>)
    requires ValidFiles(files) && Disjoint(files) && index <= |files|
    requires forall i :: 0 <= i < index ==> files[i].largest.Before(LookupKey(k, s))
    requires forall i :: index <= i < |files| ==> LookupKey(k, s).AtMost(files[i].largest)
    requires r == LookInFile(files, index, k, s)
    ensures NewestIn(Entries(files), k, s, r)
  {
    forall e, j | 0 <= j < |files| && e in files[j].entries && e.key.user == k && e.key.sequence <= s
      ensures j >= index && index < |files|
      ensures j > index ==> files[index].largest.user == k && files[index].largest.sequence <= s
      ensures j > index ==> e.key.sequence <= files[index].largest.sequence
    {
      assert files[j] in files;
      EntryInRange(files[j], e);
      if j > index {
        assert files[index].largest.Before(files[j].smallest);
      }
    }
    if index < |files| && !(k < files[index].smallest.user) {
      assert files[index] in files;
      LastEntry(files[index]);
    } else if index < |files| {
      assert files[index] in files;
      forall e | e in files[index].entries ensures e.key.user > k {
        EntryInRange(files[index], e);
      }
      LastEntry(files[index]);
    }
    forall e | e in Entries(files) && e.key.user == k && e.key.sequence <= s
      ensures r.Some? && e.key.sequence <= r.value.key.sequence
    {
      var f :| f in files && e in f.entries;
      var j :| 0 <= j < |files| && files[j] == f;
    }
  }

  lemma LastEntry(f: FileMetaData)
    requires ValidFile(f)
    ensures exists e :: e in FileEntries(f) && e.key == f.largest
    ensures exists e :: e in FileEntries(f) && e.key == f.smallest
  {
    assert f.entries[|f.entries| - 1] in FileEntries(f);
    assert f.entries[0] in FileEntries(f);
  }

  predicate Contains(f: FileMetaData, k: UserKey) { f.smallest.user <= k <= f.largest.user }

  // std::sort(..., NewestFirst), as an insertion sort.
  method SortNewestFirst(files: Level) returns (r: Level)
    ensures forall f :: f in r <==> f in files
    ensures forall i, j :: 0 <= i < j < |r| ==> r[i].number >= r[j].number
  {
    r := [];
    for n := 0 to |files|
      invariant forall f :: f in r <==> f in files[..n]
      invariant forall i, j :: 0 <= i < j < |r| ==> r[i].number >= r[j].number
    {
      var p := 0;
      while p < |r| && r[p].number > files[n].number
        invariant 0 <= p <= |r|
        invariant forall i :: 0 <= i < p ==> r[i].number > files[n].number
      {
        p := p + 1;
      }
      assert forall f :: f in r <==> f in r[..p] || f in r[p..];
      assert files[..n + 1] == files[..n] + [files[n]];
      r := r[..p] + [files[n]] + r[p..];
    }
    assert files[..|files|] == files;
  }

  // The files of level 0 that can know k, newest first.
  ghost predicate Level0Candidates(files: Level, k: UserKey, tmp: Level) {
    && (forall f :: f in tmp <==> f in files && Contains(f, k))
    && forall i, j :: 0 <= i < j < |tmp| ==> tmp[i].number >= tmp[j].number
  }

  lemma CandidateHolds(files: Level, k: UserKey, tmp: Level, e: Entry) returns (j: nat)
    requires ValidFiles(files) && Level0Candidates(files, k, tmp)
    requires e in Entries(files) && e.key.user == k
    ensures j < |tmp| && tmp[j] in files && e in FileEntries(tmp[j])
  {
    var f :| f in files && e in f.entries;
    EntryInRange(f, e);
    j :| 0 <= j < |tmp| && tmp[j] == f;
  }

  lemma NumbersIdentify(files: Level, f: FileMetaData, g: FileMetaData)
    requires Level0Ordered(files) && f in files && g in files && f.number == g.number
    ensures f == g
  {
  }

  lemma FirstHitIsNewest(files: Level, k: UserKey, s: nat, tmp: Level, i: nat, r: Entry)
    requires ValidFiles(files) && Level0Ordered(files) && Level0Candidates(files, k, tmp)
    requires i < |tmp| && IsNewest(FileEntries(tmp[i]), k, s, r)
    requires forall j :: 0 <= j < i ==> NothingVisible(FileEntries(tmp[j]), k, s)
    ensures IsNewest(Entries(files), k, s, r)
  {
    assert tmp[i] in files;
    assert r in tmp[i].entries;
    forall e | e in Entries(files) && e.key.user == k && e.key.sequence <= s
      ensures e.key.sequence <= r.key.sequence
    {
      var j := CandidateHolds(files, k, tmp, e);
      if j > i {
        if tmp[i].number == tmp[j].number {
          NumbersIdentify(files, tmp[i], tmp[j]);
        } else {
          assert Newer(FileEntries(tmp[i]), FileEntries(tmp[j]));
        }
      }
    }
  }

  // Lookup in level 0, whose files may overlap: every file around k, newest first.
  method Level0Get(files: Level, k: UserKey, s: nat) returns (r: Option<Entry>, read: Level)
    requires ValidFiles(files) && Level0Ordered(files)
    ensures forall f :: f in read ==> f in files && Contains(f, k)
    ensures forall i, j :: 0 <= i < j < |read| ==> read[i].number >= read[j].number
    ensures forall i :: 0 <= i < (if r.Some? then |read| - 1 else |read|) ==>
              NothingVisible(FileEntries(read[i]), k, s)
    ensures r.None? ==> forall f :: f in files && Contains(f, k) ==> f in read
    ensures NewestIn(Entries(files), k, s, r)
  {
    var tmp := [];
    for i := 0 to |files|
      invariant forall f :: f in tmp <==> f in files[..i] && Contains(f, k)
    {
      assert files[..i + 1] == files[..i] + [files[i]];
      if Contains(files[i], k) {
        tmp := tmp + [files[i]];
      }
    }
    assert files[..|files|] == files;
    tmp := SortNewestFirst(tmp);
    r, read := None, [];
    for i := 0 to |tmp|
      invariant read == tmp[..i]
      invariant Level0Candidates(files, k, tmp) && r == None
      invariant forall j :: 0 <= j < i ==> NothingVisible(FileEntries(tmp[j]), k, s)
    {
      assert ValidFile(tmp[i]);
      read := read + [tmp[i]];
      assert tmp[..i + 1] == tmp[..i] + [tmp[i]];
      r := EntriesGet(tmp[i].entries, k, s);
      if r.Some? {
        FirstHitIsNewest(files, k, s, tmp, i, r.value);
        return;
      }
    }
    forall e | e in Entries(files) && e.key.user == k ensures e.key.sequence > s {
      var j := CandidateHolds(files, k, tmp, e);
    }
  }

  // Version::Get: level by level, stopping at the first level that knows the key.  Because
  // newer entries never sit deeper, that level has the newest visible entry of all.  Where a second
  // file is read, the first is charged with the seek; it is never one of the last level.
  method Get(v: Levels, k: UserKey, s: nat)
    returns (r: Option<Entry>, charged: Option<(nat, FileMetaData)>, ghost looked: seq<(nat, FileMetaData)>)
    requires |v| == NUM_LEVELS && (forall l :: 0 <= l < |v| ==> ValidFiles(v[l])) && Level0Ordered(v[0])
    ensures ValidVersion(v) ==> NewestIn(AllEntries(v), k, s, r)
    ensures v[0] == [] && (forall l :: 0 < l < |v| ==> LookInLevel(v[l], k, s) == None) ==> r == None
    ensures LookedInto(v, k, looked) && charged == if |looked| > 1 then Some(looked[0]) else None
    ensures charged.Some? ==> CanBeCompacted(v, charged.value)
  {
    hide LookInLevel, Contains, LookedInto, AllAbove;
    NoneLooked(v, k);
    r, charged, looked := None, None, [];
    var first: Option<(nat, FileMetaData)> := None;
    for level := 0 to NUM_LEVELS
      invariant r == None
      invariant LookedInto(v, k, looked) && AllAbove(looked, level)
      invariant charged == (if |looked| > 1 then Some(looked[0]) else None)
      invariant first == if looked != [] then Some(looked[0]) else None
      invariant charged.Some? ==> CanBeCompacted(v, charged.value)
      invariant first.Some? ==> first.value.0 < level && first.value.1 in v[first.value.0]
      invariant ValidVersion(v) ==> forall l :: 0 <= l < level ==> NothingVisible(Entries(v[l]), k, s)
    {
      var read;
      if level == 0 {
        r, read := Level0Get(v[0], k, s);
      } else {
        r, read := LevelGet(v[level], k, s);
      }
      LookedMore(v, k, looked, level, read);
      looked := looked + AtLevel(level, read);
      if read != [] {
        charged := if first.Some? then first else if |read| > 1 then Some((level, read[0])) else None;
        first := if first.Some? then first else Some((level, read[0]));
      }
      if r.Some? {
        if ValidVersion(v) {
          FirstLevelIsNewest(v, level, k, s, r.value);
        }
        return;
      }
    }
  }

  function AtLevel(level: nat, files: Level): (r: seq<(nat, FileMetaData)>)
    ensures |r| == |files| && forall i :: 0 <= i < |r| ==> r[i] == (level, files[i])
  {
    seq(|files|, i requires 0 <= i < |files| => (level, files[i]))
  }

  // The files a lookup reads, level by level: all of them have k in their range.
  ghost predicate LookedInto(v: Levels, k: UserKey, looked: seq<(nat, FileMetaData)>) {
    && (forall i :: 0 <= i < |looked| ==>
          && looked[i].0 < |v| && looked[i].1 in v[looked[i].0]
          && (ValidVersion(v) ==> Contains(looked[i].1, k)))
    && forall i, j :: 0 <= i < j < |looked| ==>
         looked[i].0 < looked[j].0 || (looked[i].0 == looked[j].0 == 0 && looked[i].1.number >= looked[j].1.number)
  }

  ghost predicate AllAbove(looked: seq<(nat, FileMetaData)>, level: nat) {
    forall i :: 0 <= i < |looked| ==> looked[i].0 < level
  }

  lemma NoneLooked(v: Levels, k: UserKey)
    ensures LookedInto(v, k, []) && AllAbove([], 0)
  {
  }

  lemma LookedMore(v: Levels, k: UserKey, looked: seq<(nat, FileMetaData)>, level: nat, read: Level)
    requires LookedInto(v, k, looked) && AllAbove(looked, level) && level < |v|
    requires forall f :: f in read ==> f in v[level] && (ValidVersion(v) ==> Contains(f, k))
    requires if level == 0 then forall i, j :: 0 <= i < j < |read| ==> read[i].number >= read[j].number else |read| <= 1
    ensures LookedInto(v, k, looked + AtLevel(level, read)) && AllAbove(looked + AtLevel(level, read), level + 1)
  {
    hide Contains, ValidVersion;
  }

  // A file with a level to go down to.
  ghost predicate CanBeCompacted(v: Levels, f: (nat, FileMetaData)) {
    f.0 + 1 < |v| && f.1 in v[f.0]
  }

  lemma FirstLevelIsNewest(v: Levels, level: nat, k: UserKey, s: nat, r: Entry)
    requires ValidVersion(v) && level < |v| && NewestIn(Entries(v[level]), k, s, Some(r))
    requires forall l :: 0 <= l < level ==> NothingVisible(Entries(v[l]), k, s)
    ensures NewestIn(AllEntries(v), k, s, Some(r))
  {
    assert r in Entries(v[level]);
    forall e | e in AllEntries(v) && e.key.user == k && e.key.sequence <= s ensures e.key.sequence <= r.key.sequence {
      var l :| 0 <= l < |v| && e in Entries(v[l]);
      if l > level {
        assert Newer(Entries(v[level]), Entries(v[l]));
      }
    }
  }
}
