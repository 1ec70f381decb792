/** Choosing the level for a flushed memtable (db/version_set.cc, Version::PickLevelForMemTableOutput). */
module FlushLevel {
  import opened Dbformat
  import opened Version
  import opened CompactionInputs
  import opened Lsm

  const MAX_MEM_COMPACT_LEVEL: nat := 2

  // Sequence numbers fit in 56 bits.
  ghost predicate InSequenceSpace(files: Level) {
    forall f :: f in files ==> f.largest.sequence <= MAX_SEQUENCE_NUMBER
  }

  ghost predicate Meets(files: Level, low: UserKey, high: UserKey) {
    exists f :: f in files && Overlaps(f, Some(low), Some(high))
  }

  // SomeFileOverlapsRange for bounds that are both given: binary search above level 0.
  method SomeFileOverlapsRange(files: Level, disjointSorted: bool, low: UserKey, high: UserKey) returns (b: bool)
    requires ValidFiles(files) && InSequenceSpace(files) && low <= high
    requires disjointSorted ==> Disjoint(files)
    ensures b <==> Meets(files, low, high)
  {
    if !disjointSorted {
      for i := 0 to |files|
        invariant forall j :: 0 <= j < i ==> !Overlaps(files[j], Some(low), Some(high))
      {
        if low > files[i].largest.user || high < files[i].smallest.user {
          // no overlap
        } else {
          assert Overlaps(files[i], Some(low), Some(high));
          return true;
        }
      }
      return false;
    }
    // the earliest possible internal key for low
    var smallKey := InternalKey(low, MAX_SEQUENCE_NUMBER, Value);
    var index := FindFile(files, smallKey);
    b := index < |files| && !(high < files[index].smallest.user);
    forall j | 0 <= j < |files|
      ensures j < index ==> files[j].largest.user < low
      ensures j >= index ==> files[j].largest.user >= low
    {
      assert files[j] in files;
    }
    if b {
      assert Overlaps(files[index], Some(low), Some(high));
    } else {
      forall f | f in files ensures !Overlaps(f, Some(low), Some(high)) {
        var j :| 0 <= j < |files| && files[j] == f;
        if index < j {
          FilesAscend(files, index, j);
        }
      }
    }
  }

  // OverlapInLevel.
  method OverlapInLevel(v: Levels, level: nat, low: UserKey, high: UserKey) returns (b: bool)
    requires ValidVersion(v) && level < |v| && low <= high
    requires forall l :: 0 <= l < |v| ==> InSequenceSpace(v[l])
    ensures b <==> Meets(v[level], low, high)
  {
    b := SomeFileOverlapsRange(v[level], level > 0, low, high);
  }

  // The level for a memtable with user keys low..high: at most 2, with no file in its way down to
  // there, and not stopped early without cause.
  ghost predicate IsOutputLevel(
    v: Levels, low: UserKey, high: UserKey, level: nat, maxGrandParentOverlapBytes: nat)
    requires |v| == NUM_LEVELS
  {
    && level <= MAX_MEM_COMPACT_LEVEL
    && (level > 0 ==> forall l :: 0 <= l <= level ==> !Meets(v[l], low, high))
    && (level < MAX_MEM_COMPACT_LEVEL ==>
          || Meets(v[0], low, high)
          || Meets(v[level + 1], low, high)
          || TotalFileSize(Overlapping(v[level + 2], Some(low), Some(high))) > maxGrandParentOverlapBytes)
  }

  method PickLevelForMemTableOutput(v: Levels, low: UserKey, high: UserKey, maxGrandParentOverlapBytes: nat)
    returns (level: nat)
    requires ValidVersion(v) && low <= high
    requires forall l :: 0 <= l < |v| ==> InSequenceSpace(v[l])
    ensures IsOutputLevel(v, low, high, level, maxGrandParentOverlapBytes)
  {
    hide Meets, Overlaps, Disjoint, LevelsOrdered, Level0Ordered, Overlapping;
    level := 0;
    var overlap := OverlapInLevel(v, 0, low, high);
    if !overlap {
      while level < MAX_MEM_COMPACT_LEVEL
        invariant 0 <= level <= MAX_MEM_COMPACT_LEVEL
        invariant forall l :: 0 <= l <= level ==> !Meets(v[l], low, high)
      {
        overlap := OverlapInLevel(v, level + 1, low, high);
        if overlap {
          break;
        }
        if level + 2 < NUM_LEVELS {
          // do not overlap too many grandparent bytes
          ghost var b, e;
          var overlaps;
          overlaps, b, e := GetOverlappingInputs(v[level + 2], false, Some(low), Some(high));
          if TotalFileSize(overlaps) > maxGrandParentOverlapBytes {
            break;
          }
        }
        level := level + 1;
      }
    }
  }

  lemma NotMetIsClear(v: Levels, f: FileMetaData, level: nat)
    requires level < |v| && forall l :: 0 <= l <= level ==> !Meets(v[l], f.smallest.user, f.largest.user)
    ensures ClearDownTo(v, f, level)
  {
  }
}
