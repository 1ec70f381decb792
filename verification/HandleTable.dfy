/** HandleTable (util/cache.cc): the hash table of the cache.  Every bucket is a chain of handles. */
module HandleTable {
  import opened Dbformat

  type Id = nat  // which cache entry a handle is

  // What a handle is looked up by.
  datatype Name = Name(key: Bytes, hash: nat)

  datatype Handle = Handle(name: Name, id: Id)

  type Contents = map<Name, Handle>
  type Buckets = seq<seq<Handle>>

  predicate PowerOfTwo(n: nat)
    decreases n
  {
    n == 1 || (n > 1 && n % 2 == 0 && PowerOfTwo(n / 2))
  }

  // The chain holds exactly the handles of the map whose hash belongs in bucket b of n, each once.
  // The mask hash & (n - 1) is the remainder, n being a power of two.
  ghost predicate ChainOk(chain: seq<Handle>, b: nat, n: nat, m: Contents)
    requires n > 0
  {
    && (forall i ::
         0 <= i < |chain| ==> chain[i].name.hash % n == b && chain[i].name in m && m[chain[i].name] == chain[i])
    && (forall name :: name in m && name.hash % n == b ==> m[name].name == name && m[name] in chain)
    && forall i, j :: 0 <= i < j < |chain| ==> chain[i].name != chain[j].name
  }

  ghost predicate Holds(buckets: Buckets, m: Contents) {
    |buckets| > 0 && forall b :: 0 <= b < |buckets| ==> ChainOk(buckets[b], b, |buckets|, m)
  }

  // The place in the chain of the handle with this name, or the chain's end.
  ghost predicate IsPlace(chain: seq<Handle>, name: Name, i: nat) {
    i <= |chain| && (i < |chain| ==> chain[i].name == name) && forall j :: 0 <= j < i ==> chain[j].name != name
  }

  lemma PlaceOf(buckets: Buckets, m: Contents, name: Name, i: nat)
    requires Holds(buckets, m) && IsPlace(buckets[name.hash % |buckets|], name, i)
    ensures i < |buckets[name.hash % |buckets|]| <==> name in m
    ensures name in m ==> buckets[name.hash % |buckets|][i] == m[name]
  {
    assert ChainOk(buckets[name.hash % |buckets|], name.hash % |buckets|, |buckets|, m);
  }

  // Changing what the map says about one name changes one bucket only.
  lemma OneBucket(buckets: Buckets, m: Contents, m': Contents, b: nat, chain: seq<Handle>)
    requires Holds(buckets, m) && b < |buckets| && ChainOk(chain, b, |buckets|, m')
    requires forall name: Name ::
               name.hash % |buckets| != b ==> (name in m <==> name in m') && (name in m ==> m[name] == m'[name])
    ensures Holds(buckets[b := chain], m')
  {
    forall c | 0 <= c < |buckets| && c != b ensures ChainOk(buckets[c], c, |buckets|, m') {
      assert ChainOk(buckets[c], c, |buckets|, m);
    }
  }

  lemma Replaced(buckets: Buckets, m: Contents, h: Handle, i: nat)
    requires Holds(buckets, m) && IsPlace(buckets[h.name.hash % |buckets|], h.name, i)
    requires i < |buckets[h.name.hash % |buckets|]|
    ensures var b := h.name.hash % |buckets|; Holds(buckets[b := buckets[b][i := h]], m[h.name := h])
  {
    var b, n := h.name.hash % |buckets|, |buckets|;
    var chain, now, m' := buckets[b], buckets[b][i := h], m[h.name := h];
    assert ChainOk(chain, b, n, m);
    forall name | name in m' && name.hash % n == b ensures m'[name].name == name && m'[name] in now {
      if name == h.name {
        assert now[i] == h;
      } else {
        var j :| 0 <= j < |chain| && chain[j] == m[name];
        assert now[j] == m[name];
      }
    }
    OneBucket(buckets, m, m', b, now);
  }

  // A handle of a new name can go to any place of its chain.
  lemma Added(buckets: Buckets, m: Contents, h: Handle, chain: seq<Handle>)
    requires Holds(buckets, m) && h.name !in m
    requires var previous := buckets[h.name.hash % |buckets|]; chain == previous + [h] || chain == [h] + previous
    ensures Holds(buckets[h.name.hash % |buckets| := chain], m[h.name := h])
  {
    var b, n := h.name.hash % |buckets|, |buckets|;
    var was, m' := buckets[b], m[h.name := h];
    assert ChainOk(was, b, n, m);
    var p := if chain == was + [h] then |was| else 0;
    forall i | 0 <= i < |chain| ensures chain[i] == if i < p then was[i] else if i == p then h else was[i - 1] {
    }
    assert chain[p] == h;
    forall name | name in m' && name.hash % n == b ensures m'[name].name == name && m'[name] in chain {
      if name != h.name {
        var j :| 0 <= j < |was| && was[j] == m[name];
        assert chain[if j < p then j else j + 1] == m[name];
      }
    }
    OneBucket(buckets, m, m', b, chain);
  }

  lemma Removed(buckets: Buckets, m: Contents, name: Name, i: nat)
    requires Holds(buckets, m) && IsPlace(buckets[name.hash % |buckets|], name, i)
    requires i < |buckets[name.hash % |buckets|]|
    ensures var b := name.hash % |buckets|; Holds(buckets[b := buckets[b][..i] + buckets[b][i + 1..]], m - {name})
  {
    var b, n := name.hash % |buckets|, |buckets|;
    var was, m' := buckets[b], m - {name};
    var chain := was[..i] + was[i + 1..];
    assert ChainOk(was, b, n, m);
    forall j | 0 <= j < |chain| ensures chain[j] == was[if j < i then j else j + 1] {
    }
    forall x | x in m' && x.hash % n == b ensures m'[x].name == x && m'[x] in chain {
      var j :| 0 <= j < |was| && was[j] == m[x];
      assert chain[if j < i then j else j - 1] == m[x];
    }
    OneBucket(buckets, m, m', b, chain);
  }

  class HandleTable {
    var elems: nat
    var list: Buckets
    ghost var contents: Contents

    ghost predicate Valid()
      reads this
    {
      && Holds(list, contents) && elems == |contents|
      && PowerOfTwo(|list|) && |list| >= 4 && elems <= |list|
    }

    constructor ()
      ensures Valid() && contents == map[]
    {
      elems, list, contents := 0, [[], [], [], []], map[];
    }

    method FindPointer(name: Name) returns (i: nat)
      requires Valid()
      ensures IsPlace(list[name.hash % |list|], name, i)
      ensures i < |list[name.hash % |list|]| <==> name in contents
      ensures name in contents ==> list[name.hash % |list|][i] == contents[name]
    {
      hide Holds, PowerOfTwo;
      var chain := list[name.hash % |list|];
      i := 0;
      while i < |chain| && chain[i].name != name
        invariant i <= |chain| && forall j :: 0 <= j < i ==> chain[j].name != name
      {
        i := i + 1;
      }
      PlaceOf(list, contents, name, i);
    }

    method Lookup(name: Name) returns (r: Option<Handle>)
      requires Valid()
      ensures r == if name in contents then Some(contents[name]) else None
    {
      hide Holds, PowerOfTwo;
      var i := FindPointer(name);
      var chain := list[name.hash % |list|];
      r := if i < |chain| then Some(chain[i]) else None;
    }

    method Insert(h: Handle) returns (previous: Option<Handle>)
      requires Valid()
      modifies this
      ensures Valid() && contents == old(contents)[h.name := h]
      ensures previous == if h.name in old(contents) then Some(old(contents)[h.name]) else None
    {
      hide Holds, PowerOfTwo;
      var i := FindPointer(h.name);
      var b := h.name.hash % |list|;
      if i < |list[b]| {
        previous := Some(list[b][i]);
        Replaced(list, contents, h, i);
        list := list[b := list[b][i := h]];
        contents := contents[h.name := h];
        assert contents.Keys == old(contents).Keys;
      } else {
        previous := None;
        Added(list, contents, h, list[b] + [h]);
        list := list[b := list[b] + [h]];
        contents := contents[h.name := h];
        assert contents.Keys == old(contents).Keys + {h.name};
        elems := elems + 1;
        if elems > |list| {
          Resize();
        }
      }
    }

    method Remove(name: Name) returns (result: Option<Handle>)
      requires Valid()
      modifies this
      ensures Valid() && contents == old(contents) - {name}
      ensures result == if name in old(contents) then Some(old(contents)[name]) else None
    {
      hide Holds, PowerOfTwo;
      var i := FindPointer(name);
      var b := name.hash % |list|;
      if i < |list[b]| {
        result := Some(list[b][i]);
        Removed(list, contents, name, i);
        list := list[b := list[b][..i] + list[b][i + 1..]];
        contents := contents - {name};
        assert contents.Keys == old(contents).Keys - {name};
        elems := elems - 1;
      } else {
        result := None;
        assert contents - {name} == contents;
      }
    }

    // Moves every handle to its bucket among twice as many, or more, reversing chains as it goes.
    method Resize()
      requires Holds(list, contents) && elems == |contents|
      modifies `list
      ensures Valid()
    {
      hide Holds, PowerOfTwo, Moved;
      var newLength := NewLength(elems);
      var newList: Buckets := EmptyBuckets(newLength);
      ghost var m: Contents := map[];
      NotEmptyBuckets(list, contents);
      NothingMoved(list, contents);
      for i := 0 to |list|
        invariant list == old(list) && Holds(list, contents)
        invariant |newList| == newLength && Holds(newList, m)
        invariant Moved(list, contents, m, i, 0)
      {
        var chain := list[i];
        for j := 0 to |chain|
          invariant list == old(list) && Holds(list, contents)
          invariant |newList| == newLength && Holds(newList, m)
          invariant j <= |chain| && Moved(list, contents, m, i, j)
        {
          var h := chain[j];
          NextMoved(list, contents, m, i, j);
          var b := h.name.hash % newLength;
          Added(newList, m, h, [h] + newList[b]);
          newList := newList[b := [h] + newList[b]];
          m := m[h.name := h];
        }
        BucketMoved(list, contents, m, i);
      }
      AllMoved(list, contents, m);
      list := newList;
    }
  }

  lemma NotEmptyBuckets(buckets: Buckets, m: Contents)
    requires Holds(buckets, m)
    ensures |buckets| > 0
  {
  }

  method NewLength(elems: nat) returns (n: nat)
    ensures PowerOfTwo(n) && n >= 4 && n >= elems
  {
    n := 4;
    while n < elems
      invariant PowerOfTwo(n) && n >= 4
      decreases elems - n
    {
      n := n * 2;
    }
  }

  function EmptyBuckets(n: nat): (r: Buckets)
    requires n > 0
    ensures |r| == n && Holds(r, map[])
  {
    seq(n, _ => [])
  }

  // The handle is in the first i buckets or in the first j places of the next one.
  ghost predicate IsBefore(buckets: Buckets, h: Handle, i: nat, j: nat)
    requires |buckets| > 0
  {
    h.name.hash % |buckets| < i ||
      (h.name.hash % |buckets| == i < |buckets| && j <= |buckets[i]| && h in buckets[i][..j])
  }

  // m has exactly those handles of all.
  ghost predicate Moved(buckets: Buckets, all: Contents, m: Contents, i: nat, j: nat) {
    && |buckets| > 0 && m.Keys <= all.Keys
    && forall name ::
         name in all ==> (name in m <==> IsBefore(buckets, all[name], i, j)) && (name in m ==> m[name] == all[name])
  }

  lemma NothingMoved(buckets: Buckets, all: Contents)
    requires |buckets| > 0
    ensures Moved(buckets, all, map[], 0, 0)
  {
  }

  lemma NextMoved(buckets: Buckets, all: Contents, m: Contents, i: nat, j: nat)
    requires Holds(buckets, all) && i < |buckets| && j < |buckets[i]| && Moved(buckets, all, m, i, j)
    ensures var h := buckets[i][j]; h.name !in m && Moved(buckets, all, m[h.name := h], i, j + 1)
  {
    var h := buckets[i][j];
    assert ChainOk(buckets[i], i, |buckets|, all);
    assert forall k :: 0 <= k < j ==> buckets[i][k].name != h.name;
    assert buckets[i][..j + 1] == buckets[i][..j] + [h];
    forall name | name in all && name != h.name
      ensures IsBefore(buckets, all[name], i, j + 1) <==> IsBefore(buckets, all[name], i, j)
    {
      ContentsAreNamed(buckets, all, name);
    }
  }

  lemma ContentsAreNamed(buckets: Buckets, all: Contents, name: Name)
    requires Holds(buckets, all) && name in all
    ensures all[name].name == name && all[name] in buckets[name.hash % |buckets|]
  {
    assert ChainOk(buckets[name.hash % |buckets|], name.hash % |buckets|, |buckets|, all);
  }

  lemma BucketMoved(buckets: Buckets, all: Contents, m: Contents, i: nat)
    requires Holds(buckets, all) && i < |buckets| && Moved(buckets, all, m, i, |buckets[i]|)
    ensures Moved(buckets, all, m, i + 1, 0)
  {
    assert buckets[i][..|buckets[i]|] == buckets[i];
    forall name | name in all
      ensures IsBefore(buckets, all[name], i, |buckets[i]|) <==> IsBefore(buckets, all[name], i + 1, 0)
    {
      ContentsAreNamed(buckets, all, name);
    }
  }

  lemma AllMoved(buckets: Buckets, all: Contents, m: Contents)
    requires Holds(buckets, all) && Moved(buckets, all, m, |buckets|, 0)
    ensures m == all
  {
    forall name | name in all ensures name in m && m[name] == all[name] {
      ContentsAreNamed(buckets, all, name);
    }
  }
}
