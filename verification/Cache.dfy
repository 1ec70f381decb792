/** LRUCache (util/cache.cc): one shard of the cache.  Entries are counted references; those only the
    cache refers to are evicted, the least recently used first. */
module Cache {
  import opened Dbformat
  import opened HandleTable

  // refs counts the cache's own reference too, if it has one.
  datatype LRUHandle = LRUHandle(name: Name, value: nat, charge: nat, refs: nat, inCache: bool)

  datatype State = State(
    entries: map<Id, LRUHandle>,  // the handles that are allocated
    lru: seq<Id>,             // in the cache and not in use by clients, oldest first
    inUse: seq<Id>,           // in the cache and in use by clients
    usage: int,
    deleted: seq<Id>,         // the deleter calls so far
    nextId: Id)

  // ---------- Lists ----------

  // LRU_Remove
  function Without(list: seq<Id>, e: Id): seq<Id> {
    if list == [] then [] else if list[0] == e then list[1..] else [list[0]] + Without(list[1..], e)
  }

  ghost predicate Distinct(list: seq<Id>) {
    forall i, j :: 0 <= i < j < |list| ==> list[i] != list[j]
  }

  lemma {:induction false} WithoutOne(list: seq<Id>, e: Id)
    requires Distinct(list)
    ensures Distinct(Without(list, e)) && forall x :: x in Without(list, e) <==> x in list && x != e
  {
    if list != [] && list[0] != e {
      WithoutOne(list[1..], e);
      var rest := Without(list[1..], e);
      assert list[0] !in list[1..];
      assert forall i :: 0 <= i < |rest| ==> rest[i] in rest && rest[i] != list[0];
    } else if list != [] {
      assert forall i :: 0 < i < |list| ==> list[i] != e;
      assert forall x :: x in list <==> x == e || x in list[1..];
    }
  }

  lemma {:induction false} WithoutAbsent(list: seq<Id>, e: Id)
    requires e !in list
    ensures Without(list, e) == list
  {
    if list != [] {
      WithoutAbsent(list[1..], e);
    }
  }

  function Charge(entries: map<Id, LRUHandle>, list: seq<Id>): nat {
    if list == [] then 0
    else Charge(entries, list[1..]) + (if list[0] in entries then entries[list[0]].charge else 0)
  }

  lemma {:induction false} ChargeFrame(a: map<Id, LRUHandle>, b: map<Id, LRUHandle>, list: seq<Id>)
    requires forall e :: e in list ==> e in a && e in b && a[e].charge == b[e].charge
    ensures Charge(a, list) == Charge(b, list)
  {
    if list != [] {
      ChargeFrame(a, b, list[1..]);
    }
  }

  lemma {:induction false} ChargeAppend(entries: map<Id, LRUHandle>, list: seq<Id>, e: Id)
    requires e in entries
    ensures Charge(entries, list + [e]) == Charge(entries, list) + entries[e].charge
  {
    if list == [] {
      assert list + [e] == [e] && [e][1..] == [];
    } else {
      assert (list + [e])[1..] == list[1..] + [e];
      ChargeAppend(entries, list[1..], e);
    }
  }

  lemma {:induction false} ChargeWithout(entries: map<Id, LRUHandle>, list: seq<Id>, e: Id)
    requires e in list && e in entries
    ensures Charge(entries, list) == Charge(entries, Without(list, e)) + entries[e].charge
  {
    if list[0] != e {
      ChargeWithout(entries, list[1..], e);
      assert ([list[0]] + Without(list[1..], e))[1..] == Without(list[1..], e);
    }
  }

  // ---------- The invariant ----------

  // Every reference is a client's or the cache's, and an entry lives as long as there is one.
  ghost predicate RefsOk(s: State, clients: multiset<Id>) {
    && (forall e :: e in s.entries ==> s.entries[e].refs == clients[e] + (if s.entries[e].inCache then 1 else 0) > 0)
    && forall e :: e in clients ==> e in s.entries
  }

  // An entry in the cache is in exactly one list: lru if nobody else refers to it.
  ghost predicate ListsOk(s: State) {
    && Distinct(s.lru) && Distinct(s.inUse)
    && (forall e :: e in s.lru <==> e in s.entries && s.entries[e].inCache && s.entries[e].refs == 1)
    && forall e :: e in s.inUse <==> e in s.entries && s.entries[e].inCache && s.entries[e].refs > 1
  }

  ghost predicate UsageOk(s: State) {
    s.usage == Charge(s.entries, s.lru) + Charge(s.entries, s.inUse)
  }

  // The deleter has run once for every entry ever made that is gone, and for no other.
  ghost predicate DeletedOk(s: State) {
    && Distinct(s.deleted)
    && (forall e: Id :: e < s.nextId <==> e in s.entries || e in s.deleted)
    && forall e :: !(e in s.entries && e in s.deleted)
  }

  ghost predicate Core(s: State, clients: multiset<Id>) {
    RefsOk(s, clients) && ListsOk(s) && UsageOk(s) && DeletedOk(s)
  }

  // ---------- Steps ----------

  function Ref(s: State, e: Id): State
    requires e in s.entries
  {
    var x := s.entries[e];
    var t := s.(entries := s.entries[e := x.(refs := x.refs + 1)]);
    if x.refs == 1 && x.inCache then t.(lru := Without(s.lru, e), inUse := s.inUse + [e]) else t
  }

  function Unref(s: State, e: Id): State
    requires e in s.entries && s.entries[e].refs > 0
  {
    var x := s.entries[e];
    var t := s.(entries := s.entries[e := x.(refs := x.refs - 1)]);
    if x.refs == 1 then s.(entries := s.entries - {e}, deleted := s.deleted + [e])
    else if x.inCache && x.refs == 2 then t.(lru := s.lru + [e], inUse := Without(s.inUse, e))
    else t
  }

  // FinishErase, up to the cache's giving up its reference.
  function Uncache(s: State, e: Id): State
    requires e in s.entries
  {
    s.(lru := Without(s.lru, e), inUse := Without(s.inUse, e), usage := s.usage - s.entries[e].charge,
       entries := s.entries[e := s.entries[e].(inCache := false)])
  }

  // A new entry, with a reference for the client and, if it is cached, one for the cache.
  function Create(s: State, name: Name, value: nat, charge: nat, cached: bool): State {
    var t := s.(
        entries := s.entries[s.nextId := LRUHandle(name, value, charge, if cached then 2 else 1, cached)],
        nextId := s.nextId + 1);
    if cached then t.(inUse := s.inUse + [s.nextId], usage := s.usage + charge) else t
  }

  lemma RefKeepsCore(s: State, clients: multiset<Id>, e: Id)
    requires Core(s, clients) && e in s.entries
    ensures Core(Ref(s, e), clients + multiset{e})
  {
    var t := Ref(s, e);
    RefKeepsLists(s, clients, e);
    RefKeepsUsage(s, e);
    assert DeletedOk(t);
    assert RefsOk(t, clients + multiset{e});
  }

  // What a client takes is not in the list of unused entries, and no other leaves it.
  lemma RefTakesOut(s: State, clients: multiset<Id>, e: Id)
    requires Core(s, clients) && e in s.entries
    ensures Ref(s, e).lru == Without(s.lru, e)
  {
    if e !in s.lru {
      WithoutAbsent(s.lru, e);
    }
  }

  lemma RefKeepsLists(s: State, clients: multiset<Id>, e: Id)
    requires RefsOk(s, clients) && ListsOk(s) && e in s.entries
    ensures ListsOk(Ref(s, e))
  {
    WithoutOne(s.lru, e);
  }

  lemma RefKeepsUsage(s: State, e: Id)
    requires ListsOk(s) && UsageOk(s) && e in s.entries
    ensures UsageOk(Ref(s, e))
  {
    var t := Ref(s, e);
    WithoutOne(s.lru, e);
    ChargeFrame(s.entries, t.entries, Without(s.lru, e));
    ChargeFrame(s.entries, t.entries, s.lru);
    ChargeFrame(s.entries, t.entries, s.inUse);
    ChargeAppend(t.entries, s.inUse, e);
    if s.entries[e].refs == 1 && s.entries[e].inCache {
      ChargeWithout(s.entries, s.lru, e);
    }
  }

  lemma UnrefKeepsCore(s: State, clients: multiset<Id>, e: Id)
    requires Core(s, clients) && e in clients
    ensures e in s.entries && s.entries[e].refs > 0
    ensures Core(Unref(s, e), clients - multiset{e})
  {
    var t := Unref(s, e);
    UnrefKeepsLists(s, clients, e);
    UnrefKeepsUsage(s, clients, e);
    assert DeletedOk(t);
    assert RefsOk(t, clients - multiset{e});
  }

  lemma UnrefKeepsLists(s: State, clients: multiset<Id>, e: Id)
    requires RefsOk(s, clients) && ListsOk(s) && e in clients
    ensures ListsOk(Unref(s, e))
  {
    WithoutOne(s.inUse, e);
  }

  lemma UnrefKeepsUsage(s: State, clients: multiset<Id>, e: Id)
    requires RefsOk(s, clients) && ListsOk(s) && UsageOk(s) && e in clients
    ensures UsageOk(Unref(s, e))
  {
    var t := Unref(s, e);
    WithoutOne(s.inUse, e);
    ChargeFrame(s.entries, t.entries, Without(s.inUse, e));
    ChargeFrame(s.entries, t.entries, s.lru);
    ChargeFrame(s.entries, t.entries, s.inUse);
    if s.entries[e].inCache && s.entries[e].refs == 2 {
      ChargeAppend(t.entries, s.lru, e);
      ChargeWithout(s.entries, s.inUse, e);
    }
  }

  // The cache's own reference is left over, like a client's.
  lemma UncacheKeepsCore(s: State, clients: multiset<Id>, e: Id)
    requires Core(s, clients) && e in s.entries && s.entries[e].inCache
    ensures Core(Uncache(s, e), clients + multiset{e})
  {
    var t := Uncache(s, e);
    UncacheKeepsLists(s, clients, e);
    UncacheKeepsUsage(s, clients, e);
    assert DeletedOk(t);
    assert RefsOk(t, clients + multiset{e});
  }

  lemma UncacheKeepsLists(s: State, clients: multiset<Id>, e: Id)
    requires RefsOk(s, clients) && ListsOk(s) && e in s.entries && s.entries[e].inCache
    ensures ListsOk(Uncache(s, e))
  {
    WithoutOne(s.lru, e);
    WithoutOne(s.inUse, e);
  }

  lemma UncacheKeepsUsage(s: State, clients: multiset<Id>, e: Id)
    requires RefsOk(s, clients) && ListsOk(s) && UsageOk(s) && e in s.entries && s.entries[e].inCache
    ensures UsageOk(Uncache(s, e))
  {
    var t := Uncache(s, e);
    WithoutOne(s.lru, e);
    WithoutOne(s.inUse, e);
    ChargeFrame(s.entries, t.entries, Without(s.lru, e));
    ChargeFrame(s.entries, t.entries, Without(s.inUse, e));
    if s.entries[e].refs == 1 {
      ChargeWithout(s.entries, s.lru, e);
      WithoutAbsent(s.inUse, e);
    } else {
      ChargeWithout(s.entries, s.inUse, e);
      WithoutAbsent(s.lru, e);
    }
  }

  lemma CreateKeepsCore(s: State, clients: multiset<Id>, name: Name, value: nat, charge: nat, cached: bool)
    requires Core(s, clients)
    ensures Core(Create(s, name, value, charge, cached), clients + multiset{s.nextId})
    ensures s.nextId !in s.entries && s.nextId !in s.deleted && s.nextId !in clients
  {
    var t := Create(s, name, value, charge, cached);
    CreateKeepsUsage(s, name, value, charge, cached);
    assert s.nextId !in s.entries && s.nextId !in clients;
    assert ListsOk(t);
    assert DeletedOk(t);
    assert RefsOk(t, clients + multiset{s.nextId});
  }

  lemma CreateKeepsUsage(s: State, name: Name, value: nat, charge: nat, cached: bool)
    requires ListsOk(s) && UsageOk(s) && DeletedOk(s)
    ensures UsageOk(Create(s, name, value, charge, cached))
  {
    var t := Create(s, name, value, charge, cached);
    assert s.nextId !in s.entries;
    ChargeFrame(s.entries, t.entries, s.lru);
    ChargeFrame(s.entries, t.entries, s.inUse);
    ChargeAppend(t.entries, s.inUse, s.nextId);
  }

  // ---------- The hash table ----------

  // The table has the entries that are in the cache, except for those of `out`.
  ghost predicate TableOk(entries: map<Id, LRUHandle>, contents: Contents, out: set<Id>) {
    && (forall n :: n in contents ==>
          var h := contents[n];
          h.name == n && h.id in entries && entries[h.id].inCache && entries[h.id].name == n && h.id !in out)
    && forall e :: e in entries && entries[e].inCache && e !in out ==>
          entries[e].name in contents && contents[entries[e].name].id == e
  }

  lemma RefKeepsTable(s: State, e: Id, contents: Contents)
    requires e in s.entries && TableOk(s.entries, contents, {})
    ensures TableOk(Ref(s, e).entries, contents, {})
  {
  }

  lemma UnrefKeepsTable(s: State, clients: multiset<Id>, e: Id, contents: Contents)
    requires RefsOk(s, clients) && e in clients && TableOk(s.entries, contents, {})
    ensures e in s.entries && s.entries[e].refs > 0 && TableOk(Unref(s, e).entries, contents, {})
  {
  }

  lemma UncacheKeepsTable(s: State, e: Id, contents: Contents)
    requires e in s.entries && TableOk(s.entries, contents, {e})
    ensures TableOk(Uncache(s, e).entries, contents, {})
  {
  }

  lemma InsertedInTable(s: State, name: Name, value: nat, charge: nat, contents: Contents)
    requires TableOk(s.entries, contents, {}) && s.nextId !in s.entries
    ensures var t := Create(s, name, value, charge, true);
            TableOk(t.entries, contents[name := Handle(name, s.nextId)],
                    if name in contents then {contents[name].id} else {})
  {
  }

  lemma RemovedFromTable(entries: map<Id, LRUHandle>, contents: Contents, name: Name)
    requires TableOk(entries, contents, {}) && name in contents
    ensures TableOk(entries, contents - {name}, {contents[name].id})
  {
  }

  // ---------- The cache ----------

  // The least recently used entry goes.
  function EvictFirst(s: State): State
    requires s.lru != []
  {
    s.(lru := s.lru[1..], entries := s.entries - {s.lru[0]}, deleted := s.deleted + [s.lru[0]],
       usage := s.usage - (if s.lru[0] in s.entries then s.entries[s.lru[0]].charge else 0))
  }

  // The loop of Insert.
  function Evict(s: State, capacity: nat): State
    decreases |s.lru|
  {
    if s.usage <= capacity || s.lru == [] then s else Evict(EvictFirst(s), capacity)
  }

  function Members(list: seq<Id>): set<Id> { set e | e in list }

  // The state without the first k entries of the lru list.
  function WithoutOldest(s: State, k: nat): State
    requires k <= |s.lru|
  {
    s.(lru := s.lru[k..], entries := s.entries - Members(s.lru[..k]), deleted := s.deleted + s.lru[..k],
       usage := s.usage - Charge(s.entries, s.lru[..k]))
  }

  // Just enough of the oldest entries go, oldest first, for the usage to be within the capacity.
  lemma {:induction false} EvictsTheOldest(s: State, capacity: nat) returns (k: nat)
    requires Distinct(s.lru)
    ensures k <= |s.lru| && Evict(s, capacity) == WithoutOldest(s, k)
    ensures Evict(s, capacity).usage <= capacity || k == |s.lru|
    ensures k > 0 ==> WithoutOldest(s, k - 1).usage > capacity
    decreases |s.lru|
  {
    hide WithoutOldest, EvictFirst;
    NoneWithout(s);
    if s.usage <= capacity || s.lru == [] {
      k := 0;
      assert s.lru[0..] == s.lru;
    } else {
      FirstIsOldest(s);
      var j := EvictsTheOldest(EvictFirst(s), capacity);
      k := j + 1;
      OneMoreOldest(s, j);
      if j > 0 {
        OneMoreOldest(s, j - 1);
      }
    }
  }

  lemma NoneWithout(s: State)
    ensures WithoutOldest(s, 0) == s
  {
    assert s.entries - Members(s.lru[..0]) == s.entries;
  }

  lemma FirstIsOldest(s: State)
    requires s.lru != [] && Distinct(s.lru)
    ensures EvictFirst(s).lru == s.lru[1..] && Distinct(EvictFirst(s).lru)
  {
  }

  lemma OneMoreOldest(s: State, j: nat)
    requires s.lru != [] && Distinct(s.lru) && j < |s.lru|
    ensures EvictFirst(s).lru == s.lru[1..]
    ensures WithoutOldest(EvictFirst(s), j) == WithoutOldest(s, j + 1)
  {
    var t, e := EvictFirst(s), s.lru[0];
    var gone := s.lru[1..][..j];
    FirstAndRest(s.lru, j);
    OneMoreGone(s.entries, e, gone);
    ChargeOfOthers(s.entries, e, gone);
    assert s.deleted + ([e] + gone) == t.deleted + gone;
    assert s.lru[1..][j..] == s.lru[j + 1..];
  }

  lemma FirstAndRest(list: seq<Id>, j: nat)
    requires j < |list|
    ensures list[..j + 1] == [list[0]] + list[1..][..j] && ([list[0]] + list[1..][..j])[1..] == list[1..][..j]
  {
  }

  lemma OneMoreGone(entries: map<Id, LRUHandle>, e: Id, gone: seq<Id>)
    ensures entries - Members([e] + gone) == entries - {e} - Members(gone)
  {
  }

  lemma {:induction false} ChargeOfOthers(entries: map<Id, LRUHandle>, e: Id, list: seq<Id>)
    requires e !in list
    ensures Charge(entries - {e}, list) == Charge(entries, list)
  {
    if list != [] {
      ChargeOfOthers(entries, e, list[1..]);
    }
  }

  // The state Insert starts evicting from.
  function Placed(s: State, contents: Contents, name: Name, value: nat, charge: nat, capacity: nat): State {
    var t := Create(s, name, value, charge, capacity > 0);
    if capacity > 0 && name in contents && contents[name].id in t.entries
      then
        var u := Uncache(t, contents[name].id);
        if u.entries[contents[name].id].refs > 0 then Unref(u, contents[name].id) else u
      else t
  }

  // The first of the lru list is alone with its reference, and in the table.
  lemma FirstCanGo(s: State, clients: multiset<Id>, contents: Contents)
    requires Core(s, clients) && TableOk(s.entries, contents, {}) && s.lru != []
    ensures var e := s.lru[0];
            && e in s.entries && s.entries[e].inCache && s.entries[e].refs == 1
            && s.entries[e].name in contents && contents[s.entries[e].name].id == e
            && Unref(Uncache(s, e), e) == EvictFirst(s)
  {
    var e := s.lru[0];
    assert e in s.lru;
    assert e !in s.inUse;
    WithoutAbsent(s.inUse, e);
    assert Uncache(s, e).entries - {e} == s.entries - {e};
  }

  // ---------- Order of use and contents ----------

  // The list is in the order in which its entries were last released.
  ghost predicate Aged(lru: seq<Id>, releasedAt: map<Id, nat>, clock: nat) {
    && (forall e :: e in lru ==> e in releasedAt && releasedAt[e] < clock)
    && forall i, j :: 0 <= i < j < |lru| ==> releasedAt[lru[i]] < releasedAt[lru[j]]
  }

  lemma {:induction false} WithoutIsOneLess(list: seq<Id>, e: Id) returns (i: nat)
    requires e in list
    ensures i < |list| && list[i] == e && Without(list, e) == list[..i] + list[i + 1..]
  {
    if list[0] == e {
      i := 0;
    } else {
      i := WithoutIsOneLess(list[1..], e);
      i := i + 1;
      assert [list[0]] + (list[1..][..i - 1] + list[1..][i..]) == list[..i] + list[i + 1..];
    }
  }

  lemma AgedWithout(lru: seq<Id>, e: Id, releasedAt: map<Id, nat>, clock: nat)
    requires Aged(lru, releasedAt, clock)
    ensures Aged(Without(lru, e), releasedAt, clock)
  {
    hide Without, Aged;
    if e in lru {
      var i := WithoutIsOneLess(lru, e);
      AgedOneLess(lru, i, releasedAt, clock);
    } else {
      WithoutAbsent(lru, e);
    }
  }

  lemma AgedOneLess(lru: seq<Id>, i: nat, releasedAt: map<Id, nat>, clock: nat)
    requires Aged(lru, releasedAt, clock) && i < |lru|
    ensures Aged(lru[..i] + lru[i + 1..], releasedAt, clock)
  {
    var rest := lru[..i] + lru[i + 1..];
    forall a, b | 0 <= a < b < |rest|
      ensures rest[a] in lru && rest[b] in lru && releasedAt[rest[a]] < releasedAt[rest[b]]
    {
      var a', b' := if a < i then a else a + 1, if b < i then b else b + 1;
      assert rest[a] == lru[a'] && rest[b] == lru[b'];
    }
  }

  lemma UnrefAges(s: State, clients: multiset<Id>, e: Id, releasedAt: map<Id, nat>, clock: nat)
    requires Core(s, clients) && e in clients && Aged(s.lru, releasedAt, clock)
    ensures e in s.entries && s.entries[e].refs > 0
    ensures Aged(Unref(s, e).lru, releasedAt[e := clock], clock + 1)
    ensures Unref(s, e).lru == if s.entries[e].inCache && clients[e] == 1 then s.lru + [e] else s.lru
  {
    hide UsageOk, DeletedOk, Distinct;
    assert e !in s.lru;
    assert forall x :: x in s.lru + [e] ==> x in s.lru || x == e;
  }

  // No entry's name, value or charge changes.
  ghost predicate SameHandles(a: map<Id, LRUHandle>, b: map<Id, LRUHandle>) {
    forall e :: e in a && e in b ==>
      a[e].name == b[e].name && a[e].value == b[e].value && a[e].charge == b[e].charge
  }

  // The entries in the table have what was last inserted under their names.
  ghost predicate Kept(entries: map<Id, LRUHandle>, contents: Contents, inserted: map<Name, (nat, nat)>) {
    forall n :: n in contents ==>
      && contents[n].id in entries && n in inserted
      && (entries[contents[n].id].value, entries[contents[n].id].charge) == inserted[n]
  }

  lemma KeptWhileSame(
      a: map<Id, LRUHandle>, b: map<Id, LRUHandle>, contents: Contents, inserted: map<Name, (nat, nat)>)
    requires Kept(a, contents, inserted) && SameHandles(a, b) && TableOk(b, contents, {})
    ensures Kept(b, contents, inserted)
  {
  }

  lemma RefIsSame(s: State, e: Id)
    requires e in s.entries
    ensures SameHandles(s.entries, Ref(s, e).entries)
  {
  }

  lemma UnrefIsSame(s: State, e: Id)
    requires e in s.entries && s.entries[e].refs > 0
    ensures SameHandles(s.entries, Unref(s, e).entries)
  {
  }

  // Leaving the cache touches the order of use of no other entry.
  lemma ErasedIsSame(s: State, e: Id, releasedAt: map<Id, nat>, clock: nat)
    requires e in s.entries && s.entries[e].refs > 0 && Aged(s.lru, releasedAt, clock)
    ensures Uncache(s, e).entries[e].refs > 0
    ensures SameHandles(s.entries, Unref(Uncache(s, e), e).entries)
    ensures Unref(Uncache(s, e), e).lru == Without(s.lru, e)
    ensures Aged(Unref(Uncache(s, e), e).lru, releasedAt, clock)
  {
    AgedWithout(s.lru, e, releasedAt, clock);
  }

  lemma SameTwice(a: map<Id, LRUHandle>, b: map<Id, LRUHandle>, c: map<Id, LRUHandle>)
    requires SameHandles(a, b) && SameHandles(b, c) && forall e :: e in a && e in c ==> e in b
    ensures SameHandles(a, c)
  {
  }

  // All that is evicted was last released before all that stays.
  ghost predicate OldestWent(before: seq<Id>, after: seq<Id>, replaced: set<Id>, releasedAt: map<Id, nat>) {
    && (forall x :: x in after ==> x in before && x in releasedAt)
    && forall x, y :: x in before && x !in after && x !in replaced && y in after ==>
         x in releasedAt && releasedAt[x] < releasedAt[y]
  }

  lemma EvictionGoesByAge(
      s: State, capacity: nat, before: seq<Id>, replaced: set<Id>, releasedAt: map<Id, nat>, clock: nat)
    requires Distinct(s.lru) && Aged(s.lru, releasedAt, clock)
    requires forall x :: x in s.lru ==> x in before
    requires forall x :: x in before && x !in replaced ==> x in s.lru
    ensures OldestWent(before, Evict(s, capacity).lru, replaced, releasedAt)
    ensures SameHandles(s.entries, Evict(s, capacity).entries)
    ensures forall x :: x in Evict(s, capacity).entries ==> x in s.entries
  {
    hide Evict, Charge, Members;
    var k := EvictsTheOldest(s, capacity);
    var after := s.lru[k..];
    forall x, y | x in before && x !in after && x !in replaced && y in after ensures releasedAt[x] < releasedAt[y] {
      assert s.lru == s.lru[..k] + after;
      var i :| 0 <= i < k && s.lru[..k][i] == x;
      var j :| 0 <= j < |after| && after[j] == y;
      assert s.lru[i] == x && s.lru[k + j] == y;
    }
  }

  lemma PlacedIsSame(
      s: State, clients: multiset<Id>, contents: Contents, name: Name, value: nat, charge: nat, capacity: nat,
      releasedAt: map<Id, nat>, clock: nat)
    requires Core(s, clients) && TableOk(s.entries, contents, {}) && Aged(s.lru, releasedAt, clock)
    ensures var t := Placed(s, contents, name, value, charge, capacity);
            var replaced := if capacity > 0 && name in contents then {contents[name].id} else {};
            && SameHandles(s.entries, t.entries) && Distinct(t.lru) && Aged(t.lru, releasedAt, clock)
            && (forall x :: x in t.lru ==> x in s.lru) && (forall x :: x in s.lru && x !in replaced ==> x in t.lru)
  {
    hide Charge, UsageOk, DeletedOk, Without;
    CreateKeepsCore(s, clients, name, value, charge, capacity > 0);
    var t := Create(s, name, value, charge, capacity > 0);
    if capacity > 0 && name in contents {
      var old' := contents[name].id;
      ErasedIsSame(t, old', releasedAt, clock);
      WithoutOne(s.lru, old');
    }
  }

  // An entry that has left the table leaves the cache.
  lemma Erased(
      s: State, clients: multiset<Id>, e: Id, contents: Contents, releasedAt: map<Id, nat>, clock: nat,
      inserted: map<Name, (nat, nat)>)
    requires Core(s, clients) && e in s.entries && s.entries[e].inCache && TableOk(s.entries, contents, {e})
    requires Aged(s.lru, releasedAt, clock) && Kept(s.entries, contents, inserted)
    ensures Uncache(s, e).entries[e].refs > 0
    ensures var t := Unref(Uncache(s, e), e);
            && Core(t, clients) && TableOk(t.entries, contents, {}) && Aged(t.lru, releasedAt, clock)
            && Kept(t.entries, contents, inserted) && SameHandles(s.entries, t.entries)
  {
    hide Core, TableOk, Without, Aged, Kept, SameHandles;
    CoreRefs(s, clients);
    ErasedIsSame(s, e, releasedAt, clock);
    UncacheKeepsCore(s, clients, e);
    UncacheKeepsTable(s, e, contents);
    var u := Uncache(s, e);
    UnrefKeepsCore(u, clients + multiset{e}, e);
    CoreRefs(u, clients + multiset{e});
    UnrefKeepsTable(u, clients + multiset{e}, e, contents);
    assert clients + multiset{e} - multiset{e} == clients;
    KeptWhileSame(s.entries, Unref(u, e).entries, contents, inserted);
  }

  // A client gives an entry back.
  lemma Released(
      s: State, clients: multiset<Id>, e: Id, contents: Contents, releasedAt: map<Id, nat>, clock: nat,
      inserted: map<Name, (nat, nat)>)
    requires Core(s, clients) && e in clients && TableOk(s.entries, contents, {})
    requires Aged(s.lru, releasedAt, clock) && Kept(s.entries, contents, inserted)
    ensures e in s.entries && s.entries[e].refs > 0
    ensures var t := Unref(s, e);
            && Core(t, clients - multiset{e}) && TableOk(t.entries, contents, {})
            && Aged(t.lru, releasedAt[e := clock], clock + 1)
            && Kept(t.entries, contents, inserted) && SameHandles(s.entries, t.entries)
            && t.lru == (if s.entries[e].inCache && clients[e] == 1 then s.lru + [e] else s.lru)
            && t.deleted == (if clients[e] > 1 || s.entries[e].inCache then s.deleted else s.deleted + [e])
            && forall x :: x in clients - multiset{e} ==> x in t.entries && x !in t.deleted
  {
    hide Core, TableOk, Without, Aged, Kept, SameHandles;
    UnrefKeepsCore(s, clients, e);
    CoreRefs(s, clients);
    UnrefKeepsTable(s, clients, e, contents);
    UnrefAges(s, clients, e, releasedAt, clock);
    UnrefIsSame(s, e);
    KeptWhileSame(s.entries, Unref(s, e).entries, contents, inserted);
    CoreRefs(Unref(s, e), clients - multiset{e});
  }

  class LRUCache {
    const capacity: nat
    const table: HandleTable
    var entries: map<Id, LRUHandle>
    var lru: seq<Id>
    var inUse: seq<Id>
    var usage: int
    var deleted: seq<Id>
    var nextId: Id
    ghost var clients: multiset<Id>  // the handles clients have and have not released
    ghost var releasedAt: map<Id, nat>           // when each handle was last released
    ghost var clock: nat                         // the releases so far
    ghost var inserted: map<Name, (nat, nat)>    // the value and charge last inserted under each name

    ghost function Now(): State
      reads this
    {
      State(entries, lru, inUse, usage, deleted, nextId)
    }

    ghost predicate Valid()
      reads this, table
    {
      && Core(Now(), clients) && table.Valid() && TableOk(entries, table.contents, {})
      && Aged(lru, releasedAt, clock) && Kept(entries, table.contents, inserted)
    }

    constructor (capacity: nat)
      ensures Valid() && fresh(table) && this.capacity == capacity && table.contents == map[] && clients == multiset{}
    {
      hide Core, HandleTable.Valid, TableOk;
      this.capacity := capacity;
      table := new HandleTable();
      entries, lru, inUse, usage, deleted, nextId := map[], [], [], 0, [], 0;
      clients, releasedAt, clock, inserted := multiset{}, map[], 0, map[];
      new;
      assert Now() == State(map[], [], [], 0, [], 0);
      NothingCached();
    }

    method DoRef(e: Id)
      requires e in entries
      modifies `entries, `lru, `inUse
      ensures Now() == Ref(old(Now()), e)
    {
      var x := entries[e];
      if x.refs == 1 && x.inCache {
        lru := Without(lru, e);
        inUse := inUse + [e];
      }
      entries := entries[e := x.(refs := x.refs + 1)];
    }

    method DoUnref(e: Id)
      requires e in entries && entries[e].refs > 0
      modifies `entries, `lru, `inUse, `deleted
      ensures Now() == Unref(old(Now()), e)
    {
      var x := entries[e];
      entries := entries[e := x.(refs := x.refs - 1)];
      if x.refs == 1 {
        deleted := deleted + [e];
        entries := entries - {e};
        assert entries == old(entries) - {e};
      } else if x.inCache && x.refs == 2 {
        inUse := Without(inUse, e);
        lru := lru + [e];
      }
    }

    // The entry has already been taken out of the hash table.
    method FinishErase(e: Id)
      requires Core(Now(), clients) && table.Valid() && e in entries && entries[e].inCache
      requires TableOk(entries, table.contents, {e})
      requires Aged(lru, releasedAt, clock) && Kept(entries, table.contents, inserted)
      modifies `entries, `lru, `inUse, `usage, `deleted
      ensures Valid() && Now() == Unref(Uncache(old(Now()), e), e)
      ensures SameHandles(old(entries), entries)
    {
      hide Core, TableOk, HandleTable.Valid, Without, Aged, Kept, SameHandles;
      Erased(Now(), clients, e, table.contents, releasedAt, clock, inserted);
      usage := usage - entries[e].charge;
      lru := Without(lru, e);
      inUse := Without(inUse, e);
      entries := entries[e := entries[e].(inCache := false)];
      DoUnref(e);
    }

    method Lookup(name: Name) returns (handle: Option<Id>)
      requires Valid()
      modifies `entries, `lru, `inUse, `clients
      ensures Valid()
      ensures handle == if name in table.contents then Some(table.contents[name].id) else None
      ensures handle.Some? ==>
                handle.value in entries && entries[handle.value].name == name && entries[handle.value].inCache
      ensures handle.Some? ==>
                && name in inserted
                && (entries[handle.value].value, entries[handle.value].charge) == inserted[name]
      ensures SameHandles(old(entries), entries)
      ensures clients == old(clients) + (if handle.Some? then multiset{handle.value} else multiset{})
      ensures handle.Some? ==> lru == Without(old(lru), handle.value)
      ensures handle.None? ==> Now() == old(Now())
    {
      hide Core, HandleTable.Valid, Without, Aged;
      var e := table.Lookup(name);
      if e.None? { return None; }
      handle := Some(e.value.id);
      RefKeepsCore(Now(), clients, e.value.id);
      RefKeepsTable(Now(), e.value.id, table.contents);
      RefIsSame(Now(), e.value.id);
      RefTakesOut(Now(), clients, e.value.id);
      AgedWithout(lru, e.value.id, releasedAt, clock);
      DoRef(e.value.id);
      KeptWhileSame(old(entries), entries, table.contents, inserted);
      clients := clients + multiset{e.value.id};
    }

    // The deleter runs if this was the last reference, and never while a client has the handle.  What no
    // client has any more, but the cache, is the most recently used from now on.
    method Release(e: Id)
      requires Valid() && e in clients
      modifies `entries, `lru, `inUse, `deleted, `clients, `releasedAt, `clock
      ensures releasedAt == old(releasedAt)[e := old(clock)] && clock == old(clock) + 1
      ensures e in old(entries)
      ensures lru == if old(entries[e]).inCache && e !in clients then old(lru) + [e] else old(lru)
      ensures SameHandles(old(entries), entries)
      ensures Valid() && clients == old(clients) - multiset{e}
      ensures deleted == if e in clients || old(entries[e]).inCache then old(deleted) else old(deleted) + [e]
      ensures forall x :: x in clients ==> x in entries && x !in deleted
    {
      hide Core, HandleTable.Valid, TableOk, Aged, Kept, SameHandles, Unref;
      Released(Now(), clients, e, table.contents, releasedAt, clock, inserted);
      DoUnref(e);
      clients, releasedAt, clock := clients - multiset{e}, releasedAt[e := clock], clock + 1;
    }

    method Erase(name: Name)
      requires Valid()
      modifies `entries, `lru, `inUse, `usage, `deleted, table
      ensures Valid() && table.contents == old(table.contents) - {name}
      ensures SameHandles(old(entries), entries)
    {
      hide Core, HandleTable.Valid, Without, Aged;
      var e := table.Remove(name);
      if e.Some? {
        RemovedFromTable(entries, old(table.contents), name);
        FinishErase(e.value.id);
      } else {
        assert table.contents == old(table.contents);
      }
    }

    // One turn of the eviction loops of Insert and Prune.
    method EraseOldest()
      requires Valid() && lru != []
      modifies `entries, `lru, `inUse, `usage, `deleted, table
      ensures Valid() && Now() == EvictFirst(old(Now()))
    {
      hide Core, HandleTable.Valid, Without, TableOk, Aged, Kept;
      var e := lru[0];
      FirstCanGo(Now(), clients, table.contents);
      RemovedFromTable(entries, table.contents, entries[e].name);
      KeptWithout(entries, table.contents, inserted, entries[e].name);
      var erased := table.Remove(entries[e].name);
      FinishErase(erased.value.id);
    }

    // The new handle's state; then entries are evicted as long as there are too many.  An entry that was in
    // the cache under the name is replaced; of the others those go that were last released before all that
    // stay.
    method Insert(name: Name, value: nat, charge: nat) returns (e: Id)
      requires Valid()
      modifies `entries, `lru, `inUse, `usage, `deleted, `nextId, `clients, `inserted, table
      ensures OldestWent(old(lru), lru, if capacity > 0 && name in old(table.contents)
                                        then {old(table.contents[name].id)} else {}, releasedAt)
      ensures inserted == if capacity > 0 then old(inserted)[name := (value, charge)] else old(inserted)
      ensures e in entries && entries[e].name == name && entries[e].value == value && entries[e].charge == charge
      ensures SameHandles(old(entries), entries)
      ensures Valid()
      ensures e == old(nextId) && clients == old(clients) + multiset{e}
      ensures Now() == Evict(Placed(old(Now()), old(table.contents), name, value, charge, capacity), capacity)
      ensures usage <= capacity || lru == []
      ensures e in entries && entries[e].inCache == (capacity > 0)
    {
      hide Core, HandleTable.Valid, Without, TableOk, Evict, Aged, Kept, SameHandles, OldestWent, Placed;
      e := nextId;
      ghost var was, s, replaced :=
        table.contents, Now(), if capacity > 0 && name in table.contents then {table.contents[name].id} else {};
      PlacedIsSame(s, clients, was, name, value, charge, capacity, releasedAt, clock);
      ghost var placed := Placed(s, was, name, value, charge, capacity);
      EvictionGoesByAge(placed, capacity, lru, replaced, releasedAt, clock);
      SameTwice(s.entries, placed.entries, Evict(placed, capacity).entries);
      if capacity > 0 {
        Place(name, value, charge);
      } else {
        CreateKeepsCore(Now(), clients, name, value, charge, false);
        CreateKeepsTable(Now(), name, value, charge, table.contents);
        NotCached(s, was, name, value, charge);
        entries := entries[e := LRUHandle(name, value, charge, 1, false)];
        nextId := nextId + 1;
        clients := clients + multiset{e};
        assert entries == Create(s, name, value, charge, false).entries;
        KeptWhileSame(s.entries, entries, was, inserted);
      }
      while usage > capacity && lru != []
        invariant Valid() && clients == old(clients) + multiset{e}
        invariant inserted == if capacity > 0 then old(inserted)[name := (value, charge)] else old(inserted)
        invariant Evict(Now(), capacity) ==
                    Evict(Placed(old(Now()), old(table.contents), name, value, charge, capacity), capacity)
        invariant e in entries && entries[e].inCache == (capacity > 0)
        invariant entries[e].name == name && entries[e].value == value && entries[e].charge == charge
        decreases |lru|
      {
        FirstCanGo(Now(), clients, table.contents);
        OneEvicted(Now(), capacity);
        NotFirst(Now(), clients, e);
        EraseOldest();
      }
      AllEvicted(Now(), capacity);
    }

    method Place(name: Name, value: nat, charge: nat)
      requires Valid() && capacity > 0
      modifies `entries, `lru, `inUse, `usage, `deleted, `nextId, `clients, `inserted, table
      ensures Valid() && clients == old(clients) + multiset{old(nextId)}
      ensures inserted == old(inserted)[name := (value, charge)]
      ensures Now() == Placed(old(Now()), old(table.contents), name, value, charge, capacity)
      ensures old(nextId) in entries && entries[old(nextId)].inCache && entries[old(nextId)].name == name
      ensures entries[old(nextId)].value == value && entries[old(nextId)].charge == charge
    {
      hide Core, HandleTable.Valid, Without, TableOk, Aged, Kept;
      var e := nextId;
      ghost var was := table.contents;
      CreateKeepsCore(Now(), clients, name, value, charge, true);
      InsertedInTable(Now(), name, value, charge, was);
      ContentsAreCached(entries, was);
      KeptInserted(entries, was, inserted, e, name, value, charge);
      entries := entries[e := LRUHandle(name, value, charge, 2, true)];
      inserted := inserted[name := (value, charge)];
      nextId := nextId + 1;
      clients := clients + multiset{e};
      inUse := inUse + [e];
      usage := usage + charge;
      var previous := table.Insert(Handle(name, e));
      if previous.Some? {
        CoreRefs(Now(), clients);
        FinishErase(previous.value.id);
      }
    }

    method Prune()
      requires Valid()
      modifies `entries, `lru, `inUse, `usage, `deleted, table
      ensures Valid() && lru == [] && inUse == old(inUse)
      ensures deleted == old(deleted) + old(lru)
    {
      hide Core, HandleTable.Valid, TableOk;
      while lru != []
        invariant Valid() && inUse == old(inUse) && deleted + lru == old(deleted) + old(lru)
        decreases |lru|
      {
        EraseOldest();
      }
      assert deleted + [] == deleted;
    }
  }

  lemma KeptInserted(
      entries: map<Id, LRUHandle>, contents: Contents, inserted: map<Name, (nat, nat)>, e: Id, name: Name, value: nat,
      charge: nat)
    requires Kept(entries, contents, inserted) && e !in entries
    ensures Kept(entries[e := LRUHandle(name, value, charge, 2, true)], contents[name := Handle(name, e)],
                 inserted[name := (value, charge)])
  {
  }

  lemma NotCached(s: State, contents: Contents, name: Name, value: nat, charge: nat)
    requires s.nextId !in s.entries
    ensures Placed(s, contents, name, value, charge, 0) == Create(s, name, value, charge, false)
    ensures SameHandles(s.entries, Create(s, name, value, charge, false).entries)
  {
  }

  lemma KeptWithout(
      entries: map<Id, LRUHandle>, contents: Contents, inserted: map<Name, (nat, nat)>, name: Name)
    requires Kept(entries, contents, inserted)
    ensures Kept(entries, contents - {name}, inserted)
  {
  }

  lemma OneEvicted(s: State, capacity: nat)
    requires s.usage > capacity && s.lru != []
    ensures Evict(s, capacity) == Evict(EvictFirst(s), capacity)
  {
  }

  lemma AllEvicted(s: State, capacity: nat)
    requires s.usage <= capacity || s.lru == []
    ensures Evict(s, capacity) == s
  {
  }

  lemma CreateKeepsTable(s: State, name: Name, value: nat, charge: nat, contents: Contents)
    requires TableOk(s.entries, contents, {}) && s.nextId !in s.entries
    ensures TableOk(Create(s, name, value, charge, false).entries, contents, {})
  {
  }

  lemma ContentsAreCached(entries: map<Id, LRUHandle>, contents: Contents)
    requires TableOk(entries, contents, {})
    ensures forall n :: n in contents ==> contents[n].id in entries && entries[contents[n].id].inCache
  {
  }

  // What a client has is not evicted.
  lemma NotFirst(s: State, clients: multiset<Id>, e: Id)
    requires Core(s, clients) && e in clients && s.lru != []
    ensures s.lru[0] != e
  {
    assert s.lru[0] in s.lru;
  }

  lemma NothingCached()
    ensures Core(State(map[], [], [], 0, [], 0), multiset{}) && TableOk(map[], map[], {})
  {
    hide RefsOk, ListsOk, UsageOk, DeletedOk;
    NothingReferred();
    NothingUsed();
    NothingInLists(State(map[], [], [], 0, [], 0));
    NothingDeleted();
  }

  lemma NothingReferred()
    ensures RefsOk(State(map[], [], [], 0, [], 0), multiset{})
  {
  }

  lemma NothingUsed()
    ensures UsageOk(State(map[], [], [], 0, [], 0))
  {
  }

  lemma NothingInLists(s: State)
    requires s == State(map[], [], [], 0, [], 0)
    ensures ListsOk(s)
  {
    hide Distinct;
    NothingListed();
  }

  lemma NothingDeleted()
    ensures DeletedOk(State(map[], [], [], 0, [], 0))
  {
  }

  lemma NothingListed()
    ensures Distinct([])
  {
  }

  lemma CoreRefs(s: State, clients: multiset<Id>)
    requires Core(s, clients)
    ensures RefsOk(s, clients) && DeletedOk(s)
  {
  }
}
