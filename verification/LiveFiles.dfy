/** Which table files stay on disk (db/version_set.cc: the linked list of versions, the reference
    counts of versions and file records, AddLiveFiles; db/db_impl.cc: pending outputs and
    DeleteObsoleteFiles).  Readers take and let go of versions whenever the mutex is free; only the
    one background thread writes and deletes tables. */
module LiveFiles {

  // Where a FileMetaData object belongs: its level and its file number.  Moving a file to another
  // level makes a new object, so neither ever changes.
  type Place = (nat, nat)

  // A Version object: the file objects it lists.
  datatype VersionObject = VersionObject(id: nat, files: seq<nat>, refs: nat)

  // ---------- Counting references ----------

  // How often the versions of the list refer to each file object.
  ghost function Held(list: seq<VersionObject>): multiset<nat> {
    if list == [] then multiset{} else multiset(list[0].files) + Held(list[1..])
  }

  lemma {:induction false} HeldConcat(a: seq<VersionObject>, b: seq<VersionObject>)
    ensures Held(a + b) == Held(a) + Held(b)
  {
    if a == [] {
      assert a + b == b;
    } else {
      assert (a + b)[1..] == a[1..] + b;
      HeldConcat(a[1..], b);
    }
  }

  lemma HeldWithout(list: seq<VersionObject>, i: nat)
    requires i < |list|
    ensures Held(list) == Held(list[..i] + list[i + 1..]) + multiset(list[i].files)
  {
    assert list == list[..i] + list[i..];
    HeldConcat(list[..i], list[i..]);
    HeldConcat(list[..i], list[i + 1..]);
  }

  lemma HeldUpdate(list: seq<VersionObject>, i: nat, v: VersionObject)
    requires i < |list| && v.files == list[i].files
    ensures Held(list[i := v]) == Held(list)
  {
    HeldWithout(list, i);
    HeldWithout(list[i := v], i);
    assert list[i := v][..i] + list[i := v][i + 1..] == list[..i] + list[i + 1..];
  }

  // The counts are exact: an object exists as long as something refers to it.
  ghost predicate Counted(refs: map<nat, nat>, m: multiset<nat>) {
    && (forall o :: o in refs <==> o in m)
    && forall o :: o in refs ==> refs[o] == m[o]
  }

  ghost predicate ObjectsOk(
      refs: map<nat, nat>, places: map<nat, Place>, list: seq<VersionObject>, inHand: multiset<nat>, next: nat)
  {
    && Counted(refs, Held(list) + inHand)
    && refs.Keys <= places.Keys
    && forall o :: o in places ==> o < next
  }

  ghost predicate ListOk(list: seq<VersionObject>, holders: multiset<nat>, next: nat) {
    && list != [] && UniqueIds(list) && VersionsCounted(list, holders)
    && forall i :: 0 <= i < |list| ==> list[i].id < next
  }

  ghost predicate VersionsCounted(list: seq<VersionObject>, holders: multiset<nat>) {
    && (forall i :: 0 <= i < |list| ==> list[i].refs == holders[list[i].id] + (if i == |list| - 1 then 1 else 0) > 0)
    && forall id :: id in holders ==> id in Ids(list)
  }

  ghost function Ids(list: seq<VersionObject>): set<nat> { set v | v in list :: v.id }

  // The versions of the list, whoever holds them.
  ghost function Shown(list: seq<VersionObject>): set<(nat, seq<nat>)> { set v | v in list :: (v.id, v.files) }

  ghost predicate UniqueIds(list: seq<VersionObject>) {
    forall i, j :: 0 <= i < j < |list| ==> list[i].id < list[j].id
  }

  // Every version of `now` was there before, and the current one is the same.
  ghost predicate Remaining(was: seq<VersionObject>, now: seq<VersionObject>) {
    && now != [] && was != []
    && Shown(now) <= Shown(was)
    && now[|now| - 1].id == was[|was| - 1].id && now[|now| - 1].files == was[|was| - 1].files
  }

  lemma RemainingStill(a: seq<VersionObject>, b: seq<VersionObject>, c: seq<VersionObject>)
    requires Remaining(a, b) && Remaining(b, c)
    ensures Remaining(a, c)
  {
  }

  lemma RemainsItself(a: seq<VersionObject>)
    requires a != []
    ensures Remaining(a, a)
  {
  }

  // ---------- Places and numbers ----------

  // Where the version's files are.
  ghost function Places(places: map<nat, Place>, files: seq<nat>): set<Place> {
    set o | o in files && o in places :: places[o]
  }

  // The numbers of the files of all versions in the list.
  ghost function Live(places: map<nat, Place>, list: seq<VersionObject>): set<nat> {
    set v, o | v in list && o in v.files && o in places :: places[o].1
  }

  lemma OnePlace(places: map<nat, Place>, files: seq<nat>, o: nat)
    requires o in places
    ensures Places(places, files + [o]) == Places(places, files) + {places[o]}
  {
  }

  lemma NoPlaces(places: map<nat, Place>)
    ensures Places(places, []) == {}
  {
  }

  // New objects do not matter to files that are already there.
  lemma SamePlaces(a: map<nat, Place>, b: map<nat, Place>, files: seq<nat>)
    requires Extends(a, b) && forall o :: o in files ==> o in a
    ensures Places(a, files) == Places(b, files)
  {
    hide Extends;
    forall o | o in files ensures o in a && o in b && a[o] == b[o] {
      ExtendsAt(a, b, o);
    }
  }

  ghost predicate Extends(a: map<nat, Place>, b: map<nat, Place>) {
    forall o :: o in a ==> o in b && b[o] == a[o]
  }

  lemma ExtendsAt(a: map<nat, Place>, b: map<nat, Place>, o: nat)
    requires Extends(a, b) && o in a
    ensures o in b && b[o] == a[o]
  {
  }

  lemma {:induction false} ListedIsHeld(list: seq<VersionObject>, v: VersionObject, o: nat)
    requires v in list && o in v.files
    ensures o in Held(list)
  {
    if v == list[0] {
      assert o in multiset(list[0].files);
    } else {
      ListedIsHeld(list[1..], v, o);
    }
  }

  // The destructor of a version: one reference less to each of its files, which goes with the last.
  method DropFiles(refs0: map<nat, nat>, files: seq<nat>, ghost rest: multiset<nat>) returns (refs: map<nat, nat>)
    requires Counted(refs0, multiset(files) + rest)
    ensures Counted(refs, rest) && refs.Keys <= refs0.Keys
  {
    hide Counted;
    refs := refs0;
    assert files[0..] == files;
    for i := 0 to |files|
      invariant Counted(refs, multiset(files[i..]) + rest) && refs.Keys <= refs0.Keys
    {
      var o := files[i];
      assert multiset(files[i..]) + rest == multiset(files[i + 1..]) + rest + multiset{o} by {
        assert files[i..] == [o] + files[i + 1..];
      }
      OneLess(refs, multiset(files[i + 1..]) + rest, o);
      refs := if refs[o] > 1 then refs[o := refs[o] - 1] else refs - {o};
    }
    assert multiset(files[|files|..]) + rest == rest;
  }

  lemma OneLess(refs: map<nat, nat>, m: multiset<nat>, o: nat)
    requires Counted(refs, m + multiset{o})
    ensures o in refs && refs[o] > 0
    ensures Counted(if refs[o] > 1 then refs[o := refs[o] - 1] else refs - {o}, m)
  {
    assert o in m + multiset{o};
    assert forall x :: x != o ==> (m + multiset{o})[x] == m[x];
  }

  lemma OneMore(refs: map<nat, nat>, m: multiset<nat>, o: nat)
    requires Counted(refs, m)
    ensures Counted(refs[o := (if o in refs then refs[o] else 0) + 1], m + multiset{o})
  {
  }

  // ---------- Holding versions ----------

  lemma ListIsNotEmpty(list: seq<VersionObject>, holders: multiset<nat>, next: nat)
    requires ListOk(list, holders, next)
    ensures list != []
  {
  }

  lemma CurrentTaken(
      refs: map<nat, nat>, places: map<nat, Place>, list: seq<VersionObject>, inHand: multiset<nat>, nextObject: nat,
      holders: multiset<nat>, next: nat)
    requires ObjectsOk(refs, places, list, inHand, nextObject) && ListOk(list, holders, next) && list != []
    ensures var v := list[|list| - 1];
            var now := list[|list| - 1 := v.(refs := v.refs + 1)];
            ObjectsOk(refs, places, now, inHand, nextObject) && ListOk(now, holders + multiset{v.id}, next) &&
                Remaining(list, now)
  {
    hide Counted;
    var v := list[|list| - 1];
    HeldUpdate(list, |list| - 1, v.(refs := v.refs + 1));
    ListUpdate(list, |list| - 1, holders, holders + multiset{v.id}, next, v.(refs := v.refs + 1));
  }

  // One version's count changes with its holders.
  lemma ListUpdate(
      list: seq<VersionObject>, i: nat, holders: multiset<nat>, holders': multiset<nat>, next: nat, v: VersionObject)
    requires ListOk(list, holders, next) && i < |list| && v == list[i].(refs := v.refs) && v.refs > 0
    requires holders' == holders[v.id := holders'[v.id]]
    requires holders'[v.id] as int - holders[v.id] as int == v.refs as int - list[i].refs as int
    ensures ListOk(list[i := v], holders', next) && Remaining(list, list[i := v])
  {
    hide Ids, Shown;
    IdsAfterUpdate(list, i, v);
    var now := list[i := v];
    forall j | 0 <= j < |now| ensures now[j].refs == holders'[now[j].id] + (if j == |now| - 1 then 1 else 0) > 0 {
      OtherId(list, i, j);
    }
    IdAt(list, i);
    assert forall id :: id in holders' ==> id == v.id || id in holders;
  }

  lemma IdsAfterUpdate(list: seq<VersionObject>, i: nat, v: VersionObject)
    requires i < |list| && v == list[i].(refs := v.refs)
    ensures Ids(list[i := v]) == Ids(list) && Shown(list[i := v]) == Shown(list)
  {
    var now := list[i := v];
    forall u | u in list ensures u.id in Ids(now) && (u.id, u.files) in Shown(now) {
      var j :| 0 <= j < |list| && list[j] == u;
      assert now[j] in now && now[j].id == u.id && now[j].files == u.files;
    }
    forall u | u in now ensures u.id in Ids(list) && (u.id, u.files) in Shown(list) {
      var j :| 0 <= j < |now| && now[j] == u;
      assert list[j] in list && list[j].id == u.id && list[j].files == u.files;
    }
  }

  lemma OtherId(list: seq<VersionObject>, i: nat, j: nat)
    requires UniqueIds(list) && i < |list| && j < |list|
    ensures i == j <==> list[i].id == list[j].id
  {
  }

  lemma IdAt(list: seq<VersionObject>, i: nat)
    requires i < |list|
    ensures list[i].id in Ids(list)
  {
  }

  lemma HolderIsListed(list: seq<VersionObject>, holders: multiset<nat>, next: nat, id: nat)
    requires ListOk(list, holders, next) && id in holders
    ensures exists i :: 0 <= i < |list| && list[i].id == id
    ensures forall i :: 0 <= i < |list| ==> list[i].refs > 0
  {
    var v :| v in list && v.id == id;
    var i :| 0 <= i < |list| && list[i] == v;
  }

  // A version that nothing holds any more is not the current one, and can go.
  lemma LessHeld(
      refs: map<nat, nat>, places: map<nat, Place>, list: seq<VersionObject>, inHand: multiset<nat>, nextObject: nat,
      holders: multiset<nat>, next: nat, i: nat)
    requires ObjectsOk(refs, places, list, inHand, nextObject) && ListOk(list, holders, next)
    requires i < |list| && list[i].id in holders && list[i].refs > 0
    ensures var v := list[i].(refs := list[i].refs - 1);
            var now := if v.refs > 0 then list[i := v] else list[..i] + list[i + 1..];
            && ListOk(now, holders - multiset{v.id}, next) && Remaining(list, now)
            && (if v.refs > 0 then ObjectsOk(refs, places, now, inHand, nextObject)
                else Counted(refs, multiset(v.files) + (Held(now) + inHand)))
  {
    hide Counted;
    var v := list[i].(refs := list[i].refs - 1);
    if v.refs > 0 {
      ListUpdate(list, i, holders, holders - multiset{v.id}, next, v);
      HeldUpdate(list, i, v);
    } else {
      HeldWithout(list, i);
      var now := list[..i] + list[i + 1..];
      assert Held(list) + inHand == multiset(v.files) + (Held(now) + inHand);
      ListRemove(list, i, holders, next);
    }
  }

  lemma ListRemove(list: seq<VersionObject>, i: nat, holders: multiset<nat>, next: nat)
    requires ListOk(list, holders, next) && i < |list| && list[i].id in holders && list[i].refs == 1
    ensures var now := list[..i] + list[i + 1..];
            ListOk(now, holders - multiset{list[i].id}, next) && Remaining(list, now)
  {
    hide Ids, Shown;
    var now := list[..i] + list[i + 1..];
    var id := list[i].id;
    assert i < |list| - 1 && holders[id] == 1;
    IdsAfterRemoval(list, i);
    forall j | 0 <= j < |now| ensures now[j] == list[if j < i then j else j + 1] && now[j].id != id {
      OtherId(list, i, if j < i then j else j + 1);
    }
  }

  lemma IdsAfterRemoval(list: seq<VersionObject>, i: nat)
    requires i < |list| && UniqueIds(list)
    ensures var now := list[..i] + list[i + 1..]; Ids(now) == Ids(list) - {list[i].id} && Shown(now) <= Shown(list)
  {
    var now := list[..i] + list[i + 1..];
    forall u | u in list && u.id != list[i].id ensures u.id in Ids(now) {
      var j :| 0 <= j < |list| && list[j] == u;
      assert now[if j < i then j else j - 1] == u;
    }
    forall u | u in now ensures u in list && u.id != list[i].id {
      var j :| 0 <= j < |now| && now[j] == u;
      OtherId(list, i, if j < i then j else j + 1);
    }
  }

  lemma FewerObjects(
      was: map<nat, nat>, refs: map<nat, nat>, places: map<nat, Place>, list: seq<VersionObject>, inHand: multiset<nat>,
      next: nat)
    requires Counted(refs, Held(list) + inHand) && refs.Keys <= was.Keys <= places.Keys
    requires forall o :: o in places ==> o < next
    ensures ObjectsOk(refs, places, list, inHand, next)
  {
  }

  lemma ObjectsArePlaced(
      refs: map<nat, nat>, places: map<nat, Place>, list: seq<VersionObject>, inHand: multiset<nat>, next: nat)
    requires ObjectsOk(refs, places, list, inHand, next)
    ensures refs.Keys <= places.Keys && forall o :: o in places ==> o < next
    ensures forall o :: o in Held(list) + inHand ==> o in refs
  {
  }

  lemma HeldReplaced(list: seq<VersionObject>, new_: VersionObject)
    requires list != []
    ensures forall v: VersionObject :: v.files == list[|list| - 1].files ==>
              Held(list[|list| - 1 := v] + [new_]) == Held(list) + multiset(new_.files)
    ensures Held(list[..|list| - 1] + [new_]) + multiset(list[|list| - 1].files) == Held(list) + multiset(new_.files)
  {
    var last := |list| - 1;
    assert Held([new_]) == multiset(new_.files) by {
      assert [new_][1..] == [];
    }
    HeldConcat(list[..last], [new_]);
    HeldWithout(list, last);
    assert list[..last] + list[last + 1..] == list[..last];
    forall v: VersionObject | v.files == list[last].files
      ensures Held(list[last := v] + [new_]) == Held(list) + multiset(new_.files)
    {
      HeldUpdate(list, last, v);
      HeldConcat(list[last := v], [new_]);
    }
  }

  lemma ListReplaced(list: seq<VersionObject>, files: seq<nat>, holders: multiset<nat>, next: nat)
    requires ListOk(list, holders, next) && list != []
    ensures list[|list| - 1].refs > 0
    ensures var v := list[|list| - 1].(refs := list[|list| - 1].refs - 1);
            var now :=
                (if v.refs > 0 then list[|list| - 1 := v] else list[..|list| - 1]) + [VersionObject(next, files, 1)];
            ListOk(now, holders, next + 1) && Shown(now) <= Shown(list) + {(next, files)}
  {
    hide Ids, Shown;
    var last := |list| - 1;
    assert list[last].refs > 0;
    var v := list[last].(refs := list[last].refs - 1);
    var new_ := VersionObject(next, files, 1);
    var before := if v.refs > 0 then list[last := v] else list[..last];
    IdAt(list, last);
    IdsAreOlder(list, next);
    if v.refs > 0 {
      IdsAfterUpdate(list, last, v);
    } else {
      IdsAfterRemoval(list, last);
      assert list[..last] + list[last + 1..] == before;
      forall j | 0 <= j < last ensures list[j].id != v.id {
        OtherId(list, last, j);
      }
    }
    IdsOfMore(before, new_);
    assert next !in holders;
    assert forall id :: id in holders ==> id in Ids(before);
  }

  lemma IdsAreOlder(list: seq<VersionObject>, next: nat)
    requires forall i :: 0 <= i < |list| ==> list[i].id < next
    ensures forall id :: id in Ids(list) ==> id < next
  {
  }

  lemma IdsOfMore(list: seq<VersionObject>, v: VersionObject)
    ensures Ids(list + [v]) == Ids(list) + {v.id} && Shown(list + [v]) == Shown(list) + {(v.id, v.files)}
  {
    forall u | u in list ensures u in list + [v] {
    }
    assert v in list + [v];
  }

  // ---------- The versions ----------

  // What readers do while the mutex is free: take the current version, or let go of one they have.
  datatype ReaderStep = TakeCurrent | LetGo(id: nat)

  class VersionList {
    var refs: map<nat, nat>       // the reference counts of the file objects
    var places: map<nat, Place>   // what each file object is about
    var list: seq<VersionObject>  // oldest first; the last one is current
    var nextObject: nat
    var nextVersion: nat
    var readers: multiset<nat>        // the versions readers have, by id
    ghost var mine: multiset<nat>     // those the background thread has
    ghost var inHand: multiset<nat>   // references from a version that is not in the list yet

    ghost predicate Valid()
      reads this
    {
      ObjectsOk(refs, places, list, inHand, nextObject) && ListOk(list, readers + mine, nextVersion)
    }

    function Current(): VersionObject
      requires list != []
      reads `list
    {
      list[|list| - 1]
    }

    ghost function LiveNumbers(): set<nat>
      reads `places, `list
    {
      Live(places, list)
    }

    constructor ()
      ensures Valid() && LiveNumbers() == {} && mine == multiset{} && inHand == multiset{}
    {
      refs, places, list := map[], map[], [VersionObject(0, [], 1)];
      nextObject, nextVersion := 0, 1;
      readers, mine, inHand := multiset{}, multiset{}, multiset{};
      new;
      FirstVersion();
    }

    // ---------- References to versions ----------

    // Version::Ref on the current version.
    method Ref(ghost holders: multiset<nat>) returns (id: nat)
      requires ObjectsOk(refs, places, list, inHand, nextObject) && ListOk(list, holders, nextVersion)
      modifies `list
      ensures ObjectsOk(refs, places, list, inHand, nextObject) && ListOk(list, holders + multiset{id}, nextVersion)
      ensures Remaining(old(list), list)
    {
      hide ObjectsOk, ListOk, Remaining;
      ListIsNotEmpty(list, holders, nextVersion);
      id := Current().id;
      CurrentTaken(refs, places, list, inHand, nextObject, holders, nextVersion);
      list := list[|list| - 1 := Current().(refs := Current().refs + 1)];
    }

    // Version::Unref and, when nothing holds the version any more, its destructor.
    method Unref(id: nat, ghost holders: multiset<nat>)
      requires ObjectsOk(refs, places, list, inHand, nextObject) && ListOk(list, holders, nextVersion) && id in holders
      modifies `list, `refs
      ensures ObjectsOk(refs, places, list, inHand, nextObject) && ListOk(list, holders - multiset{id}, nextVersion)
      ensures Remaining(old(list), list)
    {
      hide ObjectsOk, ListOk, Remaining, Counted, Held;
      HolderIsListed(list, holders, nextVersion, id);
      var i :| 0 <= i < |list| && list[i].id == id;
      var v := list[i].(refs := list[i].refs - 1);
      LessHeld(refs, places, list, inHand, nextObject, holders, nextVersion, i);
      if v.refs > 0 {
        list := list[i := v];
      } else {
        ObjectsArePlaced(refs, places, list, inHand, nextObject);
        list := list[..i] + list[i + 1..];
        refs := DropFiles(refs, v.files, Held(list) + inHand);
        FewerObjects(old(refs), refs, places, list, inHand, nextObject);
      }
    }

    method Hold() returns (id: nat)
      requires Valid()
      modifies `list, `mine
      ensures Valid() && mine == old(mine) + multiset{id} && Remaining(old(list), list)
      ensures list != [] && LiveNumbers() <= old(LiveNumbers()) && Current().files == old(Current()).files
    {
      hide ObjectsOk, ListOk, Remaining, Live;
      id := Ref(readers + mine);
      StillCurrent(places, old(list), list);
      mine := mine + multiset{id};
      assert readers + mine == readers + old(mine) + multiset{id};
    }

    method Release(id: nat)
      requires Valid() && id in mine
      modifies `list, `mine, `refs
      ensures Valid() && mine == old(mine) - multiset{id} && Remaining(old(list), list)
      ensures list != [] && LiveNumbers() <= old(LiveNumbers()) && Current().files == old(Current()).files
    {
      hide ObjectsOk, ListOk, Remaining, Live;
      Unref(id, readers + mine);
      StillCurrent(places, old(list), list);
      mine := mine - multiset{id};
      assert readers + mine == readers + old(mine) - multiset{id};
    }

    // Readers at work.
    method Run(steps: seq<ReaderStep>)
      requires Valid()
      modifies `list, `refs, `readers
      ensures Valid() && Remaining(old(list), list)
      ensures list != [] && LiveNumbers() <= old(LiveNumbers()) && Current().files == old(Current()).files
    {
      hide ObjectsOk, ListOk, Remaining, Live;
      ListIsNotEmpty(list, readers + mine, nextVersion);
      RemainsItself(list);
      for i := 0 to |steps|
        invariant Valid() && Remaining(old(list), list)
      {
        ghost var before := list;
        ghost var had := readers;
        match steps[i] {
          case TakeCurrent =>
            var id := Ref(readers + mine);
            readers := readers + multiset{id};
            assert readers + mine == had + mine + multiset{id};
            RemainingStill(old(list), before, list);
          case LetGo(id) =>
            if id in readers {
              Unref(id, readers + mine);
              readers := readers - multiset{id};
              assert readers + mine == had + mine - multiset{id};
              RemainingStill(old(list), before, list);
            }
        }
      }
      StillCurrent(places, old(list), list);
    }

    // ---------- LogAndApply ----------

    // One more reference from the builder or the version being built.
    method AddRef(o: nat)
      requires Valid() && o in places
      modifies `refs, `inHand
      ensures Valid() && inHand == old(inHand) + multiset{o}
    {
      hide ListOk, Counted, Held;
      OneMore(refs, Held(list) + inHand, o);
      assert Held(list) + inHand + multiset{o} == Held(list) + (inHand + multiset{o});
      refs := refs[o := (if o in refs then refs[o] else 0) + 1];
      inHand := inHand + multiset{o};
    }

    // Builder::Apply: an object for every file the edit adds, with the builder's reference.
    method NewObjects(added: seq<Place>) returns (ids: seq<nat>)
      requires Valid() && inHand == multiset{}
      modifies `refs, `places, `nextObject, `inHand
      ensures Valid() && inHand == multiset(ids) && Extends(old(places), places)
      ensures forall o :: o in ids ==> o in places
      ensures Places(places, ids) == (set p | p in added)
    {
      hide ObjectsOk, ListOk, Places, Extends;
      ids := [];
      NoPlaces(places);
      ExtendsItself(places);
      for i := 0 to |added|
        invariant Valid() && inHand == multiset(ids) && Extends(old(places), places)
        invariant forall o :: o in ids ==> o in places
        invariant Places(places, ids) == (set p | p in added[..i])
      {
        ObjectPlaced(refs, places, list, inHand, nextObject, added[i]);
        ghost var was := places;
        places := places[nextObject := added[i]];
        ExtendsFurther(old(places), was, nextObject, added[i]);
        SamePlaces(was, places, ids);
        OnePlace(places, ids, nextObject);
        assert added[..i + 1] == added[..i] + [added[i]];
        ids := ids + [nextObject];
        nextObject := nextObject + 1;
        AddRef(nextObject - 1);
      }
      assert added[..|added|] == added;
    }

    // Builder::SaveTo: the base's files that are not deleted, and the added ones.
    method SaveTo(ids: seq<nat>, gone: set<Place>) returns (files: seq<nat>)
      requires Valid() && list != [] && inHand == multiset(ids)
      requires forall o :: o in ids || o in Current().files ==> o in places
      modifies `refs, `inHand
      ensures Valid() && inHand == multiset(ids) + multiset(files)
      ensures forall o :: o in files ==> o in places
      ensures Places(places, files) == (Places(places, Current().files) - gone) + Places(places, ids)
    {
      hide ObjectsOk, ListOk, Places;
      files := [];
      var base := Current().files;
      NoPlaces(places);
      for i := 0 to |base|
        invariant Valid() && inHand == multiset(ids) + multiset(files)
        invariant forall o :: o in files ==> o in places
        invariant Places(places, files) == Places(places, base[..i]) - gone
      {
        var o := base[i];
        assert base[..i + 1] == base[..i] + [o];
        OnePlace(places, base[..i], o);
        if places[o] !in gone {
          AddRef(o);
          OnePlace(places, files, o);
          files := files + [o];
        }
      }
      assert base[..|base|] == base;
      ghost var kept := files;
      for i := 0 to |ids|
        invariant Valid() && inHand == multiset(ids) + multiset(files)
        invariant forall o :: o in files ==> o in places
        invariant Places(places, files) == Places(places, kept) + Places(places, ids[..i])
      {
        var o := ids[i];
        assert ids[..i + 1] == ids[..i] + [o];
        OnePlace(places, ids[..i], o);
        AddRef(o);
        OnePlace(places, files, o);
        files := files + [o];
      }
      assert ids[..|ids|] == ids;
    }

    // Builder::~Builder gives back the references Apply took.
    method DropBuilder(ids: seq<nat>, files: seq<nat>)
      requires Valid() && inHand == multiset(ids) + multiset(files)
      modifies `refs, `inHand
      ensures Valid() && inHand == multiset(files)
    {
      hide ObjectsOk, ListOk, Counted, Held;
      BuilderCounted(refs, places, list, ids, files, nextObject);
      refs := DropFiles(refs, ids, Held(list) + multiset(files));
      inHand := multiset(files);
      FewerObjects(old(refs), refs, places, list, inHand, nextObject);
    }

    // What the builder does between its construction and its destruction.  A file the edit adds stays
    // even if the edit also deletes it.
    method ApplyAndSave(deleted: set<Place>, added: seq<Place>) returns (files: seq<nat>)
      requires Valid() && list != [] && inHand == multiset{}
      modifies `refs, `places, `nextObject, `inHand
      ensures Valid() && inHand == multiset(files) && Extends(old(places), places)
      ensures forall o :: o in files ==> o in places
      ensures forall o :: o in Held(list) ==> o in old(places)
      ensures Places(places, files) == (Places(old(places), Current().files) - deleted) + (set p | p in added)
    {
      hide ObjectsOk, ListOk, Places, Extends, Held;
      HeldIsPlaced(refs, places, list, inHand, nextObject);
      CurrentIsHeld(list);
      ghost var was := places;
      var ids := NewObjects(added);
      SamePlaces(was, places, Current().files);
      HeldIsPlaced(refs, places, list, inHand, nextObject);
      files := SaveTo(ids, deleted - (set p | p in added));
      DropBuilder(ids, files);
    }

    // The builder's work on one edit, from its construction to its destruction: the files of the next
    // version, in some order.  Meanwhile the builder holds the current version.
    method Build(deleted: set<Place>, added: seq<Place>) returns (files: seq<nat>)
      requires Valid() && list != [] && inHand == multiset{}
      modifies `refs, `places, `list, `nextObject, `mine, `inHand
      ensures Valid() && inHand == multiset(files) && Extends(old(places), places) && mine == old(mine)
      ensures Remaining(old(list), list)
      ensures forall o :: o in files ==> o in places
      ensures forall o :: o in Held(old(list)) ==> o in old(places)
      ensures Places(places, files) == (Places(old(places), old(Current()).files) - deleted) + (set p | p in added)
    {
      hide ObjectsOk, ListOk, Places, Extends, Held, Remaining;
      HeldIsPlaced(refs, places, list, inHand, nextObject);
      ghost var before := list;
      var base := Hold();
      ghost var held := list;
      files := ApplyAndSave(deleted, added);
      Release(base);
      RemainingStill(before, held, list);
    }

    // AppendVersion: the current version loses the reference it had for being current.
    method AppendVersion(files: seq<nat>)
      requires Valid() && inHand == multiset(files)
      modifies `refs, `list, `nextVersion, `inHand
      ensures Valid() && inHand == multiset{}
      ensures list != [] && Current().files == files
      ensures Shown(list) <= Shown(old(list)) + {(Current().id, files)}
    {
      hide ObjectsOk, ListOk, Counted, Held, Shown;
      ListIsNotEmpty(list, readers + mine, nextVersion);
      VersionReplaced(refs, places, list, files, nextObject, readers + mine, nextVersion);
      var v := Current().(refs := Current().refs - 1);
      var next := VersionObject(nextVersion, files, 1);
      if v.refs > 0 {
        list := list[|list| - 1 := v] + [next];
      } else {
        ObjectsArePlaced(refs, places, list, inHand, nextObject);
        list := list[..|list| - 1] + [next];
        refs := DropFiles(refs, v.files, Held(list) + multiset{});
        FewerObjects(old(refs), refs, places, list, multiset{}, nextObject);
      }
      nextVersion := nextVersion + 1;
      inHand := multiset{};
    }

    // The edit makes the next version; while it is being written to the manifest, readers go on.
    method LogAndApply(deleted: set<Place>, added: seq<Place>, others: seq<ReaderStep>)
      requires Valid() && inHand == multiset{} && list != []
      modifies `refs, `places, `list, `nextObject, `nextVersion, `inHand, `readers, `mine
      ensures Valid() && inHand == multiset{} && list != [] && mine == old(mine)
      ensures Places(places, Current().files) ==
              (Places(old(places), old(Current()).files) - deleted) + (set p | p in added)
      ensures LiveNumbers() <= old(LiveNumbers()) + set p | p in added :: p.1
    {
      hide ObjectsOk, ListOk, Places, Extends, Held, Live, Remaining, Shown;
      ghost var was := list;
      var files := Build(deleted, added);
      ghost var built := list;
      Run(others);
      ghost var between := list;
      RemainingStill(was, built, between);
      AppendVersion(files);
      LiveAfter(old(places), places, was, between, list, files, deleted, added);
    }
  }

  // ---------- The directory ----------

  // The loop over the directory: one file after the other is kept or deleted.
  method Swept(tables0: set<nat>, live: set<nat>) returns (tables: set<nat>)
    ensures tables == tables0 * live
  {
    tables := tables0;
    var filenames := tables0;
    while filenames != {}
      invariant filenames <= tables0
      invariant tables == filenames + (tables0 - filenames) * live
      decreases |filenames|
    {
      var number :| number in filenames;
      if number !in live {
        tables := tables - {number};
      }
      filenames := filenames - {number};
    }
  }

  // One thing a compaction does while it runs: flush the immutable memtable, or write an output table.
  datatype Event =
    | Flush(level: nat, empty: bool, building: seq<ReaderStep>, logging: seq<ReaderStep>)
    | Output(writing: seq<ReaderStep>)

  class Directory {
    const versions: VersionList
    var pendingOutputs: set<nat>
    var tables: set<nat>  // the table files in the directory
    var nextFileNumber: nat

    ghost predicate Valid()
      reads this, versions
    {
      && versions.Valid() && versions.inHand == multiset{} && versions.list != []
      && versions.LiveNumbers() <= tables
      && (forall n :: n in tables || n in pendingOutputs ==> n < nextFileNumber)
    }

    constructor ()
      ensures Valid() && fresh(versions) && tables == {} && pendingOutputs == {} && versions.mine == multiset{}
    {
      versions := new VersionList();
      pendingOutputs, tables, nextFileNumber := {}, {}, 1;
      new;
      ListIsNotEmpty(versions.list, versions.readers + versions.mine, versions.nextVersion);
    }

    // The pending outputs and the files of all live versions.
    method AddLiveFiles() returns (live: set<nat>)
      requires versions.Valid()
      ensures live == pendingOutputs + versions.LiveNumbers()
    {
      hide ObjectsOk, ListOk, Live;
      live := pendingOutputs;
      var list := versions.list;
      NothingLive(versions.places);
      for i := 0 to |list|
        invariant live == pendingOutputs + Live(versions.places, list[..i])
      {
        assert list[..i + 1] == list[..i] + [list[i]];
        LiveOneMore(versions.places, list[..i], list[i]);
        var here := set o | o in list[i].files && o in versions.places :: versions.places[o].1;
        live := live + here;
      }
      assert list[..|list|] == list;
    }

    // Exactly the tables that no live version and no pending output needs are deleted.
    method DeleteObsoleteFiles()
      requires Valid()
      modifies `tables
      ensures Valid() && tables == old(tables) * (pendingOutputs + versions.LiveNumbers())
    {
      hide ObjectsOk, ListOk, Live;
      var live := AddLiveFiles();
      tables := Swept(tables, live);
    }

    // The new table is a pending output only while it is being written.  If there is nothing to
    // write, the file goes again.
    method WriteLevel0Table(empty: bool, building: seq<ReaderStep>) returns (number: nat)
      requires Valid()
      modifies `tables, `pendingOutputs, `nextFileNumber, versions`list, versions`refs, versions`readers
      ensures Valid() && number == old(nextFileNumber) && nextFileNumber == number + 1
      ensures tables == old(tables) + (if empty then {} else {number}) && pendingOutputs == old(pendingOutputs)
      ensures versions.Current().files == old(versions.Current()).files
    {
      hide ObjectsOk, ListOk, Live, Remaining;
      number := nextFileNumber;
      nextFileNumber := nextFileNumber + 1;
      pendingOutputs := pendingOutputs + {number};
      tables := tables + {number};
      versions.Run(building);
      if empty {
        tables := tables - {number};
      }
      pendingOutputs := pendingOutputs - {number};
    }

    // A flush ends with the new table in the current version, and deletes nothing that a version or
    // a pending output needs, but everything else.
    method CompactMemTable(level: nat, empty: bool, building: seq<ReaderStep>, logging: seq<ReaderStep>)
      requires Valid()
      modifies this, versions
      ensures Valid() && pendingOutputs == old(pendingOutputs) && versions.mine == old(versions.mine)
      ensures old(tables) * pendingOutputs <= tables <= pendingOutputs + versions.LiveNumbers()
      ensures nextFileNumber == old(nextFileNumber) + 1
      ensures var before := Places(old(versions.places), old(versions.Current()).files);
              Places(versions.places, versions.Current().files) ==
                  before + (if empty then {} else {(level, old(nextFileNumber))})
    {
      hide ObjectsOk, ListOk, Live, Remaining, Places;
      var base := versions.Hold();
      var number := WriteLevel0Table(empty, building);
      versions.Release(base);
      var edit := if empty then [] else [(level, number)];
      versions.LogAndApply({}, edit, logging);
      assert (set p | p in edit :: p.1) <= tables;
      DeleteObsoleteFiles();
    }

    // A trivial move: a second file object with the same number enters the next level; no table goes.
    method TrivialMove(level: nat, number: nat, logging: seq<ReaderStep>)
      requires Valid() && (level, number) in Places(versions.places, versions.Current().files)
      modifies versions
      ensures Valid() && versions.mine == old(versions.mine)
      ensures Places(versions.places, versions.Current().files) ==
              (Places(old(versions.places), old(versions.Current()).files) - {(level, number)}) + {(level + 1, number)}
    {
      hide ObjectsOk, ListOk, Live, Remaining, Places;
      CurrentIsLive(versions.places, versions.list);
      versions.LogAndApply({(level, number)}, [(level + 1, number)], logging);
      assert (set p | p in [(level + 1, number)] :: p.1) == {number};
    }

    // A compaction, with flushes in between, ends with its outputs in the current version.
    method BackgroundCompaction(level: nat, inputs: set<Place>, events: seq<Event>, installing: seq<ReaderStep>)
      returns (outputs: seq<nat>)
      requires Valid()
      modifies this, versions
      ensures Valid() && pendingOutputs == old(pendingOutputs) && versions.mine == old(versions.mine)
      ensures tables <= pendingOutputs + versions.LiveNumbers()
      ensures forall n ::
                n in outputs ==> n in tables && (level + 1, n) in Places(versions.places, versions.Current().files)
      ensures forall p ::
                p in inputs && p.1 < old(nextFileNumber) ==> p !in Places(versions.places, versions.Current().files)
    {
      hide ObjectsOk, ListOk, Live, Remaining, Places;
      var input := versions.Hold();
      outputs := DoCompactionWork(events);
      InstallCompactionResults(level, inputs, outputs, installing);
      versions.Release(input);
      CurrentIsLive(versions.places, versions.list);
      OutputsArePlaced(level, outputs);
      DeleteObsoleteFiles();
    }

    // The outputs stay pending, and so on disk, whatever the flushes in between delete.
    method DoCompactionWork(events: seq<Event>) returns (outputs: seq<nat>)
      requires Valid()
      modifies this, versions
      ensures Valid() && versions.mine == old(versions.mine)
      ensures forall n :: n in outputs ==> n in tables && n >= old(nextFileNumber)
      ensures pendingOutputs == old(pendingOutputs) + (set n | n in outputs)
    {
      hide ObjectsOk, ListOk, Live, Remaining, Places;
      outputs := [];
      for i := 0 to |events|
        invariant Valid() && versions.mine == old(versions.mine)
        invariant forall n :: n in outputs ==> n in tables && n >= old(nextFileNumber)
        invariant pendingOutputs == old(pendingOutputs) + (set n | n in outputs)
        invariant nextFileNumber >= old(nextFileNumber)
      {
        match events[i] {
          case Flush(to, empty, building, logging) =>
            CompactMemTable(to, empty, building, logging);
          case Output(writing) =>
            var number := OpenCompactionOutputFile(writing);
            outputs := outputs + [number];
        }
      }
    }

    method InstallCompactionResults(level: nat, inputs: set<Place>, outputs: seq<nat>, installing: seq<ReaderStep>)
      requires Valid() && forall n :: n in outputs ==> n in tables
      modifies `pendingOutputs, versions
      ensures Valid() && versions.mine == old(versions.mine)
      ensures pendingOutputs == old(pendingOutputs) - (set n | n in outputs)
      ensures Places(versions.places, versions.Current().files) ==
              (Places(old(versions.places), old(versions.Current()).files) - inputs) +
                  (set p | p in Outputs(level, outputs))
    {
      hide ObjectsOk, ListOk, Live, Places;
      var added := Outputs(level, outputs);
      OutputsArePlaced(level, outputs);
      versions.LogAndApply(inputs, added, installing);
      assert (set p | p in added :: p.1) <= tables;
      pendingOutputs := pendingOutputs - (set n | n in outputs);
    }

    method OpenCompactionOutputFile(writing: seq<ReaderStep>) returns (number: nat)
      requires Valid()
      modifies `tables, `pendingOutputs, `nextFileNumber, versions`list, versions`refs, versions`readers
      ensures Valid() && number == old(nextFileNumber) && nextFileNumber == number + 1
      ensures tables == old(tables) + {number} && pendingOutputs == old(pendingOutputs) + {number}
    {
      hide ObjectsOk, ListOk, Live, Remaining;
      number := nextFileNumber;
      nextFileNumber := nextFileNumber + 1;
      pendingOutputs := pendingOutputs + {number};
      tables := tables + {number};
      versions.Run(writing);
    }
  }

  function Outputs(level: nat, outputs: seq<nat>): (r: seq<Place>)
    ensures |r| == |outputs| && forall i :: 0 <= i < |r| ==> r[i] == (level + 1, outputs[i])
  {
    seq(|outputs|, i requires 0 <= i < |outputs| => (level + 1, outputs[i]))
  }

  lemma OutputsArePlaced(level: nat, outputs: seq<nat>)
    ensures forall n :: n in outputs ==> (level + 1, n) in Outputs(level, outputs)
    ensures forall p :: p in Outputs(level, outputs) ==> p.1 in outputs
  {
    forall n | n in outputs ensures (level + 1, n) in Outputs(level, outputs) {
      var i :| 0 <= i < |outputs| && outputs[i] == n;
      assert Outputs(level, outputs)[i] == (level + 1, n);
    }
  }

  lemma CurrentIsLive(places: map<nat, Place>, list: seq<VersionObject>)
    requires list != []
    ensures forall p :: p in Places(places, list[|list| - 1].files) ==> p.1 in Live(places, list)
  {
    assert list[|list| - 1] in list;
  }

  lemma LiveAfter(
      before: map<nat, Place>, places: map<nat, Place>, was: seq<VersionObject>, between: seq<VersionObject>,
      now: seq<VersionObject>, files: seq<nat>, deleted: set<Place>, added: seq<Place>)
    requires Extends(before, places) && Remaining(was, between) && (forall o :: o in Held(was) ==> o in before)
    requires now != [] && Shown(now) <= Shown(between) + {(now[|now| - 1].id, files)}
    requires forall o :: o in files ==> o in places
    requires Places(places, files) == (Places(before, was[|was| - 1].files) - deleted) + (set p | p in added)
    ensures Live(places, now) <= Live(before, was) + set p | p in added :: p.1
  {
    hide Places, Held, Extends;
    forall n | n in Live(places, now) ensures n in Live(before, was) + set p | p in added :: p.1 {
      var v, o :| v in now && o in v.files && o in places && places[o].1 == n;
      assert (v.id, v.files) in Shown(now);
      if (v.id, v.files) in Shown(was) {
        var u :| u in was && u.id == v.id && u.files == v.files;
        ListedIsHeld(was, u, o);
        ExtendsAt(before, places, o);
      } else {
        PlaceIsListed(places, files, o);
        if places[o] !in added {
          FromBase(before, was, places[o]);
        }
      }
    }
  }

  lemma PlaceIsListed(places: map<nat, Place>, files: seq<nat>, o: nat)
    requires o in files && o in places
    ensures places[o] in Places(places, files)
  {
  }

  lemma FromBase(places: map<nat, Place>, list: seq<VersionObject>, p: Place)
    requires list != [] && p in Places(places, list[|list| - 1].files)
    ensures p.1 in Live(places, list)
  {
    assert list[|list| - 1] in list;
  }

  lemma FirstVersion()
    ensures ObjectsOk(map[], map[], [VersionObject(0, [], 1)], multiset{}, 0)
    ensures ListOk([VersionObject(0, [], 1)], multiset{} + multiset{}, 1)
    ensures Live(map[], [VersionObject(0, [], 1)]) == {}
  {
    assert Held([VersionObject(0, [], 1)]) == multiset{} + Held([VersionObject(0, [], 1)][1..]) == multiset{};
  }

  lemma ExtendsItself(places: map<nat, Place>)
    ensures Extends(places, places)
  {
  }

  lemma ExtendsFurther(a: map<nat, Place>, b: map<nat, Place>, o: nat, p: Place)
    requires Extends(a, b) && o !in b
    ensures Extends(a, b[o := p]) && Extends(b, b[o := p])
  {
  }

  lemma ObjectPlaced(
      refs: map<nat, nat>, places: map<nat, Place>, list: seq<VersionObject>, inHand: multiset<nat>, next: nat,
      p: Place)
    requires ObjectsOk(refs, places, list, inHand, next)
    ensures ObjectsOk(refs, places[next := p], list, inHand, next + 1) && next !in places
  {
  }

  lemma BuilderCounted(
      refs: map<nat, nat>, places: map<nat, Place>, list: seq<VersionObject>, ids: seq<nat>, files: seq<nat>, next: nat)
    requires ObjectsOk(refs, places, list, multiset(ids) + multiset(files), next)
    ensures Counted(refs, multiset(ids) + (Held(list) + multiset(files)))
    ensures refs.Keys <= places.Keys && forall o :: o in places ==> o < next
  {
    hide Counted, Held;
    assert Held(list) + (multiset(ids) + multiset(files)) == multiset(ids) + (Held(list) + multiset(files));
  }

  lemma HeldIsPlaced(
      refs: map<nat, nat>, places: map<nat, Place>, list: seq<VersionObject>, inHand: multiset<nat>, next: nat)
    requires ObjectsOk(refs, places, list, inHand, next)
    ensures forall o :: o in Held(list) ==> o in places
  {
    forall o | o in Held(list) ensures o in places {
      assert o in Held(list) + inHand;
    }
  }

  lemma CurrentIsHeld(list: seq<VersionObject>)
    requires list != []
    ensures forall o :: o in list[|list| - 1].files ==> o in Held(list)
  {
    forall o | o in list[|list| - 1].files ensures o in Held(list) {
      ListedIsHeld(list, list[|list| - 1], o);
    }
  }

  // The current version makes room for the next one.
  lemma VersionReplaced(
      refs: map<nat, nat>, places: map<nat, Place>, list: seq<VersionObject>, files: seq<nat>, nextObject: nat,
      holders: multiset<nat>, next: nat)
    requires ObjectsOk(refs, places, list, multiset(files), nextObject) && ListOk(list, holders, next) && list != []
    ensures list[|list| - 1].refs > 0
    ensures var v := list[|list| - 1].(refs := list[|list| - 1].refs - 1);
            var now :=
                (if v.refs > 0 then list[|list| - 1 := v] else list[..|list| - 1]) + [VersionObject(next, files, 1)];
            && ListOk(now, holders, next + 1) && Shown(now) <= Shown(list) + {(next, files)}
            && (if v.refs > 0 then ObjectsOk(refs, places, now, multiset{}, nextObject)
                else Counted(refs, multiset(v.files) + (Held(now) + multiset{})))
  {
    hide Counted, ListOk, Held, Shown;
    ListReplaced(list, files, holders, next);
    HeldReplaced(list, VersionObject(next, files, 1));
    var v := list[|list| - 1].(refs := list[|list| - 1].refs - 1);
    var now := list[..|list| - 1] + [VersionObject(next, files, 1)];
    assert Held(list[|list| - 1 := v] + [VersionObject(next, files, 1)]) + multiset{} == Held(list) + multiset(files);
    assert multiset(v.files) + (Held(now) + multiset{}) == Held(list) + multiset(files);
  }

  lemma StillCurrent(places: map<nat, Place>, was: seq<VersionObject>, now: seq<VersionObject>)
    requires Remaining(was, now)
    ensures was != [] && now != [] && now[|now| - 1].files == was[|was| - 1].files
    ensures Live(places, now) <= Live(places, was)
  {
    LiveShrinks(places, was, now);
  }

  lemma LiveShrinks(places: map<nat, Place>, was: seq<VersionObject>, now: seq<VersionObject>)
    requires Remaining(was, now)
    ensures Live(places, now) <= Live(places, was)
  {
    forall n | n in Live(places, now) ensures n in Live(places, was) {
      var v, o :| v in now && o in v.files && o in places && places[o].1 == n;
      assert (v.id, v.files) in Shown(now);
      var u :| u in was && u.id == v.id && u.files == v.files;
    }
  }

  lemma NothingLive(places: map<nat, Place>)
    ensures Live(places, []) == {}
  {
  }

  lemma LiveOneMore(places: map<nat, Place>, list: seq<VersionObject>, v: VersionObject)
    ensures Live(places, list + [v]) == Live(places, list) + set o | o in v.files && o in places :: places[o].1
  {
    var more := list + [v];
    forall n | n in Live(places, list) ensures n in Live(places, more) {
      var u, o :| u in list && o in u.files && o in places && places[o].1 == n;
      assert u in more;
    }
    assert v in more;
  }
}
