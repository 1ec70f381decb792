/** MergingIterator (table/merger.cc): one cursor over several sorted children. */
module Merger {
  import opened Dbformat

  // A child iterator: a position in a sorted list, where |entries| stands for "not valid".
  datatype Cursor = Cursor(entries: seq<Entry>, pos: nat) {
    predicate Valid() { pos < |entries| }
    function Key(): InternalKey requires Valid() { entries[pos].key }
    function SeekToFirst(): Cursor { this.(pos := 0) }
    function SeekToLast(): Cursor { this.(pos := if entries == [] then 0 else |entries| - 1) }
    function Seek(target: InternalKey): Cursor { this.(pos := Dbformat.Seek(entries, target)) }
    function Next(): Cursor requires Valid() { this.(pos := pos + 1) }
    function NextIfAt(key: InternalKey): Cursor { if Valid() && Key() == key then Next() else this }
    function Prev(): Cursor requires Valid() { this.(pos := if pos == 0 then |entries| else pos - 1) }
  }

  // `merged` is the sorted merge of the lists, whose internal keys are pairwise distinct.
  ghost predicate IsMerge(merged: seq<Entry>, lists: seq<seq<Entry>>) {
    && Sorted(merged)
    && (forall i :: 0 <= i < |lists| ==> Sorted(lists[i]))
    && (forall e :: e in merged <==> exists i :: 0 <= i < |lists| && e in lists[i])
    && forall i, j, e, x ::
         0 <= i < |lists| && 0 <= j < |lists| && i != j && e in lists[i] && x in lists[j] ==> e.key != x.key
  }

  // ---------- Positions ----------

  ghost function Index(merged: seq<Entry>, e: Entry): (r: nat)
    requires e in merged
    ensures r < |merged| && merged[r] == e
  {
    var r :| 0 <= r < |merged| && merged[r] == e;
    r
  }

  lemma OrderIsIndexOrder(es: seq<Entry>, i: nat, j: nat)
    requires Sorted(es) && i < |es| && j < |es|
    ensures es[i].key.Before(es[j].key) <==> i < j
    ensures es[i] == es[j] ==> i == j
  {
    hide InternalKey.Before;
    BeforeIsTotal(es[i].key, es[j].key, es[i].key);
  }

  lemma SeekSplits(es: seq<Entry>, target: InternalKey, j: nat)
    requires Sorted(es) && j < |es|
    ensures es[j].key.Before(target) <==> j < Dbformat.Seek(es, target)
  {
    hide InternalKey.Before;
    var n := Dbformat.Seek(es, target);
    if n < j {
      BeforeIsTotal(es[n].key, es[j].key, target);
      OrderIsIndexOrder(es, n, j);
    }
  }

  // Every entry of es is one of merged.
  ghost predicate Sublist(es: seq<Entry>, merged: seq<Entry>) {
    && Sorted(es) && Sorted(merged)
    && forall j :: 0 <= j < |es| ==> es[j] in merged
  }

  // Exactly the first n entries of es are among the first q of merged.
  ghost predicate CountBefore(es: seq<Entry>, merged: seq<Entry>, q: nat, n: nat) {
    && n <= |es|
    && Sublist(es, merged)
    && forall j :: 0 <= j < |es| ==> (j < n <==> Index(merged, es[j]) < q)
  }

  // The child stands on its first entry at or after merged[q].
  ghost predicate StandsAt(c: Cursor, merged: seq<Entry>, q: nat) {
    CountBefore(c.entries, merged, q, c.pos)
  }

  // The child stands on its last entry before merged[q].
  ghost predicate StandsBefore(c: Cursor, merged: seq<Entry>, q: nat) {
    if c.Valid() then CountBefore(c.entries, merged, q, c.pos + 1)
    else c.pos == |c.entries| && CountBefore(c.entries, merged, q, 0)
  }

  ghost predicate AllStandAt(children: seq<Cursor>, merged: seq<Entry>, q: nat) {
    forall i {:trigger StandsAt(children[i], merged, q)} :: 0 <= i < |children| ==> StandsAt(children[i], merged, q)
  }

  ghost predicate AllStandBefore(children: seq<Cursor>, merged: seq<Entry>, q: nat) {
    forall i {:trigger StandsBefore(children[i], merged, q)} ::
        0 <= i < |children| ==> StandsBefore(children[i], merged, q)
  }

  ghost predicate OverLists(children: seq<Cursor>, lists: seq<seq<Entry>>) {
    && |children| == |lists|
    && forall i :: 0 <= i < |children| ==> children[i].entries == lists[i] && children[i].pos <= |lists[i]|
  }

  // Child c holds merged[p], and no other child has it.
  ghost predicate Holds(children: seq<Cursor>, c: nat, merged: seq<Entry>, p: nat) {
    && c < |children| && children[c].Valid() && p < |merged|
    && children[c].entries[children[c].pos] == merged[p]
  }

  lemma ChildIsSublist(merged: seq<Entry>, lists: seq<seq<Entry>>, i: nat)
    requires IsMerge(merged, lists) && i < |lists|
    ensures Sublist(lists[i], merged)
  {
  }

  lemma HeldByOneChild(merged: seq<Entry>, lists: seq<seq<Entry>>, i: nat, c: nat, q: nat)
    requires IsMerge(merged, lists) && i < |lists| && c < |lists| && i != c && q < |merged| && merged[q] in lists[c]
    ensures merged[q] !in lists[i]
    ensures forall e :: e in lists[i] ==> e.key != merged[q].key
  {
    assert forall e :: e in lists[i] ==> e.key != merged[q].key;
  }

  lemma IndexOf(es: seq<Entry>, merged: seq<Entry>, j: nat, q: nat)
    requires Sublist(es, merged) && j < |es| && q < |merged|
    ensures Index(merged, es[j]) == q <==> es[j] == merged[q]
  {
    OrderIsIndexOrder(merged, Index(merged, es[j]), q);
  }

  // ---------- Standing still and stepping ----------

  lemma FirstStands(es: seq<Entry>, merged: seq<Entry>)
    requires Sublist(es, merged)
    ensures CountBefore(es, merged, 0, 0)
    ensures CountBefore(es, merged, |merged|, |es|)
  {
  }

  lemma SeekStands(es: seq<Entry>, merged: seq<Entry>, target: InternalKey)
    requires Sublist(es, merged)
    ensures CountBefore(es, merged, Dbformat.Seek(merged, target), Dbformat.Seek(es, target))
  {
    forall j | 0 <= j < |es|
      ensures j < Dbformat.Seek(es, target) <==> Index(merged, es[j]) < Dbformat.Seek(merged, target)
    {
      SeekSplits(es, target, j);
      SeekSplits(merged, target, Index(merged, es[j]));
    }
  }

  lemma SeekHere(merged: seq<Entry>, q: nat)
    requires Sorted(merged) && q < |merged|
    ensures Dbformat.Seek(merged, merged[q].key) == q
  {
    hide InternalKey.Before;
    var i := Dbformat.Seek(merged, merged[q].key);
    SeekSplits(merged, merged[q].key, q);
    OrderIsIndexOrder(merged, q, q);
    OrderIsIndexOrder(merged, i, q);
  }

  // A child that holds merged[q] stands at q, and, seen from behind, before q + 1.
  lemma HolderStands(c: Cursor, merged: seq<Entry>, q: nat)
    requires Sublist(c.entries, merged) && q < |merged| && c.Valid() && c.entries[c.pos] == merged[q]
    ensures CountBefore(c.entries, merged, q, c.pos)
    ensures CountBefore(c.entries, merged, q + 1, c.pos + 1)
  {
    hide InternalKey.Before;
    forall j | 0 <= j < |c.entries|
      ensures j < c.pos <==> Index(merged, c.entries[j]) < q
      ensures j < c.pos + 1 <==> Index(merged, c.entries[j]) < q + 1
    {
      OrderIsIndexOrder(c.entries, j, c.pos);
      OrderIsIndexOrder(c.entries, c.pos, j);
      OrderIsIndexOrder(merged, Index(merged, c.entries[j]), q);
      OrderIsIndexOrder(merged, q, Index(merged, c.entries[j]));
    }
  }

  // A list without merged[q] has as many entries before q as before q + 1.
  lemma OtherStands(es: seq<Entry>, merged: seq<Entry>, q: nat, n: nat)
    requires Sublist(es, merged) && q < |merged| && merged[q] !in es
    ensures CountBefore(es, merged, q, n) <==> CountBefore(es, merged, q + 1, n)
  {
    forall j | 0 <= j < |es| ensures Index(merged, es[j]) != q {
      assert es[j] in es;
      IndexOf(es, merged, j, q);
    }
  }

  lemma AllStepForward(children: seq<Cursor>, merged: seq<Entry>, lists: seq<seq<Entry>>, q: nat, c: nat)
    requires IsMerge(merged, lists) && OverLists(children, lists) && Holds(children, c, merged, q)
    requires AllStandAt(children, merged, q)
    ensures var kids := children[c := children[c].Next()]; OverLists(kids, lists) && AllStandAt(kids, merged, q + 1)
  {
    hide InternalKey.Before, IsMerge;
    var kids := children[c := children[c].Next()];
    assert merged[q] in lists[c];
    forall i | 0 <= i < |kids| ensures StandsAt(kids[i], merged, q + 1) {
      ChildIsSublist(merged, lists, i);
      assert StandsAt(children[i], merged, q);
      if i == c {
        HolderStands(children[c], merged, q);
      } else {
        HeldByOneChild(merged, lists, i, c, q);
        OtherStands(lists[i], merged, q, children[i].pos);
      }
    }
  }

  lemma AllStepBackward(children: seq<Cursor>, merged: seq<Entry>, lists: seq<seq<Entry>>, q: nat, c: nat)
    requires IsMerge(merged, lists) && OverLists(children, lists) && Holds(children, c, merged, q)
    requires AllStandBefore(children, merged, q + 1)
    ensures var kids := children[c := children[c].Prev()]; OverLists(kids, lists) && AllStandBefore(kids, merged, q)
  {
    hide InternalKey.Before, IsMerge;
    var kids := children[c := children[c].Prev()];
    assert merged[q] in lists[c];
    forall i | 0 <= i < |kids| ensures StandsBefore(kids[i], merged, q) {
      ChildIsSublist(merged, lists, i);
      assert StandsBefore(children[i], merged, q + 1);
      if i == c {
        HolderStands(children[c], merged, q);
      } else {
        HeldByOneChild(merged, lists, i, c, q);
        OtherStands(lists[i], merged, q, if children[i].Valid() then children[i].pos + 1 else 0);
      }
    }
  }

  // Child i, sought to the key of merged[q] that child c holds, stands at its first later entry.
  lemma SeekPastKey(child: Cursor, merged: seq<Entry>, lists: seq<seq<Entry>>, i: nat, c: nat, q: nat)
    requires IsMerge(merged, lists) && i < |lists| && c < |lists| && i != c && q < |merged| && merged[q] in lists[c]
    requires child.entries == lists[i] && child.pos == Dbformat.Seek(lists[i], merged[q].key)
    ensures StandsAt(child.NextIfAt(merged[q].key), merged, q)
  {
    hide InternalKey.Before, IsMerge;
    ChildIsSublist(merged, lists, i);
    SeekStands(lists[i], merged, merged[q].key);
    SeekHere(merged, q);
    HeldByOneChild(merged, lists, i, c, q);
    assert child.Valid() ==> child.entries[child.pos] in lists[i];
  }

  // Child i, sought to that key and stepped back, stands at its last earlier entry.
  lemma SeekBeforeKey(child: Cursor, merged: seq<Entry>, lists: seq<seq<Entry>>, i: nat, c: nat, q: nat)
    requires IsMerge(merged, lists) && i < |lists| && c < |lists| && i != c && q < |merged| && merged[q] in lists[c]
    requires child.entries == lists[i] && child.pos == Dbformat.Seek(lists[i], merged[q].key)
    ensures StandsBefore(if child.Valid() then child.Prev() else child.SeekToLast(), merged, q + 1)
  {
    hide InternalKey.Before, IsMerge;
    ChildIsSublist(merged, lists, i);
    SeekStands(lists[i], merged, merged[q].key);
    SeekHere(merged, q);
    HeldByOneChild(merged, lists, i, c, q);
    OtherStands(lists[i], merged, q, child.pos);
  }

  // ---------- Choosing a child ----------

  // r is a child with the least key among the valid children, if there is one.
  ghost predicate IsSmallestChild(children: seq<Cursor>, r: Option<nat>) {
    match r
    case None => forall i :: 0 <= i < |children| ==> !children[i].Valid()
    case Some(c) =>
      && c < |children| && children[c].Valid()
      && forall i :: 0 <= i < |children| && children[i].Valid() ==> !children[i].Key().Before(children[c].Key())
  }

  ghost predicate IsLargestChild(children: seq<Cursor>, r: Option<nat>) {
    match r
    case None => forall i :: 0 <= i < |children| ==> !children[i].Valid()
    case Some(c) =>
      && c < |children| && children[c].Valid()
      && forall i :: 0 <= i < |children| && children[i].Valid() ==> !children[c].Key().Before(children[i].Key())
  }

  lemma HolderOf(merged: seq<Entry>, lists: seq<seq<Entry>>, q: nat) returns (c: nat, j: nat)
    requires IsMerge(merged, lists) && q < |merged|
    ensures c < |lists| && j < |lists[c]| && lists[c][j] == merged[q]
  {
    assert merged[q] in merged;
    c :| 0 <= c < |lists| && merged[q] in lists[c];
    j :| 0 <= j < |lists[c]| && lists[c][j] == merged[q];
  }

  // With every child on its first entry at or after merged[q], the smallest child is on merged[q].
  lemma SmallestIsNext(children: seq<Cursor>, merged: seq<Entry>, lists: seq<seq<Entry>>, q: nat, r: Option<nat>)
    requires IsMerge(merged, lists) && q <= |merged|
    requires OverLists(children, lists) && AllStandAt(children, merged, q)
    requires IsSmallestChild(children, r)
    ensures r.None? <==> q == |merged|
    ensures r.Some? ==> Holds(children, r.value, merged, q)
  {
    hide InternalKey.Before;
    hide IsMerge;
    if r.Some? {
      var k := children[r.value];
      assert StandsAt(k, merged, q);
      var t := Index(merged, k.entries[k.pos]);
      assert t >= q;
      if q < |merged| {
        OrderIsIndexOrder(merged, q, t);
      }
    }
    if q < |merged| {
      var c, j := HolderOf(merged, lists, q);
      var k := children[c];
      assert StandsAt(k, merged, q);
      OrderIsIndexOrder(merged, Index(merged, merged[q]), q);
      assert k.Valid() && k.pos <= j;
      var t := Index(merged, k.entries[k.pos]);
      OrderIsIndexOrder(merged, t, q);
      OrderIsIndexOrder(lists[c], k.pos, j);
      assert k.Key() == merged[q].key;
    }
  }

  // With every child on its last entry before merged[q], the largest child is on merged[q - 1].
  lemma LargestIsPrevious(children: seq<Cursor>, merged: seq<Entry>, lists: seq<seq<Entry>>, q: nat, r: Option<nat>)
    requires IsMerge(merged, lists) && q <= |merged|
    requires OverLists(children, lists) && AllStandBefore(children, merged, q)
    requires IsLargestChild(children, r)
    ensures r.None? <==> q == 0
    ensures r.Some? ==> Holds(children, r.value, merged, q - 1)
  {
    hide InternalKey.Before;
    hide IsMerge;
    if r.Some? {
      var k := children[r.value];
      assert StandsBefore(k, merged, q);
      var t := Index(merged, k.entries[k.pos]);
      assert t < q;
      OrderIsIndexOrder(merged, t, q - 1);
    }
    if q > 0 {
      var c, j := HolderOf(merged, lists, q - 1);
      var k := children[c];
      assert StandsBefore(k, merged, q);
      OrderIsIndexOrder(merged, Index(merged, merged[q - 1]), q - 1);
      assert k.Valid() && j <= k.pos;
      var t := Index(merged, k.entries[k.pos]);
      OrderIsIndexOrder(merged, q - 1, t);
      OrderIsIndexOrder(lists[c], j, k.pos);
      assert k.Key() == merged[q - 1].key;
    }
  }

  datatype Direction = Forward | Reverse

  class MergingIterator {
    var children: seq<Cursor>
    var current: Option<nat>  // the index of the child that holds the current entry
    var direction: Direction

    ghost const lists: seq<seq<Entry>>
    ghost const merged: seq<Entry>
    ghost var pos: nat  // the position in merged; |merged| when the iterator is not valid

    ghost predicate Valid()
      reads this
    {
      && IsMerge(merged, lists)
      && OverLists(children, lists)
      && pos <= |merged|
      && (current.None? <==> pos == |merged|)
      && (current.Some? ==>
            && Holds(children, current.value, merged, pos)
            && (direction.Forward? ==> AllStandAt(children, merged, pos))
            && (direction.Reverse? ==> AllStandBefore(children, merged, pos + 1)))
    }

    // What clients need to know of a valid iterator.
    lemma ValidFacts()
      requires Valid()
      ensures Sorted(merged) && pos <= |merged|
    {
    }

    constructor (kids: seq<seq<Entry>>, ghost merge: seq<Entry>)
      requires IsMerge(merge, kids)
      ensures Valid() && merged == merge && pos == |merged|
    {
      children := seq(|kids|, i requires 0 <= i < |kids| => Cursor(kids[i], |kids[i]|));
      current := None;
      direction := Forward;
      lists, merged := kids, merge;
      pos := |merge|;
    }

    predicate IsValid()
      requires Valid()
      reads this
      ensures IsValid() <==> pos < |merged|
    {
      current.Some?
    }

    function Current(): (e: Entry)
      requires Valid() && pos < |merged|
      reads this
      ensures e == merged[pos]
    {
      children[current.value].entries[children[current.value].pos]
    }

    // Makes the child with the smallest key current.
    method FindSmallest()
      modifies this`current
      ensures IsSmallestChild(children, current)
    {
      var smallest: Option<nat> := None;
      for i := 0 to |children|
        invariant IsSmallestChild(children[..i], smallest)
      {
        if children[i].Valid() {
          if smallest == None {
            smallest := Some(i);
          } else if children[i].Key().Before(children[smallest.value].Key()) {
            smallest := Some(i);
          }
        }
      }
      current := smallest;
      assert children[..|children|] == children;
    }

    // Makes the child with the largest key current.
    method FindLargest()
      modifies this`current
      ensures IsLargestChild(children, current)
    {
      var largest: Option<nat> := None;
      for i := |children| downto 0
        invariant match largest
                  case None => forall j :: i <= j < |children| ==> !children[j].Valid()
                  case Some(c) =>
                    && i <= c < |children| && children[c].Valid()
                    && forall j ::
                         i <= j < |children| && children[j].Valid() ==> !children[c].Key().Before(children[j].Key())
      {
        if children[i].Valid() {
          if largest == None {
            largest := Some(i);
          } else if children[largest.value].Key().Before(children[i].Key()) {
            largest := Some(i);
          }
        }
      }
      current := largest;
    }

    method SeekToFirst()
      requires Valid()
      modifies this
      ensures Valid() && pos == 0
    {
      hide InternalKey.Before, IsMerge, IsSmallestChild, IsLargestChild;
      for i := 0 to |children|
        invariant OverLists(children, lists)
        invariant forall j {:trigger StandsAt(children[j], merged, 0)} ::
                    0 <= j < i ==> StandsAt(children[j], merged, 0)
      {
        ChildIsSublist(merged, lists, i);
        FirstStands(lists[i], merged);
        children := children[i := children[i].SeekToFirst()];
      }
      direction := Forward;
      FindSmallest();
      SmallestIsNext(children, merged, lists, 0, current);
      pos := 0;
    }

    method SeekToLast()
      requires Valid()
      modifies this
      ensures Valid() && pos == if merged == [] then 0 else |merged| - 1
    {
      hide InternalKey.Before, IsMerge, IsSmallestChild, IsLargestChild;
      for i := 0 to |children|
        invariant OverLists(children, lists)
        invariant forall j {:trigger StandsBefore(children[j], merged, |merged|)}
                    :: 0 <= j < i ==> StandsBefore(children[j], merged, |merged|)
      {
        ChildIsSublist(merged, lists, i);
        FirstStands(lists[i], merged);
        children := children[i := children[i].SeekToLast()];
      }
      direction := Reverse;
      FindLargest();
      LargestIsPrevious(children, merged, lists, |merged|, current);
      pos := if merged == [] then 0 else |merged| - 1;
    }

    method Seek(target: InternalKey)
      requires Valid()
      modifies this
      ensures Valid() && pos == Dbformat.Seek(merged, target)
    {
      hide InternalKey.Before, IsMerge, IsSmallestChild, IsLargestChild;
      ghost var q := Dbformat.Seek(merged, target);
      for i := 0 to |children|
        invariant OverLists(children, lists)
        invariant forall j {:trigger StandsAt(children[j], merged, q)} ::
                    0 <= j < i ==> StandsAt(children[j], merged, q)
      {
        ChildIsSublist(merged, lists, i);
        SeekStands(lists[i], merged, target);
        children := children[i := children[i].Seek(target)];
      }
      direction := Forward;
      FindSmallest();
      SmallestIsNext(children, merged, lists, q, current);
      pos := q;
    }

    // Next()'s change of direction: positions every other child after the current entry.
    method TurnForward()
      requires Valid() && pos < |merged|
      modifies this`children, this`direction
      ensures Valid() && direction.Forward?
    {
      hide IsMerge;
      var c := current.value;
      var key := children[c].Key();
      for i := 0 to |children|
        invariant OverLists(children, lists)
        invariant children[c] == old(children)[c]
        invariant forall j {:trigger StandsAt(children[j], merged, pos)}
                    :: 0 <= j < i && j != c ==> StandsAt(children[j], merged, pos)
      {
        if i != c {
          var child := children[i].Seek(key);
          SeekPastKey(child, merged, lists, i, c, pos);
          children := children[i := child.NextIfAt(key)];
        }
      }
      ChildIsSublist(merged, lists, c);
      HolderStands(children[c], merged, pos);
      assert StandsAt(children[c], merged, pos);
      direction := Forward;
    }

    method Next()
      requires Valid() && pos < |merged|
      modifies this
      ensures Valid() && pos == old(pos) + 1
    {
      hide IsMerge, AllStandAt, AllStandBefore, IsSmallestChild, IsLargestChild;
      if direction != Forward {
        TurnForward();
      }
      var c := current.value;
      AllStepForward(children, merged, lists, pos, c);
      children := children[c := children[c].Next()];
      FindSmallest();
      SmallestIsNext(children, merged, lists, pos + 1, current);
      pos := pos + 1;
    }

    // Prev()'s change of direction: positions every other child before the current entry.
    method TurnBackward()
      requires Valid() && pos < |merged|
      modifies this`children, this`direction
      ensures Valid() && direction.Reverse?
    {
      hide IsMerge;
      var c := current.value;
      var key := children[c].Key();
      ghost var q := pos + 1;
      for i := 0 to |children|
        invariant OverLists(children, lists)
        invariant children[c] == old(children)[c]
        invariant forall j {:trigger StandsBefore(children[j], merged, q)}
                    :: 0 <= j < i && j != c ==> StandsBefore(children[j], merged, q)
      {
        if i != c {
          var child := children[i].Seek(key);
          SeekBeforeKey(child, merged, lists, i, c, pos);
          if child.Valid() {
            // on its first entry >= key: step back one
            child := child.Prev();
          } else {
            // no entry >= key
            child := child.SeekToLast();
          }
          assert StandsBefore(child, merged, q);
          children := children[i := child];
        }
      }
      ChildIsSublist(merged, lists, c);
      HolderStands(children[c], merged, pos);
      assert StandsBefore(children[c], merged, q);
      direction := Reverse;
    }

    method Prev()
      requires Valid() && pos < |merged|
      modifies this
      ensures Valid() && pos == if old(pos) == 0 then |merged| else old(pos) - 1
    {
      hide IsMerge, AllStandAt, AllStandBefore, IsSmallestChild, IsLargestChild;
      if direction != Reverse {
        TurnBackward();
      }
      var c := current.value;
      AllStepBackward(children, merged, lists, pos, c);
      children := children[c := children[c].Prev()];
      FindLargest();
      LargestIsPrevious(children, merged, lists, pos, current);
      pos := if pos == 0 then |merged| else pos - 1;
    }
  }
}
