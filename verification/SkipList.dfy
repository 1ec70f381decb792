/** The skip list under the memtable (db/skiplist.h): one writer, and readers that go on while it
    inserts.  Stores of links are atomic steps; between any two of them the list is as readers need it. */
module SkipList {
  import opened Dbformat

  const MAX_HEIGHT: nat := 12

  // Keys by their rank in the comparator's order.
  type Key = real

  class Node {
    const key: Key
    const next: array<Node?>

    constructor (k: Key, height: nat)
      ensures key == k && next.Length == height && fresh(next) && forall i :: 0 <= i < height ==> next[i] == null
    {
      key := k;
      next := new Node?[height](_ => null);
    }
  }

  // ---------- One level ----------

  // The nodes of a level in key order, after the head, whose key does not count.
  ghost predicate Ascends(list: seq<Node>) {
    forall i, j :: 0 < i < j < |list| ==> list[i].key < list[j].key
  }

  // Every node of the list points to the next at this level, the last one to none.
  ghost predicate LinkedAt(list: seq<Node>, level: nat)
    reads set n | n in list :: n.next
  {
    forall i :: 0 <= i < |list| ==>
      && list[i].next.Length > level
      && (i + 1 < |list| ==> list[i].next[level] == list[i + 1])
      && (i + 1 == |list| ==> list[i].next[level] == null)
  }

  // The position of the last node before key: the head, or a node with a smaller key.
  ghost predicate IsLastBefore(list: seq<Node>, i: nat, key: Key) {
    && i < |list|
    && (i > 0 ==> list[i].key < key)
    && (i + 1 < |list| ==> key <= list[i + 1].key)
  }

  ghost predicate IsPrev(list: seq<Node>, p: Node, key: Key) {
    exists i: nat :: IsLastBefore(list, i, key) && list[i] == p
  }

  // r is what comes after position i.
  ghost predicate IsAfter(list: seq<Node>, i: nat, r: Node?)
    requires i < |list|
  {
    if i + 1 < |list| then r == list[i + 1] else r == null
  }

  // r is the first node at or after key; none if there is no such node.
  ghost predicate IsFirstFrom(list: seq<Node>, r: Node?, key: Key) {
    exists i: nat :: IsLastBefore(list, i, key) && IsAfter(list, i, r)
  }

  class SkipList {
    const head: Node
    var maxHeight: nat
    ghost var lists: seq<seq<Node>>  // the nodes of every level, head first
    ghost var nodes: set<Node>

    ghost predicate Valid()
      reads this, nodes, set n | n in nodes :: n.next
    {
      && 1 <= maxHeight <= MAX_HEIGHT && |lists| == MAX_HEIGHT
      && head in nodes
      && (forall n, m :: n in nodes && m in nodes && n != m ==> n.next != m.next)
      && (forall l :: 0 <= l < MAX_HEIGHT ==> LevelOk(l))
      && (forall l: nat {:trigger BelowHas(l)} :: l + 1 < MAX_HEIGHT ==> BelowHas(l))
      && forall l :: maxHeight <= l < MAX_HEIGHT ==> lists[l] == [head]
    }

    // The level above l is a sublist of level l.
    ghost predicate BelowHas(l: nat)
      requires l + 1 < |lists|
      reads `lists
    {
      forall n :: n in lists[l + 1] ==> n in lists[l]
    }

    ghost predicate LevelOk(l: nat)
      requires l < |lists|
      reads `lists, `nodes, nodes, set n | n in nodes :: n.next
    {
      var list := lists[l];
      && |list| > 0 && list[0] == head
      && (forall i :: 0 < i < |list| ==> list[i] != head)
      && (forall n :: n in list ==> n in nodes)
      && Ascends(list) && LinkedAt(list, l)
    }

    constructor ()
      ensures Valid() && Keys() == {} && fresh(nodes) && fresh(set n | n in nodes :: n.next)
    {
      var h := new Node(0.0, MAX_HEIGHT);
      head := h;
      maxHeight := 1;
      lists := seq(MAX_HEIGHT, _ => [h]);
      nodes := {h};
    }

    // The keys in the list.
    ghost function Keys(): set<Key>
      requires |lists| == MAX_HEIGHT
      reads this
    {
      set i | 0 < i < |lists[0]| :: lists[0][i].key
    }

    // ---------- Searching ----------

    // Where a search for key may be, whatever is inserted while it is under way.
    ghost predicate Searching(x: Node, level: nat, key: Key)
      requires |lists| == MAX_HEIGHT
      reads this
    {
      level < MAX_HEIGHT && x in lists[level] && (x == head || x.key < key)
    }

    // One step of a search: reads one link, and moves on, or down, or ends.
    method SearchStep(x: Node, level: nat, key: Key, ghost i: nat)
      returns (x': Node, level': nat, done: bool, r: Node?, ghost i': nat)
      requires Valid() && level < MAX_HEIGHT && i < |lists[level]| && lists[level][i] == x && (i > 0 ==> x.key < key)
      ensures level' < MAX_HEIGHT && i' < |lists[level']| && lists[level'][i'] == x' && (i' > 0 ==> x'.key < key)
      ensures !done ==> (level' == level && i' == i + 1) || (level' + 1 == level && x' == x)
      ensures !done ==> Searching(x', level', key)
      ensures level' < level || done ==> IsLastBefore(lists[level], i, key)
      ensures done ==> level == 0 && IsFirstFrom(lists[0], r, key)
    {
      assert LevelOk(level);
      var next := x.next[level];
      if next != null && next.key < key {
        // keep searching in this list
        x', level', done, r, i' := next, level, false, null, i + 1;
      } else if level == 0 {
        x', level', done, r, i' := x, level, true, next, i;
        assert IsLastBefore(lists[0], i, key) && IsAfter(lists[0], i, next);
      } else {
        // switch to next list
        x', level', done, r := x, level - 1, false, null;
        assert BelowHas(level - 1) && x in lists[level - 1];
        i' :| 0 <= i' < |lists[level - 1]| && lists[level - 1][i'] == x;
        assert LevelOk(level - 1);
      }
    }

    // A search under way may take its next step, after any insertions.
    lemma SearchGoesOn(x: Node, level: nat, key: Key) returns (i: nat)
      requires Valid() && Searching(x, level, key)
      ensures i < |lists[level]| && lists[level][i] == x && (i > 0 ==> x.key < key)
    {
      assert LevelOk(level);
      i :| 0 <= i < |lists[level]| && lists[level][i] == x;
    }

    // Levels only grow: no insertion stops a search.
    twostate lemma SearchStays(x: Node, level: nat, key: Key)
      requires |old(lists)| == |lists| == MAX_HEIGHT && old(Searching(x, level, key))
      requires forall n :: n in old(lists[level]) ==> n in lists[level]
      ensures Searching(x, level, key)
    {
    }

    // What a search ends with is never past a key at or after the one searched for that is in the list; as
    // keys are never removed, not past one that was there when the search began.
    lemma NeverPast(key: Key, r: Node?, k: Key)
      requires Valid() && IsFirstFrom(lists[0], r, key) && k in Keys() && key <= k
      ensures r != null && key <= r.key <= k && r.key in Keys()
    {
      assert LevelOk(0);
      var list := lists[0];
      var i: nat :| IsLastBefore(list, i, key) && IsAfter(list, i, r);
      var j :| 0 < j < |list| && list[j].key == k;
      assert j > i + 1 ==> list[i + 1].key < list[j].key;
    }

    method FindGreaterOrEqual(key: Key) returns (r: Node?, prev: seq<Node>)
      requires Valid()
      ensures IsFirstFrom(lists[0], r, key)
      ensures |prev| == MAX_HEIGHT && forall l :: 0 <= l < maxHeight ==> IsPrev(lists[l], prev[l], key)
    {
      hide LinkedAt, Ascends, IsFirstFrom;
      prev := seq(MAX_HEIGHT, _ => head);
      var x, level: nat := head, maxHeight - 1;
      ghost var i: nat := 0;
      assert LevelOk(level);
      while true
        invariant Valid() && |prev| == MAX_HEIGHT && 0 <= level < maxHeight && i < |lists[level]|
        invariant lists[level][i] == x && (i > 0 ==> x.key < key)
        invariant forall l :: level < l < maxHeight ==> IsPrev(lists[l], prev[l], key)
        decreases level, |lists[level]| - i
      {
        ghost var i0 := i;
        var x', level', done;
        ghost var i';
        x', level', done, r, i' := SearchStep(x, level, key, i);
        if done || level' < level {
          prev := prev[level := x];
          assert IsPrev(lists[level], x, key);
        }
        if done {
          return;
        }
        x, level, i := x', level', i';
      }
    }

    // The last node before key, or the head.
    method FindLessThan(key: Key) returns (x: Node)
      requires Valid()
      ensures IsPrev(lists[0], x, key)
    {
      hide LinkedAt, Ascends, IsFirstFrom;
      var level: nat := maxHeight - 1;
      x := head;
      ghost var i: nat := 0;
      assert LevelOk(level);
      while true
        invariant Valid() && 0 <= level < maxHeight && i < |lists[level]| && lists[level][i] == x
        invariant i > 0 ==> x.key < key
        decreases level, |lists[level]| - i
      {
        var x', level', done, r;
        ghost var i';
        x', level', done, r, i' := SearchStep(x, level, key, i);
        if done {
          assert IsLastBefore(lists[0], i, key) && lists[0][i] == x;
          return;
        }
        x, level, i := x', level', i';
      }
    }

    // The last node of the list, or the head.
    method FindLast() returns (x: Node)
      requires Valid()
      ensures |lists[0]| > 0 && x == lists[0][|lists[0]| - 1]
    {
      var level: nat := maxHeight - 1;
      x := head;
      ghost var i: nat := 0;
      assert LevelOk(level);
      while true
        invariant Valid() && 0 <= level < maxHeight && i < |lists[level]| && lists[level][i] == x
        decreases level, |lists[level]| - i
      {
        assert LevelOk(level);
        ghost var list := lists[level];
        assert i + 1 < |list| ==> list[i + 1] in list;
        var next := x.next[level];
        assert i + 1 < |list| ==> list[i].next[level] == list[i + 1] && list[i + 1] is Node;
        if next == null {
          if level == 0 {
            return;
          }
          assert BelowHas(level - 1) && lists[level][i] in lists[level];
          level := level - 1;
          assert x in lists[level];
          i :| 0 <= i < |lists[level]| && lists[level][i] == x;
        } else {
          x := next;
          i := i + 1;
        }
      }
    }

    method Contains(key: Key) returns (b: bool)
      requires Valid()
      ensures b <==> key in Keys()
    {
      var x, prev := FindGreaterOrEqual(key);
      b := x != null && x.key == key;
      FirstFromDecides(key, x);
    }

    lemma FirstFromDecides(key: Key, r: Node?)
      requires Valid() && IsFirstFrom(lists[0], r, key)
      ensures key in Keys() <==> r != null && r.key == key
    {
      assert LevelOk(0);
      var list := lists[0];
      var i: nat :| IsLastBefore(list, i, key) && IsAfter(list, i, r);
      forall j | 0 < j < |list|
        ensures j <= i ==> list[j].key < key
        ensures j > i + 1 ==> list[j].key > key
      {
        assert j < i ==> list[j].key < list[i].key;
        assert j > i + 1 ==> list[i + 1].key < list[j].key;
      }
    }

    // ---------- Inserting ----------

    // The first store: x gets the successor of p.  x is not in this level, so no reader can see it.
    method Prepare(x: Node, level: nat, p: Node)
      requires Valid() && level < MAX_HEIGHT && x in nodes && level < x.next.Length
      requires x !in lists[level] && p in lists[level]
      modifies x.next
      ensures Valid() && p.next.Length > level && x.next[level] == p.next[level]
      ensures forall l :: 0 <= l < x.next.Length && l != level ==> x.next[l] == old(x.next[l])
    {
      assert LevelOk(level);
      x.next[level] := p.next[level];
      forall l: nat | l < MAX_HEIGHT ensures LevelOk(l) {
        assert old(LevelOk(l));
        forall j | 0 <= j < |lists[l]|
          ensures lists[l][j].next.Length > l && lists[l][j].next[l] == old(lists[l][j].next[l])
        {
          assert lists[l][j] in lists[l];
        }
      }
    }

    // The second store: p's link now leads to x, which publishes it in this level.
    method Publish(x: Node, level: nat, p: Node, ghost i: nat)
      requires Valid() && level < maxHeight && x in nodes && x != head && level < x.next.Length
      requires x !in lists[level] && (level > 0 ==> x in lists[level - 1])
      requires IsLastBefore(lists[level], i, x.key) && lists[level][i] == p
      requires p.next.Length > level && x.next[level] == p.next[level]
      requires forall j :: 0 < j < |lists[level]| ==> lists[level][j].key != x.key
      modifies this`lists, p.next
      ensures Valid() && lists == old(lists)[level := Inserted(old(lists[level]), i, x)]
    {
      hide Ascends, IsLastBefore, Inserted;
      ghost var list := lists[level];
      LevelFacts(level);
      InRange(list, i, x.key);
      ListsAreOnce(list, head);
      InsertedHas(list, i, x);
      p.next[level] := x;
      LevelGrows(list, level, i, x);
      InsertedAscends(list, i, x);
      forall l: nat | l < MAX_HEIGHT && l != level ensures LevelOk(l) {
        assert old(LevelOk(l));
        forall j | 0 <= j < |lists[l]|
          ensures lists[l][j].next.Length > l && lists[l][j].next[l] == old(lists[l][j].next[l])
        {
          assert lists[l][j] in lists[l];
        }
      }
      PutInLevel(list, level, i, x);
    }

    lemma LevelFacts(l: nat)
      requires Valid() && l < MAX_HEIGHT
      ensures var list := lists[l];
              && |list| > 0 && list[0] == head && (forall i :: 0 < i < |list| ==> list[i] != head)
              && (forall n :: n in list ==> n in nodes) && Ascends(list) && LinkedAt(list, l)
    {
      assert LevelOk(l);
    }

    // Inserts a key that is not in the list, level by level from the bottom.
    method Insert(key: Key, height: nat)
      requires Valid() && key !in Keys() && 1 <= height <= MAX_HEIGHT
      modifies this, set n | n in nodes :: n.next
      ensures Valid() && Keys() == old(Keys()) + {key}
      ensures forall l, n :: 0 <= l < MAX_HEIGHT && n in old(lists[l]) ==> n in lists[l]
    {
      hide Ascends, LinkedAt, IsLastBefore, Inserted, LevelOk, BelowHas, IsFirstFrom, IsPrev;
      var r: Node?, prev: seq<Node>;
      r, prev := FindGreaterOrEqual(key);
      KeyIsNew(key);
      for i := maxHeight to MAX_HEIGHT
        invariant Valid() && |prev| == MAX_HEIGHT && maxHeight == old(maxHeight) && lists == old(lists)
        invariant nodes == old(nodes)
        invariant forall l :: 0 <= l < i ==> IsPrev(lists[l], prev[l], key)
      {
        prev := prev[i := head];
        HeadIsPrev(head, key);
      }
      if height > maxHeight {
        maxHeight := height;
        assert Valid();
      }
      var x := new Node(key, height);
      LinkAll(x, prev);
    }

    method LinkAll(x: Node, prev: seq<Node>)
      requires Valid() && x !in nodes && 1 <= x.next.Length <= maxHeight
      requires forall n :: n in nodes ==> n.next != x.next
      requires |prev| == MAX_HEIGHT && forall l :: 0 <= l < x.next.Length ==> IsPrev(lists[l], prev[l], x.key)
      requires forall l, j :: 0 <= l < MAX_HEIGHT && 0 < j < |lists[l]| ==> lists[l][j].key != x.key
      modifies this, x.next, set n | n in nodes :: n.next
      ensures Valid() && Keys() == old(Keys()) + {x.key}
      ensures forall l, n :: 0 <= l < MAX_HEIGHT && n in old(lists[l]) ==> n in lists[l]
    {
      hide Ascends, LinkedAt, IsLastBefore, Inserted, LevelOk, BelowHas, IsFirstFrom, IsPrev;
      var height := x.next.Length;
      ghost var lists0, nodes0 := lists, nodes;
      ListsInNodes();
      AddNode(x);
      for i := 0 to height
        invariant Valid() && height <= maxHeight && nodes == nodes0 + {x}
        invariant forall l :: i <= l < MAX_HEIGHT ==> lists[l] == lists0[l]
        invariant forall l, n :: 0 <= l < i ==> (n in lists[l] <==> n in lists0[l] || n == x)
        invariant i > 0 ==> Keys() == old(Keys()) + {x.key}
      {
        ghost var j := PositionOf(i, prev[i], x.key);
        Prepare(x, i, prev[i]);
        Publish(x, i, prev[i], j);
        InsertedHas(lists0[i], j, x);
        if i == 0 {
          KeysInserted(lists0[0], j, x);
        }
      }
    }

    lemma ListsInNodes()
      requires Valid()
      ensures forall l, n :: 0 <= l < MAX_HEIGHT && n in lists[l] ==> n in nodes
    {
      hide Ascends, LinkedAt;
      forall l, n | 0 <= l < MAX_HEIGHT && n in lists[l] ensures n in nodes {
        assert LevelOk(l);
      }
    }

    lemma PositionOf(l: nat, p: Node, key: Key) returns (i: nat)
      requires Valid() && l < MAX_HEIGHT && IsPrev(lists[l], p, key)
      ensures IsLastBefore(lists[l], i, key) && i < |lists[l]| && lists[l][i] == p && p in lists[l] && p in nodes
      ensures p.next.Length > l
    {
      i :| IsLastBefore(lists[l], i, key) && lists[l][i] == p;
      assert LevelOk(l);
    }

    ghost method AddNode(x: Node)
      requires Valid() && x !in nodes && forall n :: n in nodes ==> n.next != x.next
      modifies `nodes
      ensures Valid() && nodes == old(nodes) + {x} && x != head
    {
      nodes := nodes + {x};
      forall l: nat | l < MAX_HEIGHT ensures LevelOk(l) {
        assert old(LevelOk(l));
      }
      forall l: nat | l + 1 < MAX_HEIGHT ensures BelowHas(l) {
        assert old(BelowHas(l));
      }
    }

    // Every level is a sublist of the bottom one.
    lemma {:induction false} InBottom(l: nat, n: Node)
      requires Valid() && l < MAX_HEIGHT && n in lists[l]
      ensures n in lists[0]
    {
      if l > 0 {
        assert BelowHas(l - 1);
        InBottom(l - 1, n);
      }
    }

    lemma KeyIsNew(key: Key)
      requires Valid() && key !in Keys()
      ensures forall l, j :: 0 <= l < MAX_HEIGHT && 0 < j < |lists[l]| ==> lists[l][j].key != key
    {
      hide Ascends, LinkedAt;
      forall l, j | 0 <= l < MAX_HEIGHT && 0 < j < |lists[l]| ensures lists[l][j].key != key {
        assert LevelOk(l) && LevelOk(0);
        var n := lists[l][j];
        assert n in lists[l] && n != head;
        InBottom(l, n);
        var k :| 0 <= k < |lists[0]| && lists[0][k] == n;
        assert k > 0 && lists[0][k].key in Keys();
      }
    }

    // With its nodes linked, the level can be taken to have x in it.
    ghost method PutInLevel(list: seq<Node>, level: nat, i: nat, x: Node)
      requires |lists| == MAX_HEIGHT && level < maxHeight <= MAX_HEIGHT && lists[level] == list && i < |list|
      requires x in nodes && head in nodes
      requires forall n, m :: n in nodes && m in nodes && n != m ==> n.next != m.next
      requires forall l: nat :: l < MAX_HEIGHT && l != level ==> LevelOk(l)
      requires forall l: nat {:trigger BelowHas(l)} :: l + 1 < MAX_HEIGHT ==> BelowHas(l)
      requires forall l :: maxHeight <= l < MAX_HEIGHT ==> lists[l] == [head]
      requires |list| > 0 && list[0] == head && x != head && (forall j :: 0 < j < |list| ==> list[j] != head)
      requires (forall n :: n in list ==> n in nodes) && (level > 0 ==> x in lists[level - 1])
      requires Ascends(Inserted(list, i, x)) && LinkedAt(Inserted(list, i, x), level)
      modifies `lists
      ensures Valid() && lists == old(lists)[level := Inserted(list, i, x)]
    {
      hide Ascends, Inserted, LinkedAt;
      InsertedHas(list, i, x);
      lists := lists[level := Inserted(list, i, x)];
      forall l: nat | l < MAX_HEIGHT ensures LevelOk(l) {
        assert l != level ==> old(LevelOk(l));
      }
      forall l: nat | l + 1 < MAX_HEIGHT ensures BelowHas(l) {
        assert old(BelowHas(l));
      }
    }
  }

  // All nodes but number i point to the next.
  ghost predicate LinkedBut(list: seq<Node>, level: nat, i: nat)
    reads set n | n in list :: n.next
  {
    forall j :: 0 <= j < |list| ==>
      && list[j].next.Length > level
      && (j != i ==>
            && (j + 1 < |list| ==> list[j].next[level] == list[j + 1])
            && (j + 1 == |list| ==> list[j].next[level] == null))
  }

  lemma LevelGrows(list: seq<Node>, level: nat, i: nat, x: Node)
    requires i < |list| && level < x.next.Length && LinkedBut(list, level, i)
    requires list[i].next[level] == x
    requires (i + 1 < |list| ==> x.next[level] == list[i + 1]) && (i + 1 == |list| ==> x.next[level] == null)
    ensures LinkedAt(Inserted(list, i, x), level)
  {
    var r := Inserted(list, i, x);
    forall j | 0 <= j < |r|
      ensures r[j].next.Length > level
      ensures j + 1 < |r| ==> r[j].next[level] == r[j + 1]
      ensures j + 1 == |r| ==> r[j].next[level] == null
    {
      NewLinks(list, i, x, j);
      if j < |list| {
        NewLinks(list, i, x, j + 1);
      }
    }
  }

  lemma NewLinks(list: seq<Node>, i: nat, x: Node, j: nat)
    requires i < |list| && j <= |list|
    ensures |Inserted(list, i, x)| == |list| + 1
    ensures Inserted(list, i, x)[j] == if j <= i then list[j] else if j == i + 1 then x else list[j - 1]
  {
  }

  lemma InsertedAscends(list: seq<Node>, i: nat, x: Node)
    requires Ascends(list) && IsLastBefore(list, i, x.key) && forall j :: 0 < j < |list| ==> list[j].key != x.key
    ensures Ascends(Inserted(list, i, x))
  {
    var r := Inserted(list, i, x);
    forall j | 0 < j < |list| ensures j <= i ==> list[j].key < x.key
      ensures j > i ==> x.key < list[j].key
    {
      assert j < i ==> list[j].key < list[i].key;
      assert j > i + 1 ==> list[i + 1].key < list[j].key;
    }
    forall a, b | 0 < a < b < |r| ensures r[a].key < r[b].key {
    }
  }

  lemma ListsAreOnce(list: seq<Node>, head: Node)
    requires Ascends(list) && |list| > 0 && list[0] == head && forall i :: 0 < i < |list| ==> list[i] != head
    ensures forall j, k :: 0 <= j < k < |list| ==> list[j] != list[k]
  {
    forall j, k | 0 <= j < k < |list| ensures list[j] != list[k] {
      assert j > 0 ==> list[j].key < list[k].key;
    }
  }

  lemma HeadIsPrev(head: Node, key: Key)
    ensures IsPrev([head], head, key)
  {
    assert IsLastBefore([head], 0, key);
  }

  lemma KeysInserted(list: seq<Node>, i: nat, x: Node)
    requires i < |list|
    ensures var r := Inserted(list, i, x);
            (set j | 0 < j < |r| :: r[j].key) == (set j | 0 < j < |list| :: list[j].key) + {x.key}
  {
    var r := Inserted(list, i, x);
    forall j | 0 < j < |list| ensures exists k :: 0 < k < |r| && r[k].key == list[j].key {
      NewLinks(list, i, x, if j <= i then j else j + 1);
    }
    NewLinks(list, i, x, i + 1);
    forall j | 0 < j < |r| ensures r[j] == x || exists k :: 0 < k < |list| && r[j] == list[k] {
      InsertedHas(list, i, x);
    }
  }

  lemma InRange(list: seq<Node>, i: nat, key: Key)
    requires IsLastBefore(list, i, key)
    ensures i < |list|
  {
  }

  lemma InsertedHas(list: seq<Node>, i: nat, x: Node)
    requires i < |list|
    ensures forall n :: n in Inserted(list, i, x) <==> n in list || n == x
    ensures |Inserted(list, i, x)| == |list| + 1 && Inserted(list, i, x)[0] == list[0]
    ensures forall j :: 0 < j <= |list| ==> Inserted(list, i, x)[j] == x || exists k ::
              0 < k < |list| && Inserted(list, i, x)[j] == list[k]
  {
    assert list == list[..i + 1] + list[i + 1..];
    forall j | 0 < j <= |list|
      ensures Inserted(list, i, x)[j] == x || exists k :: 0 < k < |list| && Inserted(list, i, x)[j] == list[k]
    {
      if j <= i {
        assert Inserted(list, i, x)[j] == list[j];
      } else if j > i + 1 {
        assert Inserted(list, i, x)[j] == list[j - 1];
      }
    }
  }

  ghost function Inserted(list: seq<Node>, i: nat, x: Node): seq<Node>
    requires i < |list|
  {
    list[..i + 1] + [x] + list[i + 1..]
  }
}
