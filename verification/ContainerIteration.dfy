/**
  The iterator over everything inside a container.  It keeps the containers whose contents are
  still to be shown in a queue and a position in the first of them.
 */
module ContainerIteration {
  import opened ContainerForest
  import opened Trees

  // ---------- what is below a container, as a tree ----------

  ghost function TreeOf(c: Item, S: set<Item>): Tree<Item>
    requires Structure(S) && c in S
    reads S
    decreases Deeper(c.level, S), 1, 0
  {
    assert forall x <- c.itemlist :: x in S && x.parent == c;
    Node(c, TreesOf(c.itemlist, c.level, S))
  }

  ghost function TreesOf(list: seq<Item>, level: int, S: set<Item>): seq<Tree<Item>>
    requires Structure(S) && forall x <- list :: x in S && x.level > level
    reads S
    decreases Deeper(level, S), 0, |list|
  {
    if list == [] then [] else
      assert list[0] in Deeper(level, S) && list[0] !in Deeper(list[0].level, S);
      [TreeOf(list[0], S)] + TreesOf(list[1..], level, S)
  }

  // Everything strictly below c, generation after generation.
  ghost function Contents(c: Item, S: set<Item>): seq<Item>
    requires Structure(S) && c in S
    reads S
  {
    Bfs(TreeOf(c, S).kids)
  }

  lemma {:induction false} TreesOfAt(list: seq<Item>, level: int, S: set<Item>)
    requires Structure(S) && forall x <- list :: x in S && x.level > level
    ensures |TreesOf(list, level, S)| == |list|
    ensures forall i | 0 <= i < |list| :: TreesOf(list, level, S)[i] == TreeOf(list[i], S)
  {
    if list != [] {
      TreesOfAt(list[1..], level, S);
    }
  }

  // The waiting nodes of a queue of containers: all their contents, in order.
  ghost function Lists(over: seq<Item>): seq<Item>
    reads over
  {
    if over == [] then [] else over[0].itemlist + Lists(over[1..])
  }

  ghost function Forests(list: seq<Item>, S: set<Item>): (ts: seq<Tree<Item>>)
    requires Structure(S) && forall x <- list :: x in S
    reads S
    ensures |ts| == |list| && forall i | 0 <= i < |list| :: ts[i] == TreeOf(list[i], S)
  {
    TreesOfAt(list, -1, S);
    TreesOf(list, -1, S)
  }

  lemma {:induction false} ListsConcat(a: seq<Item>, b: seq<Item>)
    ensures Lists(a + b) == Lists(a) + Lists(b)
  {
    if a == [] {
      assert a + b == b;
    } else {
      assert (a + b)[1..] == a[1..] + b;
      ListsConcat(a[1..], b);
    }
  }

  lemma {:induction false} ListsIn(over: seq<Item>, S: set<Item>)
    requires Structure(S) && forall c <- over :: c in S
    ensures forall x <- Lists(over) :: x in S
  {
    if over != [] {
      ListsIn(over[1..], S);
    }
  }

  // The nodes waiting behind a position in the first of a queue of containers
  ghost function Queue(over: seq<Item>, cur: nat): (list: seq<Item>)
    requires over != [] ==> cur <= |over[0].itemlist|
    reads over
    ensures forall x <- list :: x in Lists(over)
  {
    if over == [] then [] else over[0].itemlist[cur..] + Lists(over[1..])
  }

  // Moving past i and enqueueing it when it has contents appends exactly those contents.
  lemma {:induction false} QueueStep(over: seq<Item>, cur: nat, i: Item)
    requires over != [] && cur < |over[0].itemlist| && over[0].itemlist[cur] == i
    ensures cur + 1 <= |over[0].itemlist|
    ensures var next := over + if i.itemlist != [] then [i] else [];
      var before := Queue(over, cur);
      && before != [] && before[0] == i && next[0] == over[0]
      && Queue(next, cur + 1) == before[1..] + i.itemlist
      && (cur + 1 == |over[0].itemlist| ==> Queue(next[1..], 0) == before[1..] + i.itemlist)
  {
    var more := if i.itemlist != [] then [i] else [];
    var next, list := over + more, over[0].itemlist;
    assert Lists(more) == i.itemlist by {
      if i.itemlist != [] {
        assert more[1..] == [] && i.itemlist + [] == i.itemlist;
      }
    }
    assert next[1..] == over[1..] + more && next[0] == over[0];
    ListsConcat(over[1..], more);
    QueueStart(next[1..]);
    assert list[cur..] == [i] + list[cur + 1..];
    assert Queue(over, cur)[1..] == list[cur + 1..] + Lists(over[1..]);
    assert Queue(next, cur + 1) == list[cur + 1..] + Lists(over[1..]) + i.itemlist;
  }

  lemma {:induction false} QueueEmpty(cur: nat)
    ensures Queue([], cur) == Queue([], 0)
  {
  }

  lemma {:induction false} QueueStart(over: seq<Item>)
    ensures Queue(over, 0) == Lists(over)
  {
  }

  lemma {:induction false} BfsStep(list: seq<Item>, S: set<Item>)
    requires Structure(S) && list != [] && forall x <- list :: x in S
    ensures list[0] in S && (!list[0].isContainer ==> list[0].itemlist == [])
    ensures forall x <- list[1..] + list[0].itemlist :: x in S
    ensures Bfs(Forests(list, S)) == [list[0]] + Bfs(Forests(list[1..] + list[0].itemlist, S))
  {
    var x := list[0];
    assert forall y <- x.itemlist :: y in S && y.parent == x;
    TreesOfAt(x.itemlist, x.level, S);
    assert Forests(list, S)[1..] + TreeOf(x, S).kids == Forests(list[1..] + x.itemlist, S);
  }

  lemma {:induction false} ListedItem(c: Item, i: nat, S: set<Item>)
    requires Structure(S) && c in S && i < |c.itemlist|
    ensures c.itemlist[i] in S && (!c.itemlist[i].isContainer ==> c.itemlist[i].itemlist == [])
  {
    assert c.itemlist[i] in c.itemlist;
  }

  class ContainerIterator {
    var over: seq<Item>
    var cur: nat

    ghost predicate Valid(S: set<Item>)
      reads this, S
    {
      && Structure(S)
      && (forall c <- over :: c in S && c.isContainer && c.itemlist != [])
      && (over != [] ==> cur < |over[0].itemlist|)
    }

    ghost function Waiting(S: set<Item>): (list: seq<Item>)
      requires Valid(S)
      reads this, S
      ensures forall x <- list :: x in S
    {
      ListsIn(over, S);
      Queue(over, cur)
    }

    // Everything the iterator will still show, in order
    ghost function Ahead(S: set<Item>): seq<Item>
      requires Valid(S)
      reads this, S
    {
      Bfs(Forests(Waiting(S), S))
    }

    constructor (c: Item, ghost S: set<Item>)
      requires Structure(S) && c in S
      ensures Valid(S) && Ahead(S) == Contents(c, S)
    {
      cur := 0;
      over := if c.itemlist != [] then [c] else [];
      new;
      assert forall x <- c.itemlist :: x in S && x.parent == c;
      TreesOfAt(c.itemlist, c.level, S);
      assert Forests(Waiting(S), S) == TreeOf(c, S).kids;
    }

    predicate HasNext()
      reads this
    {
      over != []
    }

    lemma {:induction false} NothingAhead(S: set<Item>)
      requires Valid(S) && !HasNext()
      ensures Ahead(S) == []
    {
    }

    function Current(ghost S: set<Item>): (i: Item)
      requires Valid(S) && HasNext()
      reads this, S
      ensures i in Ahead(S)
    {
      QueueStep(over, cur, over[0].itemlist[cur]);
      BfsStep(Waiting(S), S);
      over[0].itemlist[cur]
    }

    method Advance(ghost S: set<Item>)
      requires Valid(S) && HasNext()
      modifies this
      ensures Valid(S) && old(Ahead(S)) == [old(Current(S))] + Ahead(S)
    {
      hide Structure, Lists, Bfs, Queue, TreeOf, Forests;
      var i := over[0].itemlist[cur];
      ghost var was, pos, before := over, cur, Waiting(S);
      QueueStep(over, cur, i);
      ListedItem(over[0], cur, S);
      assert over + [] == over;
      if i.isContainer {
        if i.itemlist != [] {
          over := over + [i];
        }
      }
      ghost var next := was + if i.itemlist != [] then [i] else [];
      assert over == next;
      cur := cur + 1;
      if cur == |over[0].itemlist| {
        over := over[1..];
        if over != [] {
          cur := 0;
        }
      }
      QueueStep(was, pos, i);
      QueueEmpty(cur);
      BfsStep(before, S);
    }
  }

  // ---------- what the two queries answer ----------

  lemma {:induction false} UnderLevel(d: Item, a: Item, S: set<Item>)
    requires Ranked(S) && d in S && Under(d, a, S)
    ensures d.level >= a.level
    decreases d.level
  {
    if d != a {
      UnderLevel(d.parent, a, S);
    }
  }

  // Two siblings have nothing below them in common.
  lemma {:induction false} SiblingsApart(d: Item, a: Item, b: Item, S: set<Item>)
    requires Structure(S) && d in S && a in S && b in S && Under(d, a, S) && Under(d, b, S)
    requires a.parent != null && a.parent == b.parent
    ensures a == b
    decreases d.level
  {
    if d == a && d != b {
      UnderLevel(a.parent, b, S);
    } else if d == b && d != a {
      UnderLevel(b.parent, a, S);
    } else if d != a {
      SiblingsApart(d.parent, a, b, S);
    }
  }

  lemma {:induction false} UnderChild(d: Item, c: Item, S: set<Item>) returns (k: Item)
    requires Structure(S) && d in S && c in S && Under(d, c, S) && d != c
    ensures k in c.itemlist && k in S && Under(d, k, S)
    decreases d.level
  {
    if d.parent == c {
      k := d;
    } else {
      k := UnderChild(d.parent, c, S);
    }
  }

  lemma {:induction false} UnderParent(d: Item, k: Item, c: Item, S: set<Item>)
    requires Ranked(S) && d in S && k in S && k.parent == c && Under(d, k, S)
    ensures Under(d, c, S) && d != c
    decreases d.level
  {
    UnderLevel(d, k, S);
    if d == k {
      assert Under(c, c, S);
    } else {
      UnderParent(d.parent, k, c, S);
    }
  }

  // Every item below a container occurs in its tree exactly once, and nothing else does.
  lemma {:induction false} OccursOnce(d: Item, c: Item, S: set<Item>)
    requires Structure(S) && d in S && c in S
    ensures multiset(Preorder([TreeOf(c, S)]))[d] == if Under(d, c, S) then 1 else 0
    ensures multiset(Preorder(TreeOf(c, S).kids))[d] == if Under(d, c, S) && d != c then 1 else 0
    decreases Deeper(c.level, S), 1, 0
  {
    hide Under;
    assert forall x <- c.itemlist :: x in S && x.parent == c;
    OccursOnceAmong(d, c.itemlist, c, S);
    UnderSomeChild(d, c, S);
    var ts := TreeOf(c, S).kids;
    assert Preorder([TreeOf(c, S)]) == [c] + Preorder(ts) + Preorder<Item>([]);
  }

  lemma {:induction false} UnderSomeChild(d: Item, c: Item, S: set<Item>)
    requires Structure(S) && d in S && c in S && forall x <- c.itemlist :: x in S && x.parent == c
    ensures (exists k <- c.itemlist :: Under(d, k, S)) <==> Under(d, c, S) && d != c
    ensures Under(c, c, S)
  {
    if Under(d, c, S) && d != c {
      var k := UnderChild(d, c, S);
    } else {
      forall k | k in c.itemlist && Under(d, k, S)
        ensures false
      {
        UnderParent(d, k, c, S);
      }
    }
  }

  lemma {:induction false} OccursOnceAmong(d: Item, list: seq<Item>, c: Item, S: set<Item>)
    requires Structure(S) && d in S && c in S && Distinct(list)
    requires forall x <- list :: x in S && x.parent == c && x.level > c.level
    ensures multiset(Preorder(TreesOf(list, c.level, S)))[d] == if exists k <- list :: Under(d, k, S) then 1 else 0
    decreases Deeper(c.level, S), 0, |list|
  {
    hide Under, Preorder, TreesOf, TreeOf;
    if list == [] {
      NoBrothers(c.level, S);
    } else {
      FirstBrother(list, c.level, S);
      OccursOnce(d, list[0], S);
      OccursOnceAmong(d, list[1..], c, S);
      FirstOrOther(d, list, c, S);
    }
  }

  lemma {:induction false} NoBrothers(level: int, S: set<Item>)
    requires Structure(S)
    ensures Preorder(TreesOf([], level, S)) == []
  {
  }

  lemma {:induction false} FirstBrother(list: seq<Item>, level: int, S: set<Item>)
    requires Structure(S) && list != [] && forall x <- list :: x in S && x.level > level
    ensures Deeper(list[0].level, S) < Deeper(level, S)
    ensures Preorder(TreesOf(list, level, S)) == Preorder([TreeOf(list[0], S)]) + Preorder(TreesOf(list[1..], level, S))
  {
    var t, rest := TreeOf(list[0], S), TreesOf(list[1..], level, S);
    assert list[0] in Deeper(level, S) && list[0] !in Deeper(list[0].level, S);
    PreorderConcat([t], rest);
    assert TreesOf(list, level, S) == [t] + rest;
  }

  // An item is below the first of several brothers, or below one of the others, but not both.
  lemma {:induction false} FirstOrOther(d: Item, list: seq<Item>, c: Item, S: set<Item>)
    requires Structure(S) && d in S && c in S && Distinct(list) && list != []
    requires forall x <- list :: x in S && x.parent == c
    ensures var other := exists k <- list[1..] :: Under(d, k, S);
      && !(Under(d, list[0], S) && other)
      && ((exists k <- list :: Under(d, k, S)) <==> Under(d, list[0], S) || other)
  {
    hide Under;
    var first, rest := list[0], list[1..];
    assert forall k :: k in list <==> k == first || k in rest;
    forall k | k in rest && Under(d, k, S) && Under(d, first, S)
      ensures false
    {
      SiblingsApart(d, k, first, S);
    }
  }

  /** The iterator shows every item strictly below c exactly once, and no other item. */
  lemma {:induction false} ContentsExact(c: Item, d: Item, S: set<Item>)
    requires Structure(S) && c in S && d in S
    ensures multiset(Contents(c, S))[d] == if Under(d, c, S) && d != c then 1 else 0
  {
    BfsVisitsAll(TreeOf(c, S).kids);
    OccursOnce(d, c, S);
  }

  ghost predicate StrictlyBelow(d: Item, c: Item, S: set<Item>)
    requires Structure(S) && d in S
    reads S
  {
    Under(d, c, S) && d != c
  }

  lemma {:induction false} ContentsAreBelow(c: Item, d: Item, S: set<Item>)
    requires Structure(S) && c in S && d in S
    ensures d in Contents(c, S) <==> StrictlyBelow(d, c, S)
  {
    ContentsExact(c, d, S);
  }

  method GetItemHoldingCount(c: Item, ghost S: set<Item>) returns (counter: nat)
    requires Structure(S) && c in S
    ensures counter == Wrap(Size(TreeOf(c, S).kids))
  {
    hide Structure, Bfs, TreeOf, TreesOf, Size, Lists, Queue, Preorder;
    counter := 0;
    var it := new ContainerIterator(c, S);
    BfsVisitsAll(TreeOf(c, S).kids);
    ghost var shown := 0;
    while it.HasNext()
      invariant it.Valid(S) && fresh(it)
      invariant shown + |it.Ahead(S)| == Size(TreeOf(c, S).kids)
      invariant counter == Wrap(shown)
      decreases |it.Ahead(S)|
    {
      it.Advance(S);
      shown := shown + 1;
      counter := Wrap(counter + 1);
    }
    it.NothingAhead(S);
  }

  method IsHoldingItem(c: Item, item: Item, ghost S: set<Item>) returns (r: bool)
    requires Structure(S) && c in S && item in S
    ensures r <==> StrictlyBelow(item, c, S)
  {
    hide Structure, Bfs, TreeOf, TreesOf, Lists, Queue, StrictlyBelow, Under;
    ContentsAreBelow(c, item, S);
    var it := new ContainerIterator(c, S);
    while it.HasNext()
      invariant it.Valid(S) && fresh(it)
      invariant item in it.Ahead(S) <==> StrictlyBelow(item, c, S)
      decreases |it.Ahead(S)|
    {
      if it.Current(S) == item {
        return true;
      }
      it.Advance(S);
    }
    it.NothingAhead(S);
    return false;
  }
}
