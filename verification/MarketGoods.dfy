/**
  The goods side of the market: finding items of one ware in a depot locker with nested
  containers, and taking an exact amount of them out.
 */
module MarketGoods {
  import opened Trees

  const MAX_AMOUNT := 64000
  const U16 := 0x1_0000

  // An item type; `known` is false for ids that no longer exist.
  datatype Ware = Ware(id: nat, stackable: bool, known: bool)

  // One item; `plain` when it may be traded as its ware: no special attributes, standard capacity.
  datatype Piece = Piece(id: int, ware: Ware, count: nat, plain: bool)

  type Items = seq<Tree<Piece>>

  // How many goods of a ware there are, at any depth
  function Amount(ts: Items, ware: Ware): int
  {
    if ts == [] then 0 else
      (if ts[0].val.ware == ware then ts[0].val.count else 0) + Amount(ts[0].kids, ware) + Amount(ts[1..], ware)
  }

  // ... and how many of them are plain
  function PlainAmount(ts: Items, ware: Ware): int
  {
    if ts == [] then 0 else
      (if Tradable(ts[0].val, ware) then ts[0].val.count else 0)
      + PlainAmount(ts[0].kids, ware) + PlainAmount(ts[1..], ware)
  }

  function Occurs(ts: Items, id: int): nat
  {
    if ts == [] then 0 else
      (if ts[0].val.id == id then 1 else 0) + Occurs(ts[0].kids, id) + Occurs(ts[1..], id)
  }

  // p is an item without contents somewhere in ts.
  predicate HasLeaf(ts: Items, p: Piece)
  {
    ts != [] && ((ts[0].kids == [] && ts[0].val == p) || HasLeaf(ts[0].kids, p) || HasLeaf(ts[1..], p))
  }

  predicate Counts(ts: Items)
  {
    ts == [] || (CountOk(ts[0].val) && Counts(ts[0].kids) && Counts(ts[1..]))
  }

  predicate CountOk(p: Piece)
  {
    1 <= p.count <= 100 && (!p.ware.stackable ==> p.count == 1)
  }

  // A stock of items: every item is there once, stacks hold 1 to 100 pieces, other items count as one.
  ghost predicate Proper(ts: Items)
  {
    Counts(ts) && forall id :: Occurs(ts, id) <= 1
  }

  // removeThing on the item with this id: part of it, or all of it
  function Take(ts: Items, id: int, n: nat): Items
  {
    if ts == [] then [] else if ts[0].kids == [] && ts[0].val.id == id then
      (if n < ts[0].val.count then [Node(ts[0].val.(count := ts[0].val.count - n), [])] else []) + ts[1..]
    else [Node(ts[0].val, Take(ts[0].kids, id, n))] + Take(ts[1..], id, n)
  }

  lemma {:induction false} LeafOccurs(ts: Items, p: Piece)
    requires HasLeaf(ts, p)
    ensures Occurs(ts, p.id) >= 1
  {
    if HasLeaf(ts[0].kids, p) {
      LeafOccurs(ts[0].kids, p);
    } else if !(ts[0].kids == [] && ts[0].val == p) {
      LeafOccurs(ts[1..], p);
    }
  }

  lemma {:induction false} TakeAbsent(ts: Items, id: int, n: nat)
    requires Occurs(ts, id) == 0
    ensures Take(ts, id, n) == ts
  {
    if ts != [] {
      TakeAbsent(ts[0].kids, id, n);
      TakeAbsent(ts[1..], id, n);
    }
  }

  /** Taking n pieces of one item takes n of its ware and nothing else. */
  lemma {:induction false} TakeExact(ts: Items, p: Piece, n: nat, ware: Ware)
    requires HasLeaf(ts, p) && Occurs(ts, p.id) == 1 && n <= p.count
    ensures Amount(Take(ts, p.id, n), ware) == Amount(ts, ware) - if p.ware == ware then n else 0
    ensures PlainAmount(Take(ts, p.id, n), ware) == PlainAmount(ts, ware) - if Tradable(p, ware) then n else 0
  {
    if ts[0].kids == [] && ts[0].val.id == p.id {
      if HasLeaf(ts[1..], p) {
        LeafOccurs(ts[1..], p);
      }
      assert ts[0].val == p;
      var left := if n < p.count then [Node(p.(count := p.count - n), [])] else [];
      assert Take(ts, p.id, n) == left + ts[1..];
      if n < p.count {
        assert (left + ts[1..])[1..] == ts[1..];
      } else {
        assert left + ts[1..] == ts[1..];
      }
    } else {
      var kids, rest := Take(ts[0].kids, p.id, n), Take(ts[1..], p.id, n);
      assert Take(ts, p.id, n)[1..] == rest;
      if HasLeaf(ts[0].kids, p) {
        LeafOccurs(ts[0].kids, p);
        TakeExact(ts[0].kids, p, n, ware);
        TakeAbsent(ts[1..], p.id, n);
      } else {
        LeafOccurs(ts[1..], p);
        TakeExact(ts[1..], p, n, ware);
        TakeAbsent(ts[0].kids, p.id, n);
      }
    }
  }

  lemma {:induction false} TakeOccurs(ts: Items, id: int, n: nat, other: int)
    ensures Occurs(Take(ts, id, n), other) <= Occurs(ts, other)
    ensures other != id ==> Occurs(Take(ts, id, n), other) == Occurs(ts, other)
  {
    if ts != [] {
      if ts[0].kids == [] && ts[0].val.id == id {
        var left := if n < ts[0].val.count then [Node(ts[0].val.(count := ts[0].val.count - n), [])] else [];
        assert Take(ts, id, n) == left + ts[1..];
        if left != [] {
          assert (left + ts[1..])[1..] == ts[1..];
        } else {
          assert left + ts[1..] == ts[1..];
        }
      } else {
        TakeOccurs(ts[0].kids, id, n, other);
        TakeOccurs(ts[1..], id, n, other);
        assert Take(ts, id, n)[1..] == Take(ts[1..], id, n);
      }
    }
  }

  lemma {:induction false} TakeKeepsLeaf(ts: Items, id: int, n: nat, q: Piece)
    requires HasLeaf(ts, q) && q.id != id
    ensures HasLeaf(Take(ts, id, n), q)
  {
    if ts[0].kids == [] && ts[0].val.id == id {
      var left := if n < ts[0].val.count then [Node(ts[0].val.(count := ts[0].val.count - n), [])] else [];
      assert Take(ts, id, n) == left + ts[1..];
      if left != [] {
        assert (left + ts[1..])[1..] == ts[1..];
      } else {
        assert left + ts[1..] == ts[1..];
      }
    } else {
      assert Take(ts, id, n)[1..] == Take(ts[1..], id, n);
      if HasLeaf(ts[0].kids, q) {
        TakeKeepsLeaf(ts[0].kids, id, n, q);
      } else if HasLeaf(ts[1..], q) {
        TakeKeepsLeaf(ts[1..], id, n, q);
      }
    }
  }

  lemma {:induction false} TakeCounts(ts: Items, id: int, n: nat)
    requires Counts(ts)
    ensures n >= 1 ==> Counts(Take(ts, id, n))
  {
    if ts != [] {
      if ts[0].kids == [] && ts[0].val.id == id {
        var left := if n < ts[0].val.count then [Node(ts[0].val.(count := ts[0].val.count - n), [])] else [];
        assert Take(ts, id, n) == left + ts[1..];
        if left != [] {
          assert (left + ts[1..])[1..] == ts[1..];
        } else {
          assert left + ts[1..] == ts[1..];
        }
      } else {
        TakeCounts(ts[0].kids, id, n);
        TakeCounts(ts[1..], id, n);
        assert Take(ts, id, n)[1..] == Take(ts[1..], id, n);
      }
    }
  }

  lemma {:induction false} LeafCount(ts: Items, p: Piece)
    requires Counts(ts) && HasLeaf(ts, p)
    ensures CountOk(p)
  {
    if HasLeaf(ts[0].kids, p) {
      LeafCount(ts[0].kids, p);
    } else if !(ts[0].kids == [] && ts[0].val == p) {
      LeafCount(ts[1..], p);
    }
  }

  lemma {:induction false} TakeProper(ts: Items, id: int, n: nat)
    requires Proper(ts) && n >= 1
    ensures Proper(Take(ts, id, n))
  {
    TakeCounts(ts, id, n);
    forall other
      ensures Occurs(Take(ts, id, n), other) <= 1
    {
      TakeOccurs(ts, id, n, other);
    }
  }

  // ---------- finding enough goods of one ware ----------

  predicate Tradable(p: Piece, ware: Ware)
  {
    p.ware == ware && p.plain
  }

  // What the locker offers of a ware: plain items without contents, at any depth
  function Offered(ts: Items, ware: Ware): nat
    requires Counts(ts)
  {
    if ts == [] then 0 else
      (if ts[0].kids == [] && Tradable(ts[0].val, ware) then ts[0].val.count else 0)
      + Offered(ts[0].kids, ware) + Offered(ts[1..], ware)
  }

  function Sum(list: seq<Piece>): int
  {
    if list == [] then 0 else list[0].count + Sum(list[1..])
  }

  function Times(list: seq<Piece>, id: int): nat
  {
    if list == [] then 0 else (if list[0].id == id then 1 else 0) + Times(list[1..], id)
  }

  // A queue of containers, each given by its contents, joined into one list
  function Joined(queue: seq<Items>): Items
  {
    if queue == [] then [] else queue[0] + Joined(queue[1..])
  }

  lemma {:induction false} JoinedConcat(a: seq<Items>, b: seq<Items>)
    ensures Joined(a + b) == Joined(a) + Joined(b)
  {
    if a == [] {
      assert a + b == b;
    } else {
      assert (a + b)[1..] == a[1..] + b;
      JoinedConcat(a[1..], b);
    }
  }

  lemma {:induction false} ConcatFacts(a: Items, b: Items, ware: Ware, id: int, p: Piece)
    ensures Counts(a + b) <==> Counts(a) && Counts(b)
    ensures Counts(a + b) ==> Offered(a + b, ware) == Offered(a, ware) + Offered(b, ware)
    ensures Occurs(a + b, id) == Occurs(a, id) + Occurs(b, id)
    ensures HasLeaf(a + b, p) <==> HasLeaf(a, p) || HasLeaf(b, p)
    ensures Size(a + b) == Size(a) + Size(b)
  {
    if a == [] {
      assert a + b == b;
    } else {
      assert (a + b)[1..] == a[1..] + b;
      ConcatFacts(a[1..], b, ware, id, p);
    }
  }

  // The goods of a ware in the order in which they are met: breadth first, so the outer ones first
  function Leaves(ahead: Items, ware: Ware): seq<Piece>
    decreases Size(ahead)
  {
    if ahead == [] then [] else
      LaterIsSmaller(ahead);
      (if ahead[0].kids == [] && Tradable(ahead[0].val, ware) then [ahead[0].val] else [])
        + Leaves(ahead[1..] + ahead[0].kids, ware)
  }

  lemma {:induction false} LaterIsSmaller(ahead: Items)
    requires ahead != []
    ensures Size(ahead[1..] + ahead[0].kids) < Size(ahead)
  {
    ConcatFacts(ahead[1..], ahead[0].kids, Ware(0, false, false), 0, ahead[0].val);
  }

  function Backwards(list: seq<Piece>): seq<Piece>
  {
    if list == [] then [] else Backwards(list[1..]) + [list[0]]
  }

  // What is still ahead is part of the locker, and what was found is not ahead any more.
  ghost predicate Searching(locker: Items, list: seq<Piece>, ahead: Items, ware: Ware)
  {
    && Counts(ahead) && Counts(locker) && Sum(list) + Offered(ahead, ware) == Offered(locker, ware)
    && (forall id :: Times(list, id) + Occurs(ahead, id) <= Occurs(locker, id))
    && (forall p | HasLeaf(ahead, p) :: HasLeaf(locker, p))
    && (forall p <- list :: HasLeaf(locker, p) && Tradable(p, ware))
    && Backwards(list) + Leaves(ahead, ware) == Leaves(locker, ware)
  }

  // Looking at the first item ahead; its contents, if any, are looked at later.
  lemma {:induction false} SearchStep(locker: Items, list: seq<Piece>, ahead: Items, ware: Ware)
    requires ahead != [] && Searching(locker, list, ahead, ware)
    ensures var c := ahead[0];
      var later := ahead[1..] + c.kids;
      && 1 <= c.val.count <= 100 && Size(later) < Size(ahead)
      && Searching(locker, if c.kids == [] && Tradable(c.val, ware) then [c.val] + list else list, later, ware)
  {
    var c := ahead[0];
    var later := ahead[1..] + c.kids;
    var list' := if c.kids == [] && Tradable(c.val, ware) then [c.val] + list else list;
    ConcatFacts(ahead[1..], c.kids, ware, 0, c.val);
    forall id
      ensures Times(list', id) + Occurs(later, id) <= Occurs(locker, id)
    {
      ConcatFacts(ahead[1..], c.kids, ware, id, c.val);
    }
    forall p | HasLeaf(later, p)
      ensures HasLeaf(locker, p)
    {
      ConcatFacts(ahead[1..], c.kids, ware, 0, p);
      assert HasLeaf(ahead, p);
    }
    if c.kids == [] && Tradable(c.val, ware) {
      assert HasLeaf(ahead, c.val);
      assert ([c.val] + list)[1..] == list;
    }
    LeavesStep(list, ahead, ware);
  }

  lemma {:induction false} LeavesStep(list: seq<Piece>, ahead: Items, ware: Ware)
    requires ahead != []
    ensures var c := ahead[0];
      Backwards(list) + Leaves(ahead, ware) ==
        Backwards(if c.kids == [] && Tradable(c.val, ware) then [c.val] + list else list)
          + Leaves(ahead[1..] + c.kids, ware)
  {
    assert ([ahead[0].val] + list)[1..] == list;
  }

  // Enough items of the ware for `sufficient` pieces, only as many as needed, and those that are met first
  ghost predicate JustEnough(locker: Items, list: seq<Piece>, ware: Ware, sufficient: nat)
  {
    && list != [] && Sum(list) >= sufficient && Sum(list[1..]) < sufficient
    && (forall id :: Times(list, id) <= 1)
    && (forall p <- list :: HasLeaf(locker, p) && Tradable(p, ware))
    && Backwards(list) <= Leaves(locker, ware)
  }

  lemma {:induction false} SumAtMost(list: seq<Piece>)
    requires forall p <- list :: p.count >= 0
    ensures Sum(list) >= 0
  {
    if list != [] {
      SumAtMost(list[1..]);
    }
  }

  lemma {:induction false} SearchedOnce(locker: Items, list: seq<Piece>, ahead: Items, ware: Ware)
    requires Proper(locker) && Searching(locker, list, ahead, ware)
    ensures forall id :: Times(list, id) <= 1
    ensures forall p <- list :: HasLeaf(locker, p) && Tradable(p, ware)
    ensures Backwards(list) <= Leaves(locker, ware)
  {
  }

  /**
    The items of a ware that cover `sufficientCount`, last found first; nothing when the locker does
    not offer enough.  The 16-bit counter never wraps.
   */
  method GetMarketItemList(wareId: Ware, sufficientCount: nat, locker: Items) returns (itemList: seq<Piece>)
    requires Proper(locker) && 1 <= sufficientCount <= MAX_AMOUNT
    ensures itemList == [] <==> Offered(locker, wareId) < sufficientCount
    ensures itemList != [] ==> JustEnough(locker, itemList, wareId, sufficientCount)
  {
    hide Searching, Counts, Offered, Occurs, HasLeaf, Joined, Size, Sum, Leaves, Backwards;
    itemList := [];
    var count := 0;
    var containers: seq<Items> := [locker];
    SearchStart(locker, wareId);
    ghost var done := false;
    while containers != []
      invariant Searching(locker, itemList, Joined(containers), wareId)
      invariant 0 <= count == Sum(itemList) < sufficientCount
      decreases Size(Joined(containers)), |containers|
    {
      ghost var size, queued := Size(Joined(containers)), |containers|;
      JoinedStep(containers);
      var container := containers[0];
      containers := containers[1..];
      assert container[0..] == container;
      for i := 0 to |container|
        invariant Searching(locker, itemList, container[i..] + Joined(containers), wareId)
        invariant 0 <= count == Sum(itemList) < sufficientCount
        invariant i == 0 ==> |containers| == queued - 1
        invariant Size(container[i..] + Joined(containers)) <= size
        invariant i > 0 ==> Size(container[i..] + Joined(containers)) < size
      {
        var item := container[i];
        ghost var ahead := container[i..] + Joined(containers);
        assert ahead[0] == item && ahead[1..] == container[i + 1..] + Joined(containers);
        SearchStep(locker, itemList, ahead, wareId);
        ghost var later := ahead[1..] + item.kids;
        if item.kids != [] {
          JoinedStep([item.kids]);
          JoinedConcat(containers, [item.kids]);
          containers := containers + [item.kids];
          assert later == container[i + 1..] + Joined(containers);
          continue;
        }
        assert later == container[i + 1..] + Joined(containers);
        if item.val.ware != wareId {
          continue;
        }
        if !item.val.plain {
          continue;
        }
        SumCons(item.val, itemList);
        itemList := [item.val] + itemList;
        count := (count + item.val.count) % U16;
        if count >= sufficientCount {
          SearchEnough(locker, itemList, later, wareId);
          SearchedOnce(locker, itemList, later, wareId);
          return;
        }
      }
      assert container[|container|..] + Joined(containers) == Joined(containers);
    }
    SearchEnd(locker, itemList, wareId);
    itemList := [];
  }

  lemma {:induction false} JoinedStep(queue: seq<Items>)
    requires queue != []
    ensures Joined(queue) == queue[0] + Joined(queue[1..])
    ensures |queue| == 1 ==> Joined(queue) == queue[0]
  {
  }

  lemma {:induction false} SumCons(p: Piece, list: seq<Piece>)
    ensures Sum([p] + list) == p.count + Sum(list) && ([p] + list)[1..] == list
  {
    assert ([p] + list)[1..] == list;
  }

  lemma {:induction false} SearchStart(locker: Items, ware: Ware)
    requires Proper(locker)
    ensures Joined([locker]) == locker && Searching(locker, [], locker, ware) && Sum([]) == 0
  {
  }

  lemma {:induction false} SearchEnough(locker: Items, list: seq<Piece>, ahead: Items, ware: Ware)
    requires Searching(locker, list, ahead, ware)
    ensures Counts(locker) && Sum(list) <= Offered(locker, ware)
  {
  }

  lemma {:induction false} SearchEnd(locker: Items, list: seq<Piece>, ware: Ware)
    requires Searching(locker, list, Joined([]), ware)
    ensures Counts(locker) && Sum(list) == Offered(locker, ware)
  {
  }

  // ---------- a player's locker ----------

  // The locker's chest of depot boxes, and the inbox that lies in the locker beside it.  What the market searches is
  // the contents of both, the chest's first.
  datatype Locker = Locker(depot: Items, inbox: Items)
  {
    function All(): Items
    {
      depot + inbox
    }

    function Without(id: int, n: nat): Locker
    {
      Locker(Take(depot, id, n), Take(inbox, id, n))
    }
  }

  lemma {:induction false} AmountConcat(a: Items, b: Items, ware: Ware)
    ensures Amount(a + b, ware) == Amount(a, ware) + Amount(b, ware)
    ensures PlainAmount(a + b, ware) == PlainAmount(a, ware) + PlainAmount(b, ware)
  {
    if a == [] {
      assert a + b == b;
    } else {
      assert (a + b)[1..] == a[1..] + b;
      AmountConcat(a[1..], b, ware);
    }
  }

  lemma {:induction false} TakeFirst(t: Tree<Piece>, rest: Items, id: int, n: nat)
    ensures Take([t] + rest, id, n) == if t.kids == [] && t.val.id == id then
        (if n < t.val.count then [Node(t.val.(count := t.val.count - n), [])] else []) + rest
      else [Node(t.val, Take(t.kids, id, n))] + Take(rest, id, n)
    ensures Occurs([t] + rest, id) == (if t.val.id == id then 1 else 0) + Occurs(t.kids, id) + Occurs(rest, id)
  {
    assert ([t] + rest)[0] == t && ([t] + rest)[1..] == rest;
  }

  lemma {:induction false} TakeConcat(a: Items, b: Items, id: int, n: nat)
    requires Occurs(a, id) + Occurs(b, id) <= 1
    ensures Take(a + b, id, n) == Take(a, id, n) + Take(b, id, n)
  {
    hide Take, Occurs;
    if a == [] {
      NothingToTake(id, n);
      assert a + b == b && [] + Take(b, id, n) == Take(b, id, n);
    } else {
      var t, rest := a[0], a[1..];
      assert a == [t] + rest;
      TakeFirst(t, rest, id, n);
      TakeFirst(t, rest + b, id, n);
      Regrouped([t], rest, b);
      if t.kids == [] && t.val.id == id {
        TakeAbsent(b, id, n);
        Regrouped(if n < t.val.count then [Node(t.val.(count := t.val.count - n), [])] else [], rest, b);
      } else {
        TakeConcat(rest, b, id, n);
        Regrouped([Node(t.val, Take(t.kids, id, n))], Take(rest, id, n), Take(b, id, n));
      }
    }
  }

  lemma {:induction false} Regrouped(a: Items, b: Items, c: Items)
    ensures a + (b + c) == a + b + c
  {
  }

  lemma {:induction false} NothingToTake(id: int, n: nat)
    ensures Take([], id, n) == []
  {
  }

  // New items have numbers that no item has yet.
  ghost predicate Fresh(ts: Items, next: int)
  {
    forall id | id >= next :: Occurs(ts, id) == 0
  }

  // A new item at the front of the inbox
  lemma {:induction false} Delivered(l: Locker, p: Piece, next: int)
    requires Proper(l.All()) && Fresh(l.All(), next) && p.id == next && CountOk(p)
    ensures var m := l.(inbox := [Node(p, [])] + l.inbox);
      && Proper(m.All()) && Fresh(m.All(), next + 1)
      && (p.plain ==> Gone(m.All(), l.All(), p.ware, p.count))
  {
    hide Counts, Occurs, Amount, PlainAmount;
    var front := [Node(p, [])];
    var m := l.(inbox := front + l.inbox);
    SingleFacts(p);
    ConcatFacts(l.depot, l.inbox, p.ware, 0, p);
    ConcatFacts(front, l.inbox, p.ware, 0, p);
    ConcatFacts(l.depot, front + l.inbox, p.ware, 0, p);
    forall id
      ensures Occurs(m.All(), id) == Occurs(l.All(), id) + if id == p.id then 1 else 0
    {
      ConcatFacts(l.depot, l.inbox, p.ware, id, p);
      ConcatFacts(front, l.inbox, p.ware, id, p);
      ConcatFacts(l.depot, front + l.inbox, p.ware, id, p);
    }
    forall w: Ware
      ensures Amount(m.All(), w) == Amount(l.All(), w) + if w == p.ware then p.count else 0
      ensures PlainAmount(m.All(), w) == PlainAmount(l.All(), w) + if Tradable(p, w) then p.count else 0
    {
      AmountConcat(l.depot, l.inbox, w);
      AmountConcat(front, l.inbox, w);
      AmountConcat(l.depot, front + l.inbox, w);
    }
  }

  lemma {:induction false} SingleFacts(p: Piece)
    ensures Counts([Node(p, [])]) <==> CountOk(p)
    ensures forall id :: Occurs([Node(p, [])], id) == if id == p.id then 1 else 0
    ensures forall w: Ware :: Amount([Node(p, [])], w) == if w == p.ware then p.count else 0
    ensures forall w: Ware :: PlainAmount([Node(p, [])], w) == if Tradable(p, w) then p.count else 0
  {
    assert [Node(p, [])][1..] == [];
  }

  // ---------- goods that come new into an inbox ----------

  // The least number of items for an amount: stacks of up to 100, or single items
  function Pieces(ware: Ware, amount: int): int
  {
    if ware.stackable then (amount + 99) / 100 else amount
  }

  // `amount` plain goods of a ware and nothing else, in as few items as can be
  ghost predicate NewGoods(front: Items, ware: Ware, amount: int)
  {
    && (forall i | 0 <= i < |front| :: NewGood(front[i], ware))
    && Amount(front, ware) == amount && |front| == Pieces(ware, amount)
  }

  predicate NewGood(t: Tree<Piece>, ware: Ware)
  {
    t.kids == [] && Tradable(t.val, ware) && CountOk(t.val)
  }

  lemma {:induction false} NewGoodsOffered(front: Items, ware: Ware)
    requires forall i | 0 <= i < |front| :: NewGood(front[i], ware)
    ensures Counts(front)
    ensures forall w: Ware :: Offered(front, w) == if w == ware then Amount(front, ware) else 0
  {
    if front != [] {
      assert NewGood(front[0], ware) && forall i | 0 <= i < |front[1..]| :: front[1..][i] == front[i + 1];
      NewGoodsOffered(front[1..], ware);
    }
  }

  /** New goods at the front of the inbox are all on offer, beside what was. */
  lemma {:induction false} NewGoodsAdd(before: Locker, after: Locker, front: Items, ware: Ware, amount: int)
    requires NewGoods(front, ware, amount) && Counts(before.All())
    requires after.depot == before.depot && after.inbox == front + before.inbox
    ensures Counts(after.All())
    ensures forall w: Ware :: Offered(after.All(), w) == Offered(before.All(), w) + if w == ware then amount else 0
  {
    hide Counts, Offered, Occurs, HasLeaf;
    NewGoodsOffered(front, ware);
    var p := Piece(0, ware, 0, false);
    forall w: Ware
      ensures Counts(after.All())
      ensures Offered(after.All(), w) == Offered(before.All(), w) + if w == ware then amount else 0
    {
      ConcatFacts(before.depot, before.inbox, w, 0, p);
      ConcatFacts(front, before.inbox, w, 0, p);
      ConcatFacts(before.depot, front + before.inbox, w, 0, p);
    }
    ConcatFacts(before.depot, before.inbox, ware, 0, p);
    ConcatFacts(front, before.inbox, ware, 0, p);
    ConcatFacts(before.depot, front + before.inbox, ware, 0, p);
  }

  // ---------- taking exactly the amount sold ----------

  // There are `amount` plain goods of a ware less, and just as many of all others, plain or not.
  ghost predicate Gone(before: Items, after: Items, ware: Ware, amount: int)
  {
    && (forall w: Ware :: Amount(after, w) == Amount(before, w) - if w == ware then amount else 0)
    && (forall w: Ware :: PlainAmount(after, w) == PlainAmount(before, w) - if w == ware then amount else 0)
  }

  // What is still there is where it was: items may be gone or have a smaller count.
  predicate Fewer(after: Items, before: Items)
  {
    if before == [] then after == []
    else
      || (after != [] && LessOf(after[0].val, before[0].val)
        && Fewer(after[0].kids, before[0].kids) && Fewer(after[1..], before[1..]))
      || Fewer(after, before[1..])
  }

  predicate LessOf(p: Piece, q: Piece)
  {
    p == q.(count := p.count) && p.count <= q.count
  }

  lemma {:induction false} FewerItself(ts: Items)
    ensures Fewer(ts, ts)
  {
    if ts != [] {
      FewerItself(ts[0].kids);
      FewerItself(ts[1..]);
    }
  }

  lemma {:induction false} FewerThen(a: Items, b: Items, c: Items)
    requires Fewer(a, b) && Fewer(b, c)
    ensures Fewer(a, c)
    decreases c
  {
    if c != [] {
      if Fewer(b, c[1..]) {
        FewerThen(a, b, c[1..]);
      } else if a != [] && LessOf(a[0].val, b[0].val) && Fewer(a[0].kids, b[0].kids) && Fewer(a[1..], b[1..]) {
        FewerThen(a[0].kids, b[0].kids, c[0].kids);
        FewerThen(a[1..], b[1..], c[1..]);
      } else {
        FewerThen(a, b[1..], c[1..]);
      }
    }
  }

  lemma {:induction false} TakeFewer(ts: Items, id: int, n: nat)
    ensures Fewer(Take(ts, id, n), ts)
  {
    if ts != [] {
      var t, rest := ts[0], ts[1..];
      assert ts == [t] + rest;
      TakeFirst(t, rest, id, n);
      FewerItself(rest);
      if t.kids == [] && t.val.id == id {
        if n < t.val.count {
          assert ([Node(t.val.(count := t.val.count - n), [])] + rest)[1..] == rest;
        } else {
          assert [] + rest == rest;
        }
      } else {
        TakeFewer(t.kids, id, n);
        TakeFewer(rest, id, n);
        assert ([Node(t.val, Take(t.kids, id, n))] + Take(rest, id, n))[1..] == Take(rest, id, n);
      }
    }
  }

  // The items of the list that have not been looked at are still there, each once.
  ghost predicate StillThere(depot: Items, list: seq<Piece>, ware: Ware)
  {
    && Proper(depot)
    && (forall id :: Times(list, id) <= 1)
    && forall p <- list :: HasLeaf(depot, p) && Tradable(p, ware)
  }

  lemma {:induction false} TakeOne(depot: Items, list: seq<Piece>, ware: Ware, n: nat)
    requires list != [] && StillThere(depot, list, ware) && 1 <= n <= list[0].count
    ensures StillThere(Take(depot, list[0].id, n), list[1..], ware)
    ensures Gone(depot, Take(depot, list[0].id, n), ware, n)
  {
    var p := list[0];
    LeafOccurs(depot, p);
    TakeProper(depot, p.id, n);
    forall w: Ware
      ensures Amount(Take(depot, p.id, n), w) == Amount(depot, w) - if w == ware then n else 0
      ensures PlainAmount(Take(depot, p.id, n), w) == PlainAmount(depot, w) - if w == ware then n else 0
    {
      TakeExact(depot, p, n, w);
    }
    forall q | q in list[1..]
      ensures HasLeaf(Take(depot, p.id, n), q) && Tradable(q, ware)
    {
      TimesIn(list[1..], q);
      assert Times(list, p.id) <= 1 && q in list;
      TakeKeepsLeaf(depot, p.id, n, q);
    }
    forall id
      ensures Times(list[1..], id) <= 1
    {
      assert Times(list, id) <= 1;
    }
  }

  lemma {:induction false} TimesIn(list: seq<Piece>, q: Piece)
    requires q in list
    ensures Times(list, q.id) >= 1
  {
    if list[0] != q {
      TimesIn(list[1..], q);
    }
  }

  ghost predicate NoNew(before: Items, after: Items)
  {
    forall id :: Occurs(after, id) <= Occurs(before, id)
  }

  // Nothing of a locker has moved, and nothing is new.
  ghost predicate Left(before: Locker, after: Locker)
  {
    && NoNew(before.All(), after.All())
    && Fewer(after.depot, before.depot) && Fewer(after.inbox, before.inbox)
  }

  lemma {:induction false} LeftItself(l: Locker)
    ensures Left(l, l)
  {
    FewerItself(l.depot);
    FewerItself(l.inbox);
  }

  lemma {:induction false} LeftThen(a: Locker, b: Locker, c: Locker)
    requires Left(a, b) && Left(b, c)
    ensures Left(a, c)
  {
    FewerThen(c.depot, b.depot, a.depot);
    FewerThen(c.inbox, b.inbox, a.inbox);
    forall id
      ensures Occurs(c.All(), id) <= Occurs(a.All(), id)
    {
      assert Occurs(c.All(), id) <= Occurs(b.All(), id);
    }
  }

  // Taking a piece out of the chest or the inbox, wherever it lies
  lemma {:induction false} TakeFromLocker(l: Locker, list: seq<Piece>, ware: Ware, n: nat)
    requires list != [] && StillThere(l.All(), list, ware) && 1 <= n <= list[0].count
    ensures var m := l.Without(list[0].id, n);
      StillThere(m.All(), list[1..], ware) && Gone(l.All(), m.All(), ware, n) && Left(l, m)
  {
    hide HasLeaf, Times, Amount, PlainAmount, Gone, Occurs, Take, Counts, Fewer, Tradable;
    TakeFewer(l.depot, list[0].id, n);
    TakeFewer(l.inbox, list[0].id, n);
    ConcatFacts(l.depot, l.inbox, ware, list[0].id, list[0]);
    TakeConcat(l.depot, l.inbox, list[0].id, n);
    TakeOne(l.All(), list, ware, n);
    forall id
      ensures Occurs(Take(l.All(), list[0].id, n), id) <= Occurs(l.All(), id)
    {
      TakeOccurs(l.All(), list[0].id, n, id);
    }
  }

  // What is left of a locker when the items of a list are taken from, one after the other, until an amount is reached
  function Taken(l: Locker, list: seq<Piece>, amount: int): Locker
    decreases |list|
  {
    if list == [] || amount <= 0 then l
    else
      var n := if amount < list[0].count then amount else list[0].count;
      Taken(l.Without(list[0].id, n), list[1..], amount - n)
  }

  /** Stacks of a stackable ware: pieces are taken from one after the other until the amount is reached. */
  method TakeStacks(locker: Locker, itemList: seq<Piece>, ware: Ware, amount: nat) returns (rest: Locker)
    requires StillThere(locker.All(), itemList, ware) && 1 <= amount <= Sum(itemList)
    ensures Proper(rest.All()) && Gone(locker.All(), rest.All(), ware, amount) && Left(locker, rest)
    ensures rest == Taken(locker, itemList, amount)
  {
    hide Proper, HasLeaf, Times, Amount, PlainAmount, Occurs, Left, Tradable;
    LeftItself(locker);
    rest := locker;
    var tmpAmount := amount;
    var i := 0;
    assert itemList[0..] == itemList;
    while i < |itemList|
      invariant 0 <= i <= |itemList| && 1 <= tmpAmount <= Sum(itemList[i..])
      invariant StillThere(rest.All(), itemList[i..], ware)
      invariant Gone(locker.All(), rest.All(), ware, amount - tmpAmount) && Left(locker, rest)
      invariant Taken(rest, itemList[i..], tmpAmount) == Taken(locker, itemList, amount)
    {
      var item := itemList[i];
      ghost var list := itemList[i..];
      assert list[1..] == itemList[i + 1..];
      LeafCountIn(rest.All(), list, ware);
      var removeCount := if tmpAmount < item.count then tmpAmount else item.count;
      TakeFromLocker(rest, list, ware, removeCount);
      LeftThen(locker, rest, rest.Without(item.id, removeCount));
      rest := rest.Without(item.id, removeCount);
      tmpAmount := tmpAmount - removeCount;
      if tmpAmount == 0 {
        return;
      }
      i := i + 1;
    }
  }

  lemma {:induction false} EachCounts(depot: Items, list: seq<Piece>)
    requires Counts(depot) && forall p <- list :: HasLeaf(depot, p)
    ensures Sum(list) >= |list|
  {
    if list != [] {
      LeafCount(depot, list[0]);
      EachCounts(depot, list[1..]);
    }
  }

  lemma {:induction false} LeafCountIn(depot: Items, list: seq<Piece>, ware: Ware)
    requires list != [] && StillThere(depot, list, ware)
    ensures CountOk(list[0]) && Tradable(list[0], ware)
  {
    LeafCount(depot, list[0]);
  }

  /** Items of a ware that does not stack: every item of the list goes. */
  method TakeSingles(locker: Locker, itemList: seq<Piece>, ware: Ware) returns (rest: Locker)
    requires StillThere(locker.All(), itemList, ware)
    ensures Proper(rest.All()) && Gone(locker.All(), rest.All(), ware, Sum(itemList)) && Left(locker, rest)
    ensures rest == Taken(locker, itemList, Sum(itemList))
  {
    hide HasLeaf, Times, Amount, PlainAmount, Occurs, Left, Tradable, Counts;
    LeftItself(locker);
    rest := locker;
    assert itemList[0..] == itemList;
    for i := 0 to |itemList|
      invariant StillThere(rest.All(), itemList[i..], ware)
      invariant Gone(locker.All(), rest.All(), ware, Sum(itemList) - Sum(itemList[i..]))
        && Left(locker, rest)
      invariant Taken(rest, itemList[i..], Sum(itemList[i..])) == Taken(locker, itemList, Sum(itemList))
    {
      ghost var list := itemList[i..];
      assert list[1..] == itemList[i + 1..];
      LeafCountIn(rest.All(), list, ware);
      EachCounts(locker.All(), list[1..]);
      TakeFromLocker(rest, list, ware, itemList[i].count);
      LeftThen(locker, rest, rest.Without(itemList[i].id, itemList[i].count));
      rest := rest.Without(itemList[i].id, itemList[i].count);
    }
  }
}
