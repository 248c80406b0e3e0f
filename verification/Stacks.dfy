/**
  Adding items to a container and moving them between containers.  Stackable items merge into
  equal stacks of at most 100; what does not fit into one stack goes on into the next.
 */
module Stacks {

  const FULL := 100
  const INDEX_WHEREEVER := -1
  const MOVE_UP := 254
  const ADD_WHEREEVER := 255

  // Two items are equal for stacking when they are of the same kind: same type, same attributes.
  datatype Kind = Kind(id: nat, stackable: bool, pickupable: bool, moveable: bool)
  // The serial number tells two items apart that are otherwise alike.
  datatype Piece = Piece(serial: nat, kind: Kind, count: nat)

  datatype ReturnValue = NoError | NotPossible | CannotPickup | NotMoveable | ContainerNotEnoughRoom

  function Min(a: int, b: int): int
  {
    if a < b then a else b
  }

  // How many goods of a kind a list holds
  function Total(list: seq<Piece>, kind: Kind): int
  {
    if list == [] then 0 else (if list[0].kind == kind then list[0].count else 0) + Total(list[1..], kind)
  }

  // The room left in stacks of a kind
  function Spare(list: seq<Piece>, kind: Kind): nat
  {
    if list == [] then 0 else
      (if list[0].kind == kind && list[0].count < FULL then FULL - list[0].count else 0) + Spare(list[1..], kind)
  }

  ghost predicate StacksOk(list: seq<Piece>)
  {
    forall p <- list :: 1 <= p.count <= FULL && (!p.kind.stackable ==> p.count == 1)
  }

  // No stack of a kind holds more than it should.
  ghost predicate NotOverfull(list: seq<Piece>, kind: Kind)
  {
    forall p <- list :: p.kind == kind ==> p.count <= FULL
  }

  // Nothing of another kind is in the new list that was not in the old one.
  ghost predicate OnlyKind(list: seq<Piece>, list': seq<Piece>, kind: Kind)
  {
    forall p <- list' :: p.kind == kind || p in list
  }

  // The first stack of a kind with room, or -1
  function FirstPartial(list: seq<Piece>, kind: Kind): (i: int)
    ensures -1 <= i < |list|
    ensures i >= 0 ==> list[i].kind == kind && list[i].count < FULL
    ensures forall j | 0 <= j < (if i < 0 then |list| else i) :: !(list[j].kind == kind && list[j].count < FULL)
  {
    if list == [] then -1
    else if list[0].kind == kind && list[0].count < FULL then 0
    else
      var i := FirstPartial(list[1..], kind);
      assert forall j | 0 < j < |list| :: list[j] == list[1..][j - 1];
      if i < 0 then -1 else i + 1
  }

  lemma {:induction false} TotalUpdate(list: seq<Piece>, i: nat, p: Piece, kind: Kind)
    requires i < |list| && p.kind == list[i].kind
    ensures Total(list[i := p], kind) == Total(list, kind) + if p.kind == kind then p.count - list[i].count else 0
  {
    if i > 0 {
      assert list[i := p][1..] == list[1..][i - 1 := p];
      TotalUpdate(list[1..], i - 1, p, kind);
    } else {
      assert list[i := p][1..] == list[1..];
    }
  }

  lemma {:induction false} TotalErase(list: seq<Piece>, i: nat, kind: Kind)
    requires i < |list|
    ensures Total(list[..i] + list[i + 1..], kind) == Total(list, kind) -
      if list[i].kind == kind then list[i].count else 0
  {
    var rest := list[..i] + list[i + 1..];
    if i > 0 {
      assert rest[1..] == list[1..][..i - 1] + list[1..][i..];
      TotalErase(list[1..], i - 1, kind);
    } else {
      assert rest == list[1..];
    }
  }

  lemma {:induction false} SpareUpdate(list: seq<Piece>, i: nat, p: Piece)
    requires i < |list| && p.kind == list[i].kind && p.count <= FULL && list[i].count <= FULL
    ensures Spare(list[i := p], p.kind) == Spare(list, p.kind) + list[i].count - p.count
  {
    if i > 0 {
      assert list[i := p][1..] == list[1..][i - 1 := p];
      SpareUpdate(list[1..], i - 1, p);
    } else {
      assert list[i := p][1..] == list[1..];
    }
  }

  lemma {:induction false} NoSpare(list: seq<Piece>, kind: Kind)
    requires FirstPartial(list, kind) < 0
    ensures Spare(list, kind) == 0
  {
    if list != [] {
      NoSpare(list[1..], kind);
    }
  }

  lemma {:induction false} NoSpareThen(list: seq<Piece>, kind: Kind)
    ensures FirstPartial(list, kind) < 0 ==> Spare(list, kind) == 0
    ensures FirstPartial(list, kind) >= 0 ==> Spare(list, kind) >= FULL - list[FirstPartial(list, kind)].count
  {
    if FirstPartial(list, kind) < 0 {
      NoSpare(list, kind);
    } else {
      SpareAt(list, FirstPartial(list, kind));
    }
  }

  lemma {:induction false} SpareAt(list: seq<Piece>, i: nat)
    requires i < |list| && list[i].count < FULL
    ensures Spare(list, list[i].kind) >= FULL - list[i].count
  {
    if i > 0 {
      SpareAt(list[1..], i - 1);
    }
  }

  // n more pieces on the stack at position t
  function Merged(list: seq<Piece>, t: nat, n: nat): seq<Piece>
    requires t < |list|
  {
    list[t := list[t].(count := list[t].count + n)]
  }

  lemma {:induction false} MergedFacts(list: seq<Piece>, t: nat, n: nat)
    requires t < |list| && list[t].kind.stackable && list[t].count + n <= FULL
    ensures StacksOk(list) ==> StacksOk(Merged(list, t, n))
    ensures |Merged(list, t, n)| == |list| && OnlyKind(list, Merged(list, t, n), list[t].kind)
    ensures NotOverfull(list, list[t].kind) ==> NotOverfull(Merged(list, t, n), list[t].kind)
    ensures forall kind :: Total(Merged(list, t, n), kind) == Total(list, kind) + if kind == list[t].kind then n else 0
    ensures Spare(Merged(list, t, n), list[t].kind) == Spare(list, list[t].kind) - n
  {
    var p := list[t].(count := list[t].count + n);
    forall kind
      ensures Total(Merged(list, t, n), kind) == Total(list, kind) + if kind == list[t].kind then n else 0
    {
      TotalUpdate(list, t, p, kind);
    }
    SpareUpdate(list, t, p);
    assert forall q <- Merged(list, t, n) :: q == p || q in list;
  }

  // ---------- filling up the stacks there are ----------

  // n pieces of a kind go into the stacks with room, the first of them first.
  function Filled(list: seq<Piece>, kind: Kind, n: nat): seq<Piece>
  {
    if list == [] then []
    else if list[0].kind == kind && list[0].count < FULL then
      var k := Min(FULL - list[0].count, n);
      [list[0].(count := list[0].count + k)] + Filled(list[1..], kind, n - k)
    else [list[0]] + Filled(list[1..], kind, n)
  }

  // What adding an item leaves: what finds no room in stacks of its kind lies in front.
  function Added(list: seq<Piece>, item: Piece, merging: bool): seq<Piece>
  {
    if !item.kind.stackable || !merging || (item.count == 0 && FirstPartial(list, item.kind) < 0) then [item] + list
    else if item.count > Spare(list, item.kind) then
      [item.(count := item.count - Spare(list, item.kind))] + Filled(list, item.kind, Spare(list, item.kind))
    else Filled(list, item.kind, item.count)
  }

  lemma {:induction false} FilledNothing(list: seq<Piece>, kind: Kind)
    ensures Filled(list, kind, 0) == list
  {
    if list != [] {
      FilledNothing(list[1..], kind);
    }
  }

  // The first stack with room takes what it can, and the others the rest.
  lemma {:induction false} FilledFirst(list: seq<Piece>, kind: Kind, n: nat)
    requires FirstPartial(list, kind) >= 0
    ensures var t := FirstPartial(list, kind);
      var k := Min(FULL - list[t].count, n);
      Filled(list, kind, n) == Filled(Merged(list, t, k), kind, n - k)
  {
    var t := FirstPartial(list, kind);
    var k := Min(FULL - list[t].count, n);
    var merged := Merged(list, t, k);
    if t == 0 {
      assert merged[1..] == list[1..];
      if merged[0].count < FULL {
        assert k == n;
      }
    } else {
      assert FirstPartial(list[1..], kind) == t - 1;
      FilledFirst(list[1..], kind, n);
      assert merged[1..] == Merged(list[1..], t - 1, k);
    }
  }

  /** A stack gets pieces only when all stacks of its kind before it are full. */
  lemma {:induction false} FilledInOrder(list: seq<Piece>, kind: Kind, n: nat, i: nat, j: nat)
    requires i < j < |list|
    ensures |Filled(list, kind, n)| == |list| && AtLeast(Filled(list, kind, n)[j], list[j])
    ensures Filled(list, kind, n)[j] != list[j] ==> list[j].kind == kind
    ensures Filled(list, kind, n)[j] != list[j] && list[i].kind == kind ==> Filled(list, kind, n)[i].count >= FULL
    ensures list[j].count <= FULL ==> Filled(list, kind, n)[j].count <= FULL
  {
    var k := if list[0].kind == kind && list[0].count < FULL then Min(FULL - list[0].count, n) else 0;
    FilledFacts(list, kind, n);
    FilledFacts(list[1..], kind, n - k);
    if i > 0 {
      FilledInOrder(list[1..], kind, n - k, i - 1, j - 1);
    } else if n == k {
      FilledNothing(list[1..], kind);
    } else if j > 1 {
      FilledInOrder(list[1..], kind, n - k, 0, j - 1);
    }
  }

  lemma {:induction false} FilledFacts(list: seq<Piece>, kind: Kind, n: nat)
    ensures |Filled(list, kind, n)| == |list|
    ensures forall i | 0 <= i < |list| :: AtLeast(Filled(list, kind, n)[i], list[i])
    ensures forall i | 0 <= i < |list| ::
      list[i].count <= Filled(list, kind, n)[i].count <= if list[i].count < FULL then FULL else list[i].count
    ensures forall i | 0 <= i < |list| && list[i].kind != kind :: Filled(list, kind, n)[i] == list[i]
  {
    if list != [] {
      var k := if list[0].kind == kind && list[0].count < FULL then Min(FULL - list[0].count, n) else 0;
      FilledFacts(list[1..], kind, n - k);
    }
  }

  // Joining the first stack with room is the first step of adding; the rest is added as an item of its own.
  lemma {:induction false} AddedMerged(list: seq<Piece>, item: Piece, n: nat)
    ensures item.kind.stackable && FirstPartial(list, item.kind) >= 0 ==>
      n == Min(FULL - list[FirstPartial(list, item.kind)].count, item.count) ==>
      var merged := Merged(list, FirstPartial(list, item.kind), n);
      && (n == item.count ==> Added(list, item, true) == merged)
      && (n < item.count ==> Added(list, item, true) == Added(merged, item.(count := item.count - n), true))
  {
    hide Filled, Spare, FirstPartial;
    var t := FirstPartial(list, item.kind);
    if item.kind.stackable && t >= 0 && n == Min(FULL - list[t].count, item.count) {
      var merged := Merged(list, t, n);
      NoSpareThen(list, item.kind);
      MergedFacts(list, t, n);
      FilledFirst(list, item.kind, item.count);
      FilledNothing(merged, item.kind);
      if n < item.count {
        FilledFirst(list, item.kind, Spare(list, item.kind));
      }
    }
  }

  lemma {:induction false} AddedWhole(list: seq<Piece>, item: Piece, merging: bool)
    ensures FirstPartial(list, item.kind) < 0 || !item.kind.stackable || !merging ==>
      Added(list, item, merging) == [item] + list
  {
    hide Filled, Spare, FirstPartial;
    NoSpareThen(list, item.kind);
    FilledNothing(list, item.kind);
  }

  lemma {:induction false} FilledTotals(list: seq<Piece>, kind: Kind, n: nat, k: Kind)
    requires n <= Spare(list, kind)
    ensures Total(Filled(list, kind, n), k) == Total(list, k) + if k == kind then n else 0
  {
    if list != [] {
      var m := if list[0].kind == kind && list[0].count < FULL then Min(FULL - list[0].count, n) else 0;
      FilledTotals(list[1..], kind, n - m, k);
      FilledFacts(list[1..], kind, n - m);
    }
  }

  lemma {:induction false} CountInRange(list: seq<Piece>, i: nat)
    requires i < |list| && NotOverfull(list, list[i].kind)
    ensures list[i].count <= FULL
  {
  }

  lemma {:induction false} AddedFacts(list: seq<Piece>, item: Piece, merging: bool)
    requires NotOverfull(list, item.kind) && (!item.kind.stackable ==> item.count == 1)
    ensures forall kind ::
      Total(Added(list, item, merging), kind) == Total(list, kind) + if kind == item.kind then item.count else 0
    ensures StacksOk(list) && 1 <= item.count <= FULL ==> StacksOk(Added(list, item, merging))
    ensures OnlyKind(list, Added(list, item, merging), item.kind)
    ensures Grown(list, Added(list, item, merging), item.serial)
    ensures |Added(list, item, merging)| == |list| +
      if !item.kind.stackable || !merging || item.count > Spare(list, item.kind)
        || (item.count == 0 && FirstPartial(list, item.kind) < 0) then 1 else 0
  {
    hide Total, Spare, FirstPartial, StacksOk, Filled, OnlyKind, Grown, NotOverfull;
    if !item.kind.stackable || !merging || (item.count == 0 && FirstPartial(list, item.kind) < 0) {
      FrontFacts(list, item);
      GrownAtOnce(list, item);
    } else {
      var n := Min(item.count, Spare(list, item.kind));
      FilledShape(list, item.kind, n, item.serial);
      if item.count > n {
        InFrontOf(list, Filled(list, item.kind, n), item.(count := item.count - n), n);
      }
    }
  }

  lemma {:induction false} FilledShape(list: seq<Piece>, kind: Kind, n: nat, serial: nat)
    requires kind.stackable && n <= Spare(list, kind)
    ensures var filled := Filled(list, kind, n);
      && (forall k :: Total(filled, k) == Total(list, k) + if k == kind then n else 0)
      && (StacksOk(list) ==> StacksOk(filled)) && OnlyKind(list, filled, kind) && Grown(list, filled, serial)
      && |filled| == |list|
  {
    hide Total, Spare, StacksOk, Filled, OnlyKind, Grown;
    FilledFacts(list, kind, n);
    FilledIsOk(list, kind, n);
    FilledGrown(list, kind, n, serial);
    forall k
      ensures Total(Filled(list, kind, n), k) == Total(list, k) + if k == kind then n else 0
    {
      FilledTotals(list, kind, n, k);
    }
  }

  lemma {:induction false} InFrontOf(list: seq<Piece>, filled: seq<Piece>, p: Piece, n: nat)
    requires forall k :: Total(filled, k) == Total(list, k) + if k == p.kind then n else 0
    requires |filled| == |list| && OnlyKind(list, filled, p.kind) && Grown(list, filled, p.serial) && p.kind.stackable
    ensures var added := [p] + filled;
      && (forall k :: Total(added, k) == Total(list, k) + if k == p.kind then n + p.count else 0)
      && (StacksOk(filled) && 1 <= p.count <= FULL ==> StacksOk(added))
      && OnlyKind(list, added, p.kind) && Grown(list, added, p.serial)
  {
    hide Total, StacksOk, OnlyKind, Grown;
    FrontFacts(filled, p);
    OnlyKindThen(list, filled, [p] + filled, p.kind);
    GrownInFront(list, filled, p);
  }

  lemma {:induction false} FilledIsOk(list: seq<Piece>, kind: Kind, n: nat)
    requires kind.stackable
    ensures StacksOk(list) ==> StacksOk(Filled(list, kind, n))
    ensures OnlyKind(list, Filled(list, kind, n), kind)
  {
    FilledFacts(list, kind, n);
    var filled := Filled(list, kind, n);
    forall p | p in filled
      ensures p.kind == kind || p in list
      ensures StacksOk(list) ==> 1 <= p.count <= FULL && (!p.kind.stackable ==> p.count == 1)
    {
      var i :| 0 <= i < |filled| && filled[i] == p;
      assert AtLeast(filled[i], list[i]) && list[i] in list;
    }
  }

  lemma {:induction false} FilledGrown(list: seq<Piece>, kind: Kind, n: nat, serial: nat)
    ensures Grown(list, Filled(list, kind, n), serial)
  {
    hide Filled;
    FilledFacts(list, kind, n);
    forall i | 0 <= i < |list|
      ensures AtLeast(Filled(list, kind, n)[i], list[i - 0])
    {
    }
  }

  lemma {:induction false} GrownInFront(list: seq<Piece>, filled: seq<Piece>, p: Piece)
    requires |filled| == |list| && Grown(list, filled, p.serial)
    ensures Grown(list, [p] + filled, p.serial)
  {
    forall i | 0 <= i < |list|
      ensures AtLeast(([p] + filled)[i + 1], list[i])
    {
      assert AtLeast(filled[i], list[i - 0]);
    }
  }

  /** A new stack appears if and only if the stacks of the kind have no room for all pieces. */
  lemma {:induction false} NewStackExactly(list: seq<Piece>, item: Piece)
    requires item.kind.stackable && item.count >= 1
    ensures |Added(list, item, true)| == |list| + if item.count > Spare(list, item.kind) then 1 else 0
  {
    FilledFacts(list, item.kind, item.count);
    FilledFacts(list, item.kind, Spare(list, item.kind));
  }

  lemma {:induction false} OnlyItself(list: seq<Piece>, kind: Kind)
    ensures OnlyKind(list, list, kind)
  {
  }

  lemma {:induction false} OnlyKindThen(a: seq<Piece>, b: seq<Piece>, c: seq<Piece>, kind: Kind)
    requires OnlyKind(a, b, kind) && OnlyKind(b, c, kind)
    ensures OnlyKind(a, c, kind)
  {
  }

  lemma {:induction false} NothingMerged(list: seq<Piece>, t: nat)
    requires t < |list|
    ensures Merged(list, t, 0) == list
  {
  }

  lemma {:induction false} FrontFacts(list: seq<Piece>, p: Piece)
    requires !p.kind.stackable ==> p.count == 1
    ensures StacksOk(list) && 1 <= p.count <= FULL ==> StacksOk([p] + list)
    ensures |[p] + list| == |list| + 1 && OnlyKind(list, [p] + list, p.kind)
    ensures forall kind :: Total([p] + list, kind) == Total(list, kind) + if kind == p.kind then p.count else 0
  {
    assert ([p] + list)[1..] == list;
  }

  // An addition keeps every item in its place counted from the back; at most one new item comes in front.
  ghost predicate Grown(list: seq<Piece>, grown: seq<Piece>, serial: nat)
  {
    var d := |grown| - |list|;
    && 0 <= d <= 1
    && (d == 1 ==> grown[0].serial == serial)
    && forall i | d <= i < |grown| :: AtLeast(grown[i], list[i - d])
  }

  // The same item, perhaps with a larger count
  ghost predicate AtLeast(p: Piece, q: Piece)
  {
    p.serial == q.serial && p.kind == q.kind && p.count >= q.count
  }

  lemma {:induction false} GrownAfterMerge(list: seq<Piece>, t: nat, n: nat, grown: seq<Piece>, serial: nat)
    requires t < |list| && Grown(Merged(list, t, n), grown, serial)
    ensures Grown(list, grown, serial)
  {
    var d := |grown| - |list|;
    forall i | d <= i < |grown|
      ensures AtLeast(grown[i], list[i - d])
    {
      assert AtLeast(grown[i], Merged(list, t, n)[i - d]);
    }
  }

  lemma {:induction false} GrownAtOnce(list: seq<Piece>, item: Piece)
    ensures Grown(list, list, item.serial) && Grown(list, [item] + list, item.serial)
  {
  }

  lemma {:induction false} GrownByMerge(list: seq<Piece>, t: nat, n: nat, serial: nat)
    requires t < |list|
    ensures Grown(list, Merged(list, t, n), serial)
  {
  }

  class Container {
    const capacity: nat
    const unlocked: bool
    var itemlist: seq<Piece>

    constructor (capacity: nat, unlocked: bool)
      ensures this.capacity == capacity && this.unlocked == unlocked && itemlist == []
    {
      this.capacity, this.unlocked, itemlist := capacity, unlocked, [];
    }

    function FreeSlots(): nat
      reads this`itemlist
    {
      if capacity > |itemlist| then capacity - |itemlist| else 0
    }

    // Whether there is a stack with room for goods of a kind
    predicate Stacking(kind: Kind)
      reads this`itemlist
    {
      kind.stackable && FirstPartial(itemlist, kind) >= 0
    }

    /** Where an item that is not in this container would go: the stack it joins (or -1) and the index. */
    method QueryDestination(index: int, item: Piece) returns (destItem: int, index': int)
      ensures -1 <= destItem < |itemlist|
      ensures unlocked && index == MOVE_UP ==> destItem == -1 && index' == INDEX_WHEREEVER
      ensures unlocked && index != MOVE_UP && Stacking(item.kind) ==>
        destItem == index' == FirstPartial(itemlist, item.kind)
      ensures unlocked && index != MOVE_UP && !Stacking(item.kind) ==>
        && index' == (if index == ADD_WHEREEVER || index >= capacity then INDEX_WHEREEVER else index)
        && destItem == if 0 <= index' < |itemlist| then index' else -1
      ensures !unlocked ==> destItem == -1 && index' == index
    {
      destItem, index' := -1, index;
      if !unlocked {
        return;
      }
      if index == MOVE_UP {
        return -1, INDEX_WHEREEVER;
      }
      if index == ADD_WHEREEVER {
        index' := INDEX_WHEREEVER;
      } else if index >= capacity {
        index' := INDEX_WHEREEVER;
      }
      if item.kind.stackable {
        var n := 0;
        while n < |itemlist|
          invariant 0 <= n <= |itemlist|
          invariant forall j | 0 <= j < n :: !(itemlist[j].kind == item.kind && itemlist[j].count < FULL)
        {
          if itemlist[n].kind == item.kind && itemlist[n].count < FULL {
            return n, n;
          }
          n := n + 1;
        }
      }
      if index' != INDEX_WHEREEVER {
        if 0 <= index' < |itemlist| {
          destItem := index';
        }
      }
    }

    /** The container's own conditions; it has no parents in which the item could lie. */
    method QueryAdd(index: int, item: Piece) returns (r: ReturnValue)
      ensures r == NoError <==>
        unlocked && item.kind.pickupable && !(index == INDEX_WHEREEVER && |itemlist| >= capacity)
      ensures r != NoError ==>
        r == if !unlocked then NotPossible else if !item.kind.pickupable then CannotPickup else ContainerNotEnoughRoom
    {
      if !unlocked {
        return NotPossible;
      }
      if !item.kind.pickupable {
        return CannotPickup;
      }
      if index == INDEX_WHEREEVER && |itemlist| >= capacity {
        return ContainerNotEnoughRoom;
      }
      r := NoError;
    }

    // What queryMaxCount reports for an index
    function MaxCount(index: int, kind: Kind): int
      reads this`itemlist
    {
      if !kind.stackable then FreeSlots() else
        FreeSlots() * FULL + (
          if !unlocked || !kind.pickupable then 0
          else if index == INDEX_WHEREEVER then Spare(itemlist, kind)
          else if 0 <= index < |itemlist| && itemlist[index].kind == kind && itemlist[index].count < FULL
            then FULL - itemlist[index].count
          else 0)
    }

    method QueryMaxCount(index: int, item: Piece, count: nat) returns (r: ReturnValue, maxQueryCount: int)
      ensures maxQueryCount == MaxCount(index, item.kind)
      ensures r == NoError <==> if item.kind.stackable then maxQueryCount >= count else maxQueryCount > 0
      ensures r == NoError || r == ContainerNotEnoughRoom
    {
      if item.kind.stackable {
        var n := 0;
        if index == INDEX_WHEREEVER {
          var slotIndex := 0;
          assert itemlist[0..] == itemlist;
          for i := 0 to |itemlist|
            invariant slotIndex >= 0
            invariant if unlocked && item.kind.pickupable
              then n + Spare(itemlist[i..], item.kind) == Spare(itemlist, item.kind)
              else n == 0
          {
            assert itemlist[i..][1..] == itemlist[i + 1..];
            if itemlist[i].kind == item.kind && itemlist[i].count < FULL {
              var remainder := FULL - itemlist[i].count;
              var q := QueryAdd(slotIndex, item);
              slotIndex := slotIndex + 1;
              if q == NoError {
                n := n + remainder;
              }
            }
          }
        } else if 0 <= index < |itemlist| && itemlist[index].kind == item.kind && itemlist[index].count < FULL {
          var q := QueryAdd(index, item);
          if q == NoError {
            n := FULL - itemlist[index].count;
          }
        }
        maxQueryCount := FreeSlots() * FULL + n;
        if maxQueryCount < count {
          return ContainerNotEnoughRoom, maxQueryCount;
        }
      } else {
        maxQueryCount := FreeSlots();
        if maxQueryCount == 0 {
          return ContainerNotEnoughRoom, maxQueryCount;
        }
      }
      r := NoError;
    }

    method AddThing(index: int, item: Piece)
      modifies this`itemlist
      ensures itemlist == if index >= capacity then old(itemlist) else [item] + old(itemlist)
    {
      if index >= capacity {
        return;
      }
      itemlist := [item] + itemlist;
    }

    // ---------- internalAddItem ----------

    ghost predicate Fits(item: Piece)
      reads this`itemlist
    {
      && unlocked && item.kind.pickupable
      && (if item.kind.stackable then item.count <= FreeSlots() * FULL + Spare(itemlist, item.kind)
        else FreeSlots() > 0)
      && (item.count == 0 ==> FreeSlots() > 0 || Stacking(item.kind))
    }

    /**
      Adds an item at an index or wherever there is room for it.  It succeeds exactly when the free slots and the
      equal stacks have room for all of it (for the index that means the parent, only if a slot
      is free); then nothing is left over, and otherwise nothing changes.  The count may be any that a byte holds.
     */
    method InternalAddItem(at: int, item: Piece) returns (r: ReturnValue, remainderCount: nat)
      requires NotOverfull(itemlist, item.kind) && item.count < 256 && (!item.kind.stackable ==> item.count == 1)
      requires item.count == 0 ==> at == INDEX_WHEREEVER
      modifies this`itemlist
      ensures r == NoError <==> old(Fits(item)) && (at == MOVE_UP ==> old(FreeSlots()) > 0)
      ensures remainderCount == 0
      ensures r != NoError ==>
        r == if !unlocked then NotPossible else if !item.kind.pickupable then CannotPickup else ContainerNotEnoughRoom
      ensures r != NoError ==> itemlist == old(itemlist)
      ensures r == NoError ==> itemlist == Added(old(itemlist), item, at != MOVE_UP)
      ensures r == NoError ==> forall kind ::
        Total(itemlist, kind) == Total(old(itemlist), kind) + if kind == item.kind then item.count else 0
      ensures StacksOk(old(itemlist)) && 1 <= item.count <= FULL ==> StacksOk(itemlist)
      ensures OnlyKind(old(itemlist), itemlist, item.kind) && |itemlist| >= |old(itemlist)|
      ensures |itemlist| <= if |old(itemlist)| > capacity then |old(itemlist)| else capacity
      ensures Grown(old(itemlist), itemlist, item.serial)
      decreases item.count
    {
      hide Total, Spare, FirstPartial, StacksOk, Grown, Merged, OnlyKind, Added, NotOverfull;
      remainderCount := 0;
      AddedFacts(itemlist, item, at != MOVE_UP);
      NoSpareThen(itemlist, item.kind);
      OnlyItself(itemlist, item.kind);
      GrownAtOnce(itemlist, item);
      var toItem, index := QueryDestination(at, item);
      r := QueryAdd(index, item);
      if r != NoError {
        return;
      }
      var maxQueryCount;
      r, maxQueryCount := QueryMaxCount(INDEX_WHEREEVER, item, item.count);
      if r != NoError {
        return;
      }
      AddedWhole(itemlist, item, at != MOVE_UP);
      if item.kind.stackable && toItem >= 0 && itemlist[toItem].kind == item.kind {
        CountInRange(itemlist, toItem);
        var m := Min(item.count, maxQueryCount);
        var n := Min(FULL - itemlist[toItem].count, m);
        MergedFacts(itemlist, toItem, n);
        NothingMerged(itemlist, toItem);
        AddedMerged(itemlist, item, n);
        itemlist := Merged(itemlist, toItem, n);
        var count := m - n;
        if count > 0 {
          if item.count != count {
            var ret, rest := InternalAddItem(INDEX_WHEREEVER, item.(count := count));
            if ret != NoError {
              remainderCount := count;
            }
          } else {
            AddThing(index, item);
          }
        }
      } else {
        AddThing(index, item);
      }
    }

    // ---------- the parts of internalMoveItem ----------

    method QueryRemove(i: nat, count: int) returns (r: ReturnValue)
      requires i < |itemlist|
      ensures r == NoError <==>
        count != 0 && !(itemlist[i].kind.stackable && count > itemlist[i].count) && itemlist[i].kind.moveable
      ensures r != NoError ==>
        r == if count == 0 || (itemlist[i].kind.stackable && count > itemlist[i].count) then NotPossible
          else NotMoveable
    {
      if count == 0 || (itemlist[i].kind.stackable && count > itemlist[i].count) {
        return NotPossible;
      }
      if !itemlist[i].kind.moveable {
        return NotMoveable;
      }
      r := NoError;
    }

    method RemoveThing(i: nat, count: nat)
      requires i < |itemlist| && (itemlist[i].kind.stackable ==> count <= itemlist[i].count)
      modifies this`itemlist
      ensures itemlist == Removed(old(itemlist), i, count)
    {
      if itemlist[i].kind.stackable && count != itemlist[i].count {
        itemlist := itemlist[i := itemlist[i].(count := itemlist[i].count - count)];
      } else {
        itemlist := itemlist[..i] + itemlist[i + 1..];
      }
    }

    /** Puts m pieces of an item onto the stack it joins, and what does not fit there in front. */
    method TakeIn(toItem: int, index: int, item: Piece, m: nat, ghost merging: bool)
      requires -1 <= toItem < |itemlist| && index < capacity && 1 <= m && (!item.kind.stackable ==> m == item.count)
      requires Receives(itemlist, item.kind, toItem, merging)
      modifies this`itemlist
      ensures itemlist == Joined(old(itemlist), item, m, merging)
    {
      hide FirstPartial;
      if item.kind.stackable {
        var n := 0;
        if toItem >= 0 && itemlist[toItem].kind == item.kind {
          n := Min(FULL - itemlist[toItem].count, m);
          assert n == 0 ==> Merged(itemlist, toItem, n) == itemlist;
          itemlist := Merged(itemlist, toItem, n);
        }
        var newCount := m - n;
        if newCount > 0 {
          AddThing(index, item.(count := newCount));
        }
      } else {
        AddThing(index, item);
      }
    }
  }

  function Removed(list: seq<Piece>, i: nat, m: nat): seq<Piece>
    requires i < |list| && (list[i].kind.stackable ==> m <= list[i].count)
  {
    if list[i].kind.stackable && m != list[i].count then list[i := list[i].(count := list[i].count - m)]
    else list[..i] + list[i + 1..]
  }

  lemma {:induction false} RemovedTotal(list: seq<Piece>, i: nat, m: nat, kind: Kind)
    requires i < |list| && (if list[i].kind.stackable then m <= list[i].count else m == list[i].count)
    ensures Total(Removed(list, i, m), kind) == Total(list, kind) - if kind == list[i].kind then m else 0
  {
    if m != list[i].count {
      TotalUpdate(list, i, list[i].(count := list[i].count - m), kind);
    } else {
      TotalErase(list, i, kind);
    }
  }

  lemma {:induction false} RemovedStacksOk(list: seq<Piece>, i: nat, m: nat)
    requires i < |list| && StacksOk(list) && (list[i].kind.stackable ==> m <= list[i].count)
    ensures StacksOk(Removed(list, i, m)) && |Removed(list, i, m)| <= |list|
  {
    var p := list[i];
    assert p in list;
    forall q | q in Removed(list, i, m)
      ensures 1 <= q.count <= FULL && (!q.kind.stackable ==> q.count == 1)
    {
      assert q in list || (p.kind.stackable && m < p.count && q == p.(count := p.count - m));
    }
  }

  // The list after m pieces of an item came in: onto the first stack with room, if they are to be merged, and the rest
  // as a new stack in front
  function Joined(list: seq<Piece>, item: Piece, m: nat, merging: bool): seq<Piece>
  {
    var t := FirstPartial(list, item.kind);
    if merging && item.kind.stackable && t >= 0 then
      var n := Min(FULL - list[t].count, m);
      (if m > n then [item.(count := m - n)] else []) + Merged(list, t, n)
    else [item.(count := m)] + list
  }

  lemma {:induction false} JoinedFacts(list: seq<Piece>, item: Piece, m: nat, merging: bool)
    requires StacksOk(list) && 1 <= m <= FULL && (!item.kind.stackable ==> m == 1)
    ensures StacksOk(Joined(list, item, m, merging))
    ensures |Joined(list, item, m, merging)| <= |list| + 1
    ensures merging && item.kind.stackable && FirstPartial(list, item.kind) >= 0
      && m <= FULL - list[FirstPartial(list, item.kind)].count
      ==> |Joined(list, item, m, merging)| == |list|
    ensures forall kind ::
      Total(Joined(list, item, m, merging), kind) == Total(list, kind) + if kind == item.kind then m else 0
  {
    hide Total, StacksOk, FirstPartial;
    var t := FirstPartial(list, item.kind);
    if merging && item.kind.stackable && t >= 0 {
      var n := Min(FULL - list[t].count, m);
      MergedFacts(list, t, n);
      if m > n {
        FrontFacts(Merged(list, t, n), item.(count := m - n));
      } else {
        assert Joined(list, item, m, merging) == Merged(list, t, n);
      }
    } else {
      FrontFacts(list, item.(count := m));
    }
  }

  // One move conserves goods and keeps stacks in range
  lemma {:induction false} MoveFacts(from: seq<Piece>, to: seq<Piece>, i: nat, m: nat, merging: bool)
    requires i < |from| && StacksOk(from) && StacksOk(to)
    requires 1 <= m <= from[i].count
    ensures from[i].count <= FULL && (!from[i].kind.stackable ==> from[i].count == 1)
    ensures StacksOk(Removed(from, i, m)) && |Removed(from, i, m)| <= |from|
    ensures StacksOk(Joined(to, from[i], m, merging)) && |Joined(to, from[i], m, merging)| <= |to| + 1
    ensures merging && from[i].kind.stackable && FirstPartial(to, from[i].kind) >= 0
      && m <= FULL - to[FirstPartial(to, from[i].kind)].count
      ==> |Joined(to, from[i], m, merging)| == |to|
    ensures forall kind ::
      Total(Removed(from, i, m), kind) + Total(Joined(to, from[i], m, merging), kind) ==
        Total(from, kind) + Total(to, kind)
  {
    SomePiece(from, i);
    RemovedStacksOk(from, i, m);
    JoinedFacts(to, from[i], m, merging);
    forall kind
      ensures Total(Removed(from, i, m), kind) == Total(from, kind) - if kind == from[i].kind then m else 0
    {
      RemovedTotal(from, i, m, kind);
    }
  }

  // How much of an item the destination takes: a full stack for each free slot, and the room in the first equal stack;
  // or, for the index that means the parent, the room in all of them, but only if a slot is free
  function Room(to: Container, kind: Kind, index: int): nat
    reads to`itemlist
  {
    if !kind.stackable then to.FreeSlots()
    else if index == MOVE_UP then if to.FreeSlots() == 0 then 0 else to.FreeSlots() * FULL + Spare(to.itemlist, kind)
    else
      var t := FirstPartial(to.itemlist, kind);
      to.FreeSlots() * FULL + if t >= 0 then FULL - to.itemlist[t].count else 0
  }

  // Where the destination sends an item, it has that room.
  lemma {:induction false} MaxCountIsRoom(to: Container, index: int, toItem: int, at: int, item: Piece)
    requires StacksOk(to.itemlist) && |to.itemlist| <= to.capacity && to.unlocked && item.kind.pickupable
    requires -1 <= toItem < |to.itemlist| && (index == MOVE_UP ==> at == INDEX_WHEREEVER && toItem == -1)
    requires index != MOVE_UP && to.Stacking(item.kind) ==> toItem == at == FirstPartial(to.itemlist, item.kind)
    requires index != MOVE_UP && !to.Stacking(item.kind) ==>
      && at == (if index == ADD_WHEREEVER || index >= to.capacity then INDEX_WHEREEVER else index)
      && toItem == if 0 <= at < |to.itemlist| then at else -1
    ensures at < to.capacity
    ensures to.MaxCount(at, item.kind) == Room(to, item.kind, index)
      || (at == INDEX_WHEREEVER && |to.itemlist| >= to.capacity)
    ensures at == INDEX_WHEREEVER && |to.itemlist| >= to.capacity ==> Room(to, item.kind, index) == 0
    ensures Receives(to.itemlist, item.kind, toItem, index != MOVE_UP)
  {
    NoSpareThen(to.itemlist, item.kind);
    if toItem >= 0 {
      SomePiece(to.itemlist, toItem);
    }
  }

  // What a move of `count` pieces of an item takes from its stack
  function Allowed(to: Container, item: Piece, index: int, count: nat): (m: nat)
    reads to`itemlist
    ensures m <= item.count
  {
    var m := if item.kind.stackable then Min(count, Room(to, item.kind, index)) else Min(1, Room(to, item.kind, index));
    if to.unlocked && item.kind.pickupable && item.kind.moveable && m <= item.count then m else 0
  }

  // ---------- internalMoveItem between two different containers ----------

  /** The second half of a move, once it is known how much: out of one container and into the other. */
  method Transfer(from: Container, to: Container, i: nat, toItem: int, at: int, m: nat, ghost merging: bool)
    requires from != to && i < |from.itemlist| && -1 <= toItem < |to.itemlist| && at < to.capacity
    requires StacksOk(from.itemlist) && StacksOk(to.itemlist) && 1 <= m <= from.itemlist[i].count
    requires Receives(to.itemlist, from.itemlist[i].kind, toItem, merging)
    modifies from`itemlist, to`itemlist
    ensures from.itemlist == Removed(old(from.itemlist), i, m)
    ensures to.itemlist == Joined(old(to.itemlist), old(from.itemlist[i]), m, merging)
    ensures StacksOk(from.itemlist) && StacksOk(to.itemlist) && |from.itemlist| <= |old(from.itemlist)|
    ensures forall kind ::
      Total(from.itemlist, kind) + Total(to.itemlist, kind) ==
        Total(old(from.itemlist), kind) + Total(old(to.itemlist), kind)
  {
    hide Total, Spare, FirstPartial, StacksOk, Joined;
    MoveFacts(from.itemlist, to.itemlist, i, m, merging);
    if toItem >= 0 { SomePiece(to.itemlist, toItem); }
    var item := from.itemlist[i];
    from.RemoveThing(i, m);
    to.TakeIn(toItem, at, item, m, merging);
  }

  /** The first half of a move: whether it is possible, where the item goes and how much of it. */
  method QueryMove(from: Container, to: Container, index: int, i: nat, count: nat)
    returns (r: ReturnValue, retMaxCount: ReturnValue, toItem: int, at: int, m: nat)
    requires i < |from.itemlist| && StacksOk(from.itemlist) && StacksOk(to.itemlist) && |to.itemlist| <= to.capacity
    ensures -1 <= toItem < |to.itemlist|
    ensures Allowed(to, from.itemlist[i], index, count) == if r == NoError then m else 0
    ensures r == NoError ==> 1 <= m <= from.itemlist[i].count && at < to.capacity
    ensures r == NoError ==> Receives(to.itemlist, from.itemlist[i].kind, toItem, index != MOVE_UP)
    ensures r == NoError && from.itemlist[i].kind.stackable ==> (retMaxCount == NoError <==> m == count)
    ensures retMaxCount == NoError || retMaxCount == ContainerNotEnoughRoom
    ensures r != NoError ==> RefusedBecause(r, from.itemlist[i], to, index, count)
  {
    hide Total, Spare, FirstPartial, StacksOk, Room, Merged, Joined, Removed, Receives;
    retMaxCount, m := NoError, 0;
    var item := from.itemlist[i];
    SomePiece(from.itemlist, i);
    toItem, at := to.QueryDestination(index, item);
    if to.unlocked && item.kind.pickupable { MaxCountIsRoom(to, index, toItem, at, item); }
    r := to.QueryAdd(at, item);
    if r != NoError {
      return;
    }
    var maxQueryCount;
    retMaxCount, maxQueryCount := to.QueryMaxCount(at, item, count);
    if retMaxCount != NoError && maxQueryCount == 0 {
      r := retMaxCount;
      return;
    }
    m := if item.kind.stackable then Min(count, maxQueryCount) else maxQueryCount;
    r := from.QueryRemove(i, m);
    if !item.kind.stackable {
      m := 1;
    }
  }

  // The reason for which nothing moves
  predicate RefusedBecause(r: ReturnValue, item: Piece, to: Container, index: int, count: nat)
    reads to`itemlist
  {
    if !to.unlocked then r == NotPossible
    else if !item.kind.pickupable then r == CannotPickup
    else if Room(to, item.kind, index) == 0 then r == ContainerNotEnoughRoom || (count == 0 && r == NotPossible)
    else if item.kind.stackable && (count == 0 || item.count < Min(count, Room(to, item.kind, index))) then
      r == NotPossible
    else r == NotMoveable && !item.kind.moveable
  }

  // The item at toItem, if any, takes what it can of a kind: it is the first stack with room, or no stack of
  // the kind has room.
  ghost predicate Receives(list: seq<Piece>, kind: Kind, toItem: int, merging: bool)
    requires -1 <= toItem < |list|
  {
    && (!merging ==> toItem == -1)
    && (toItem >= 0 ==> list[toItem].count <= FULL)
    && (merging && kind.stackable ==>
      if FirstPartial(list, kind) >= 0 then toItem == FirstPartial(list, kind)
      else toItem >= 0 && list[toItem].kind == kind ==> list[toItem].count == FULL)
  }

  /**
    Moves `count` pieces of the item at position i, or as many as the destination takes.  Goods are
    conserved, stacks stay at most 100 and the destination within its capacity.
   */
  method InternalMoveItem(from: Container, to: Container, index: int, i: nat, count: nat)
    returns (r: ReturnValue, ghost moved: nat)
    requires from != to && i < |from.itemlist|
    requires StacksOk(from.itemlist) && StacksOk(to.itemlist) && |to.itemlist| <= to.capacity
    modifies from`itemlist, to`itemlist
    ensures moved == old(Allowed(to, from.itemlist[i], index, count))
    ensures moved == 0 ==> from.itemlist == old(from.itemlist) && to.itemlist == old(to.itemlist)
    ensures moved > 0 ==>
      && from.itemlist == Removed(old(from.itemlist), i, moved)
      && to.itemlist == Joined(old(to.itemlist), old(from.itemlist[i]), moved, index != MOVE_UP)
    ensures r == NoError <==> moved > 0 && (old(from.itemlist[i]).kind.stackable ==> moved == count)
    ensures moved == 0 ==> old(RefusedBecause(r, from.itemlist[i], to, index, count))
    ensures moved > 0 ==> r == NoError || r == ContainerNotEnoughRoom
    ensures StacksOk(from.itemlist) && StacksOk(to.itemlist)
    ensures |to.itemlist| <= to.capacity && |from.itemlist| <= |old(from.itemlist)|
    ensures forall kind ::
      Total(from.itemlist, kind) + Total(to.itemlist, kind) ==
        Total(old(from.itemlist), kind) + Total(old(to.itemlist), kind)
  {
    hide Total, Spare, FirstPartial, StacksOk, Joined, Removed, Room, Allowed, Receives, RefusedBecause;
    var item := from.itemlist[i];
    ghost var before, merging := to.itemlist, index != MOVE_UP;
    moved := 0;
    var retMaxCount, toItem, at, m;
    r, retMaxCount, toItem, at, m := QueryMove(from, to, index, i, count);
    if r != NoError {
      return;
    }
    moved := m;
    MoveFacts(from.itemlist, before, i, m, merging);
    RoomForAll(item, to, index, count);
    Transfer(from, to, i, toItem, at, m, merging);
    if item.kind.stackable && retMaxCount != NoError {
      return retMaxCount, moved;
    }
  }

  // What is allowed to move leaves the destination within its capacity.
  lemma {:induction false} RoomForAll(item: Piece, to: Container, index: int, count: nat)
    requires StacksOk(to.itemlist) && |to.itemlist| <= to.capacity && 1 <= item.count <= FULL
    requires !item.kind.stackable ==> item.count == 1
    requires Allowed(to, item, index, count) > 0
    ensures |Joined(to.itemlist, item, Allowed(to, item, index, count), index != MOVE_UP)| <= to.capacity
  {
    hide Total, Spare, StacksOk;
    NoSpareThen(to.itemlist, item.kind);
    JoinedFacts(to.itemlist, item, Allowed(to, item, index, count), index != MOVE_UP);
  }

  lemma {:induction false} SomePiece(list: seq<Piece>, i: nat)
    requires i < |list| && StacksOk(list)
    ensures 1 <= list[i].count <= FULL && (!list[i].kind.stackable ==> list[i].count == 1)
  {
    assert list[i] in list;
  }
}
