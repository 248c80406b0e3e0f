/**
  Items live in a forest linked by parent pointers.  Every container caches the weight of
  everything below it in an unsigned 32-bit field, and every edit pushes a difference up the
  parent chain.  The invariant `Forest` ranges over the whole heap of items.
 */
module ContainerForest {

  const U32 := 0x1_0000_0000

  // The value an unsigned 32-bit field holds after x was stored in it.
  function Wrap(x: int): (r: int)
    ensures 0 <= r < U32
  {
    x % U32
  }

  // A 32-bit field after a difference was added to it
  function Changed(x: int, diff: int): int
  {
    Wrap(x + diff)
  }

  // The value of an unsigned 32-bit word reread as a signed one.
  function ToInt32(x: int): int
  {
    if Wrap(x) < U32 / 2 then Wrap(x) else Wrap(x) - U32
  }

  // The one number of 32 bits with a sign that has the same low bits
  lemma {:induction false} SignedWord(x: int)
    ensures -U32 / 2 <= ToInt32(x) < U32 / 2 && Wrap(ToInt32(x)) == Wrap(x)
  {
    WrapUnique(ToInt32(x), x, if Wrap(x) < U32 / 2 then -(x / U32) else -(x / U32) - 1);
  }

  // What an item type contributes to weights and to the queries.
  datatype ItemKind = ItemKind(id: nat, unitWeight: nat, stackable: bool, counted: bool, pickupable: bool)

  datatype ReturnValue = NoError | NotPossible | CannotPickup | ThisIsImpossible | ContainerNotEnoughRoom

  const INDEX_WHEREEVER := -1

  class Item {
    const isContainer: bool
    const isInbox: bool
    const unlocked: bool
    const pagination: bool
    const capacity: nat

    var kind: ItemKind
    var count: nat
    var parent: Item?
    var itemlist: seq<Item>
    var totalWeight: int

    // A depth that grows along every parent link; it exists only to show that chains end.
    ghost var level: nat

    constructor (kind: ItemKind, count: nat, isContainer: bool, isInbox: bool, unlocked: bool, pagination: bool,
                 capacity: nat)
      ensures Forest({this}) && parent == null && itemlist == []
      ensures this.kind == kind && this.count == count
      ensures this.isContainer == isContainer && this.isInbox == isInbox && this.capacity == capacity
      ensures this.unlocked == unlocked && this.pagination == pagination
    {
      this.kind, this.count := kind, count;
      this.isContainer, this.isInbox, this.unlocked, this.pagination, this.capacity :=
        isContainer, isInbox, unlocked, pagination, capacity;
      parent, itemlist, totalWeight, level := null, [], 0, 0;
    }

    function OwnWeight(): (w: int)
      reads this`kind, this`count
    {
      Wrap(if kind.stackable then kind.unitWeight * (if count > 1 then count else 1) else kind.unitWeight)
    }

    function GetWeight(): (w: int)
      reads this`kind, this`count, this`totalWeight
    {
      Wrap(OwnWeight() + totalWeight)
    }

    // The cached weight exceeds the weight of the contents by e (modulo 2^32).
    ghost predicate CacheOff(e: int)
      reads this`totalWeight, this`itemlist, itemlist`kind, itemlist`count, itemlist`totalWeight
    {
      totalWeight == Wrap(Sum(Weights(itemlist)) + e)
    }

    // ---------- the weight cache ----------

    /** One link of the propagation: our cache takes diff in, and the parent's now lags by diff. */
    method BumpCache(diff: int, ghost off: map<Item, int>, ghost S: set<Item>)
      requires this in S && Owes(S, off[this := At(off, this) - diff])
      modifies this`totalWeight
      ensures totalWeight == Changed(old(totalWeight), diff)
      ensures parent == null ==> Owes(S, off)
      ensures parent != null ==> Owes(S, off[parent := At(off, parent) - diff])
    {
      hide Wrap, Structure, Ranked, Weights, Sum;
      ghost var p := parent;
      ghost var was, i := [], 0;
      assert CacheOff(At(off, this) - diff);
      if p != null {
        was := Weights(p.itemlist);
        WeightsAt(p.itemlist);
        i := IndexInParent(S, this);
        assert p.CacheOff(At(off, p));
      }
      WrapAdd(Sum(Weights(itemlist)) + At(off, this) - diff, diff);
      totalWeight := Wrap(totalWeight + diff);
      forall c | c in S && c != p
        ensures c.CacheOff(At(off, c))
      {
        NotListed(S, c, this);
        assert Weights(c.itemlist) == old(Weights(c.itemlist));
      }
      if p != null {
        assert Weights(p.itemlist) == was[i := GetWeight()] by {
          WeightsIs(p.itemlist, was[i := GetWeight()]);
        }
        SumUpdate(was, i, GetWeight());
        PropagatedDiff(Sum(was) + At(off, p), OwnWeight(), old(totalWeight), diff);
      }
    }

    /** Adds diff to this container's cache and to that of every container above it. */
    method UpdateItemWeight(diff: int, ghost off: map<Item, int>, ghost S: set<Item>)
      requires this in S && Owes(S, off[this := At(off, this) - diff])
      modifies S`totalWeight
      ensures Owes(S, off) && totalWeight == Changed(old(totalWeight), diff)
      ensures forall c <- S :: c.level > level ==> c.totalWeight == old(c.totalWeight)
      decreases level
    {
      hide Structure, Ranked, Distinct, Sum, Weights, Wrap, Changed, Owes;
      BumpCache(diff, off, S);
      if parent != null {
        OwesParent(S, off[parent := At(off, parent) - diff], this);
        parent.UpdateItemWeight(diff, off, S);
      }
    }

    // ---------- relinking ----------

    /** Lifts the levels of item's subtree above ours, so that the link item -> this can be made. */
    ghost method RaiseAbove(item: Item, S: set<Item>)
      requires Structure(S) && this in S && item in S
      requires item.parent == null && !Under(this, item, S)
      modifies S`level
      ensures Structure(S) && item.level > this.level
    {
      forall d | d in S && Under(d, item, S) {
        d.level := d.level + this.level + 1;
      }
    }

    /** The pointer part of adding: item becomes the element between the two halves of the list. */
    method Link(i: nat, item: Item, ghost S: set<Item>)
      requires Structure(S) && this in S && isContainer && item in S
      requires item.parent == null && !Under(this, item, S) && i <= |itemlist|
      modifies S`level, this`itemlist, item`parent
      ensures Structure(S)
      ensures itemlist == old(itemlist[..i]) + [item] + old(itemlist[i..]) && item.parent == this
    {
      RaiseAbove(item, S);
      hide Structure, Ranked, Under;
      Splice(i, item, S);
    }

    method Splice(i: nat, item: Item, ghost S: set<Item>)
      requires Structure(S) && this in S && isContainer && item in S
      requires item.parent == null && item.level > this.level && i <= |itemlist|
      modifies this`itemlist, item`parent
      ensures Structure(S)
      ensures itemlist == old(itemlist[..i]) + [item] + old(itemlist[i..]) && item.parent == this
    {
      ghost var list := itemlist;
      item.parent := this;
      itemlist := itemlist[..i] + [item] + itemlist[i..];
      InsertFacts(list, i, item);
      hide Distinct;
    }

    /** The pointer part of removing the element at index i. */
    method Unlink(i: nat, item: Item, ghost S: set<Item>)
      requires Structure(S) && this in S && i < |itemlist| && itemlist[i] == item
      modifies this`itemlist, item`parent
      ensures Structure(S)
      ensures itemlist == old(itemlist[..i]) + old(itemlist[i + 1..]) && item.parent == null
    {
      EraseFacts(itemlist, i);
      hide Distinct;
      ghost var list := itemlist;
      item.parent := null;
      itemlist := itemlist[..i] + itemlist[i + 1..];
      assert Ranked(S);
      forall c, x | c in S && x in S
        ensures x in c.itemlist <==> x.parent == c
      {
        assert c != this ==> c.itemlist == old(c.itemlist);
        assert x in (if c == this then list else c.itemlist) <==> old(x.parent) == c;
      }
      assert forall c <- S, x <- c.itemlist :: x in (if c == this then list else c.itemlist);
    }

    /** Relinking only: afterwards our own cache lags behind by exactly the new item's weight. */
    method Insert(i: nat, item: Item, ghost S: set<Item>)
      requires Forest(S) && this in S && isContainer && item in S
      requires item.parent == null && !Under(this, item, S) && i <= |itemlist|
      modifies S`level, this`itemlist, item`parent
      ensures Owes(S, map[this := -item.GetWeight()])
      ensures itemlist == old(itemlist[..i]) + [item] + old(itemlist[i..]) && item.parent == this
    {
      hide Structure, Sum, Weights, Wrap, Changed;
      Link(i, item, S);
      forall c | c in S && c != this
        ensures c.CacheOff(0)
      {
        assert Weights(c.itemlist) == old(Weights(c.itemlist));
      }
      assert old(CacheOff(0));
      assert old(itemlist) == old(itemlist[..i]) + old(itemlist[i..]);
      assert Weights(old(itemlist)) == old(Weights(itemlist));
      SumWeightsSplit(old(itemlist[..i]), item, old(itemlist[i..]));
    }

    method InternalAddThing(item: Item, ghost S: set<Item>)
      requires Forest(S) && this in S && isContainer && item in S
      requires item.parent == null && !Under(this, item, S)
      modifies S`level, S`totalWeight, this`itemlist, item`parent
      ensures Forest(S) && totalWeight == Changed(old(totalWeight), item.GetWeight())
      ensures itemlist == [item] + old(itemlist) && item.parent == this
    {
      hide Structure, Ranked, Distinct, Sum, Weights, Wrap, Changed, Owes, Under;
      Insert(0, item, S);
      assert map[][this := At(map[], this) - item.GetWeight()] == map[this := -item.GetWeight()];
      OwesParent(S, map[this := -item.GetWeight()], item);
      ghost var weight := item.GetWeight();
      UpdateItemWeight(item.GetWeight(), map[], S);
      assert weight == item.GetWeight();
    }

    /** Puts an item without a parent at the front; silently does nothing past the capacity. */
    method AddThing(index: int, item: Item, ghost S: set<Item>)
      requires Forest(S) && this in S && isContainer && item in S
      requires item.parent == null && !Under(this, item, S)
      modifies S`level, S`totalWeight, this`itemlist, item`parent
      ensures Forest(S)
      ensures index >= capacity ==>
        itemlist == old(itemlist) && item.parent == null && totalWeight == old(totalWeight)
      ensures index < capacity ==>
        && itemlist == [item] + old(itemlist) && item.parent == this
        && totalWeight == Changed(old(totalWeight), item.GetWeight())
    {
      hide Structure, Ranked, Distinct, Sum, Weights, Wrap, Changed, Owes, Under;
      if index >= capacity {
        return;
      }
      InternalAddThing(item, S);
    }

    method AddItemBack(item: Item, ghost S: set<Item>)
      requires Forest(S) && this in S && isContainer && item in S
      requires item.parent == null && !Under(this, item, S)
      modifies S`level, S`totalWeight, this`itemlist, item`parent
      ensures Forest(S) && totalWeight == Changed(old(totalWeight), item.GetWeight())
      ensures itemlist == old(itemlist) + [item] && item.parent == this
    {
      hide Structure, Ranked, Distinct, Sum, Weights, Wrap, Changed, Owes, Under;
      Insert(|itemlist|, item, S);
      assert map[][this := At(map[], this) - item.GetWeight()] == map[this := -item.GetWeight()];
      OwesParent(S, map[this := -item.GetWeight()], item);
      ghost var weight := item.GetWeight();
      UpdateItemWeight(item.GetWeight(), map[], S);
      assert weight == item.GetWeight();
    }

    method GetThingIndex(thing: Item) returns (index: int)
      ensures index == -1 <==> thing !in itemlist
      ensures index != -1 ==> 0 <= index < |itemlist| && itemlist[index] == thing && thing !in itemlist[..index]
    {
      index := 0;
      while index < |itemlist|
        invariant 0 <= index <= |itemlist| && thing !in itemlist[..index]
      {
        if itemlist[index] == thing {
          return;
        }
        index := index + 1;
      }
      index := -1;
    }

    /** Changes a listed item's type and count; nothing happens when the item is not ours. */
    method UpdateThing(thing: Item, newKind: ItemKind, n: nat, ghost S: set<Item>)
      requires Forest(S) && this in S && thing in S
      modifies S`totalWeight, thing`kind, thing`count
      ensures Forest(S)
      ensures thing in itemlist ==> thing.kind == newKind && thing.count == if newKind.counted then n % 256
        else old(thing.count)
      ensures thing in itemlist ==>
        totalWeight == Changed(old(totalWeight), thing.GetWeight() - old(thing.GetWeight()))
      ensures thing !in itemlist ==>
        thing.kind == old(thing.kind) && thing.count == old(thing.count) && totalWeight == old(totalWeight)
    {
      hide Structure, Distinct, Ranked, Under, Sum, Weights, Wrap, Changed;
      var index := GetThingIndex(thing);
      if index == -1 {
        return;
      }
      Retype(index, thing, newKind, if newKind.counted then n % 256 else thing.count, S);
    }

    /** A listed item takes a new type and count, and the difference is passed up. */
    method Retype(index: nat, item: Item, newKind: ItemKind, newCount: nat, ghost S: set<Item>)
      requires Forest(S) && this in S && index < |itemlist| && itemlist[index] == item
      modifies S`totalWeight, item`count, item`kind
      ensures Forest(S) && item.count == newCount && item.kind == newKind && item.parent == this
      ensures totalWeight == Changed(old(totalWeight), item.GetWeight() - old(item.GetWeight()))
      ensures item.totalWeight == old(item.totalWeight)
    {
      hide Structure, Distinct, Ranked, Under, Sum, Weights, Wrap, Changed, GetWeight, OwnWeight, Owes;
      NothingOwed(S, this);
      ListedOnce(S, this, index);
      var oldWeight := item.GetWeight();
      Alter(index, item, newKind, newCount, S);
      ghost var weight := item.GetWeight();
      assert map[][this := At(map[], this) - (weight - oldWeight)] == map[this := oldWeight - weight];
      UpdateItemWeight(item.GetWeight() - oldWeight, map[], S);
      assert item.GetWeight() == weight;
    }

    /** The element at index takes a new type and count; only our own cache is then off. */
    method Alter(index: nat, thing: Item, newKind: ItemKind, n: nat, ghost S: set<Item>)
      requires Forest(S) && this in S && index < |itemlist| && itemlist[index] == thing
      modifies thing`kind, thing`count
      ensures thing.kind == newKind && thing.count == n
      ensures Owes(S, map[this := old(thing.GetWeight()) - thing.GetWeight()])
    {
      hide Structure, Sum, Weights, Wrap, Changed, Ranked;
      ghost var was := Weights(itemlist);
      WeightsAt(itemlist);
      ListedOnce(S, this, index);
      assert CacheOff(0);
      thing.kind, thing.count := newKind, n;
      forall c | c in S && c != this
        ensures c.CacheOff(0)
      {
        NotListed(S, c, thing);
        assert Weights(c.itemlist) == old(Weights(c.itemlist));
      }
      WeightsIs(itemlist, was[index := thing.GetWeight()]);
      SumUpdate(was, index, thing.GetWeight());
    }

    /** Puts item where replacedItem was, whose parent link is cleared. */
    method Exchange(index: nat, replacedItem: Item, item: Item, ghost S: set<Item>)
      requires Structure(S) && this in S && isContainer && item in S
      requires item.parent == null && item.level > this.level
      requires index < |itemlist| && itemlist[index] == replacedItem
      modifies this`itemlist, item`parent, replacedItem`parent
      ensures Structure(S)
      ensures itemlist == old(itemlist)[index := item] && item.parent == this && replacedItem.parent == null
    {
      UpdateFacts(itemlist, index, item);
      hide Distinct;
      ghost var list := itemlist;
      replacedItem.parent := null;
      item.parent := this;
      itemlist := itemlist[index := item];
      assert Ranked(S);
      forall c, x | c in S && x in S
        ensures x in c.itemlist <==> x.parent == c
      {
        assert c != this ==> c.itemlist == old(c.itemlist);
        assert x in (if c == this then list else c.itemlist) <==> old(x.parent) == c;
      }
    }

    method Swap(index: nat, replacedItem: Item, item: Item, ghost S: set<Item>)
      requires Forest(S) && this in S && isContainer && item in S
      requires item.parent == null && !Under(this, item, S)
      requires index < |itemlist| && itemlist[index] == replacedItem
      modifies S`level, this`itemlist, item`parent, replacedItem`parent
      ensures Owes(S, map[this := replacedItem.GetWeight() - item.GetWeight()])
      ensures itemlist == old(itemlist)[index := item] && item.parent == this && replacedItem.parent == null
    {
      hide Structure, Distinct, Ranked, Under, Sum, Weights, Wrap, Changed;
      RaiseAbove(item, S);
      ghost var was := Weights(itemlist);
      assert old(CacheOff(0));
      WeightsAt(itemlist);
      Exchange(index, replacedItem, item, S);
      forall c | c in S && c != this
        ensures c.CacheOff(0)
      {
        assert Weights(c.itemlist) == old(Weights(c.itemlist));
      }
      WeightsIs(itemlist, was[index := item.GetWeight()]);
      SumUpdate(was, index, item.GetWeight());
    }

    /**
      Puts an item without a parent in the place of the element at index.  The replaced item's link
      is cleared before the weights are pushed up instead of after; the propagation never looks at it.
     */
    method ReplaceThing(index: nat, item: Item, ghost S: set<Item>)
      requires Forest(S) && this in S && isContainer && item in S
      requires item.parent == null && !Under(this, item, S)
      modifies S`level, S`totalWeight, S`parent, this`itemlist
      ensures Forest(S)
      ensures index >= |old(itemlist)| ==> itemlist == old(itemlist) && forall c <- S :: c.parent == old(c.parent)
      ensures index < |old(itemlist)| ==>
        && itemlist == old(itemlist)[index := item] && item.parent == this && old(itemlist)[index].parent == null
        && totalWeight == Changed(old(totalWeight), item.GetWeight() - old(itemlist[index].GetWeight()))
        && forall c <- S :: c != item && c != old(itemlist)[index] ==> c.parent == old(c.parent)
    {
      hide Structure, Distinct, Ranked, Under, Sum, Weights, Wrap, Changed, Owes, GetWeight, OwnWeight;
      NothingOwed(S, this);
      if index >= |itemlist| {
        return;
      }
      var replacedItem := itemlist[index];
      ListedOnce(S, this, index);
      Swap(index, replacedItem, item, S);
      assert map[][this := At(map[], this) - (-replacedItem.GetWeight() + item.GetWeight())]
        == map[this := replacedItem.GetWeight() - item.GetWeight()];
      OwesParent(S, map[this := replacedItem.GetWeight() - item.GetWeight()], item);
      UpdateItemWeight(-replacedItem.GetWeight() + item.GetWeight(), map[], S);
      assert totalWeight == Changed(old(totalWeight), item.GetWeight() - old(replacedItem.GetWeight()));
    }

    /** Erases the element at index, whose weight the cache no longer contains. */
    method Detach(index: nat, item: Item, ghost S: set<Item>)
      requires this in S && index < |itemlist| && itemlist[index] == item
      requires Owes(S, map[this := -item.GetWeight()])
      modifies this`itemlist, item`parent
      ensures Forest(S)
      ensures itemlist == old(itemlist[..index]) + old(itemlist[index + 1..]) && item.parent == null
    {
      hide Structure, Sum, Weights, Wrap, Changed;
      assert old(CacheOff(-item.GetWeight()));
      Unlink(index, item, S);
      forall c | c in S && c != this
        ensures c.CacheOff(0)
      {
        assert Weights(c.itemlist) == old(Weights(c.itemlist));
      }
      assert old(itemlist) == old(itemlist[..index]) + [item] + old(itemlist[index + 1..]);
      assert Weights(old(itemlist)) == old(Weights(itemlist));
      SumWeightsSplit(old(itemlist[..index]), item, old(itemlist[index + 1..]));
    }

    /** Takes count pieces off a stack, or the whole item; nothing happens when the item is not ours. */
    method RemoveThing(item: Item, count: nat, ghost S: set<Item>)
      requires Forest(S) && this in S && item in S
      modifies S`totalWeight, this`itemlist, item`parent, item`count, item`kind
      ensures Forest(S) && item.kind == old(item.kind)
      ensures item !in old(itemlist) ==>
        && itemlist == old(itemlist) && item.count == old(item.count) && item.parent == old(item.parent)
        && totalWeight == old(totalWeight)
      ensures item in old(itemlist) && item.kind.stackable && count < old(item.count) < 256 ==>
        totalWeight == Changed(old(totalWeight), -(count * item.kind.unitWeight))
      ensures item in old(itemlist) && item.kind.stackable && count != old(item.count) ==>
        && totalWeight == Changed(old(totalWeight), item.GetWeight() - old(item.GetWeight()))
        && itemlist == old(itemlist) && item.parent == this && item.count < 256
        && (old(item.count) < 256 && count < U32 / 2 ==>
          item.count == if count < old(item.count) then old(item.count) - count else 0)
      ensures item in old(itemlist) && !(item.kind.stackable && count != old(item.count)) ==>
        && item.parent == null && item.count == old(item.count)
        && totalWeight == Changed(old(totalWeight), -old(item.GetWeight()))
        && exists i ::
          0 <= i < |old(itemlist)| && old(itemlist)[i] == item
            && itemlist == old(itemlist[..i]) + old(itemlist[i + 1..])
    {
      hide Structure, Distinct, Ranked, Under, Sum, Weights, Owes, Wrap, Changed, ToInt32;
      var index := GetThingIndex(item);
      if index == -1 {
        return;
      }
      if item.kind.stackable && count != item.count {
        var left := ToInt32(item.count - count);
        SmallDifference(item.count, count);
        Retype(index, item, item.kind, (if left > 0 then left else 0) % 256, S);
        FewerUnits(old(totalWeight), item.totalWeight, item.kind.unitWeight, old(item.count), count);
      } else {
        RemoveWhole(index, item, S);
      }
    }

    method RemoveWhole(index: nat, item: Item, ghost S: set<Item>)
      requires Forest(S) && this in S && index < |itemlist| && itemlist[index] == item
      modifies S`totalWeight, this`itemlist, item`parent
      ensures Forest(S) && totalWeight == Changed(old(totalWeight), -old(item.GetWeight()))
      ensures itemlist == old(itemlist[..index]) + old(itemlist[index + 1..]) && item.parent == null
    {
      hide Structure, Distinct, Ranked, Under, Sum, Weights, Wrap, Changed, GetWeight, OwnWeight, Owes;
      NothingOwed(S, this);
      ListedOnce(S, this, index);
      var weight := item.GetWeight();
      assert map[this := -weight][this := At(map[this := -weight], this) - -weight] == map[this := 0];
      UpdateItemWeight(-weight, map[this := -weight], S);
      ghost var cached := totalWeight;
      assert cached == Changed(old(totalWeight), -old(item.GetWeight()));
      Detach(index, item, S);
      assert totalWeight == cached;
    }

    // ---------- the query that guards every addition ----------

    // When something may be put into this container
    ghost predicate MayAdd(index: int, thing: Item, noLimit: bool, S: set<Item>)
      requires Ranked(S) && this in S
      reads this, thing`kind, S`parent, S`level
    {
      && unlocked && thing.kind.pickupable && !Under(this, thing, S)
      && (noLimit || (!InboxAbove(this, S) && !(index == INDEX_WHEREEVER && |itemlist| >= capacity && !pagination)))
    }

    /** Whether thing may be put into this container; the ancestor walk refuses to close a cycle. */
    method QueryAdd(index: int, thing: Item, noLimit: bool, childIsOwner: bool, ghost S: set<Item>)
      returns (r: ReturnValue)
      requires Forest(S) && this in S
      ensures r == NoError <==> childIsOwner || MayAdd(index, thing, noLimit, S)
      ensures !childIsOwner && !unlocked ==> r == NotPossible
      ensures !childIsOwner && unlocked && !thing.kind.pickupable ==> r == CannotPickup
      ensures r == ThisIsImpossible ==> Under(this, thing, S)
      ensures r == ContainerNotEnoughRoom ==> !noLimit && (InboxAbove(this, S) || |itemlist| >= capacity)
    {
      if childIsOwner {
        return NoError;
      }
      if !unlocked {
        return NotPossible;
      }
      if !thing.kind.pickupable {
        return CannotPickup;
      }
      if thing == this {
        return ThisIsImpossible;
      }
      var cylinder := parent;
      if !noLimit {
        while cylinder != null
          invariant cylinder != null ==> cylinder in S
          invariant Under(this, thing, S) <==> cylinder != null && Under(cylinder, thing, S)
          invariant InboxAbove(this, S) <==> cylinder != null && (cylinder.isInbox || InboxAbove(cylinder, S))
          decreases if cylinder == null then 0 else cylinder.level + 1
        {
          if cylinder == thing {
            return ThisIsImpossible;
          }
          if cylinder.isInbox {
            return ContainerNotEnoughRoom;
          }
          cylinder := cylinder.parent;
        }
        if index == INDEX_WHEREEVER && |itemlist| >= capacity && !pagination {
          return ContainerNotEnoughRoom;
        }
      } else {
        while cylinder != null
          invariant cylinder != null ==> cylinder in S
          invariant Under(this, thing, S) <==> cylinder != null && Under(cylinder, thing, S)
          decreases if cylinder == null then 0 else cylinder.level + 1
        {
          if cylinder == thing {
            return ThisIsImpossible;
          }
          cylinder := cylinder.parent;
        }
      }
      return NoError;
    }

    /** Every guarded addition keeps the forest, whatever container, item and index are asked for. */
    method TryAdd(index: int, item: Item, noLimit: bool, ghost S: set<Item>) returns (r: ReturnValue)
      requires Forest(S) && this in S && isContainer && item in S && item.parent == null
      modifies S`level, S`totalWeight, this`itemlist, item`parent
      ensures Forest(S) && (r == NoError <==> old(MayAdd(index, item, noLimit, S)))
      ensures r != NoError || index >= capacity ==> itemlist == old(itemlist) && item.parent == null
      ensures r == NoError && index < capacity ==> itemlist == [item] + old(itemlist) && item.parent == this
    {
      r := QueryAdd(index, item, noLimit, false, S);
      if r == NoError {
        AddThing(index, item, S);
      }
    }

    /**
      A whole item moves from this container into another, as the query allows it while the item is still here.  The
      forest stays one: the query's answer still holds once the item is out.
     */
    method MoveThing(to: Item, index: int, item: Item, ghost S: set<Item>) returns (r: ReturnValue)
      requires Forest(S) && this in S && to in S && item in S && to.isContainer
      modifies S`level, S`totalWeight, this`itemlist, to`itemlist, item`parent, item`count, item`kind
      ensures Forest(S) && item.kind == old(item.kind) && item.count == old(item.count)
      ensures r == NoError <==> old(to.MayAdd(index, item, false, S)) && item in old(itemlist)
      ensures r != NoError ==>
        itemlist == old(itemlist) && to.itemlist == old(to.itemlist) && item.parent == old(item.parent)
      ensures r == NoError && index < to.capacity ==>
        && item.parent == to && to.itemlist != [] && to.itemlist[0] == item
        && (this != to ==> to.itemlist[1..] == old(to.itemlist))
      ensures r == NoError ==>
        Erased(old(itemlist), item, if this == to && index < to.capacity then to.itemlist[1..] else itemlist)
      ensures r == NoError && index >= to.capacity ==>
        item.parent == null && (this != to ==> to.itemlist == old(to.itemlist))
    {
      hide Structure, Distinct, Sum, Weights, Under, InboxAbove, Ranked, Owes;
      RankedIn(S);
      r := to.QueryAdd(index, item, false, false, S);
      if r != NoError {
        return;
      }
      var at := GetThingIndex(item);
      if at == -1 {
        return NotPossible;
      }
      TakeOut(item, to, S);
      to.AddThing(index, item, S);
    }

    /** A whole item leaves this container; what lay outside of it lies outside of it still. */
    method TakeOut(item: Item, ghost to: Item, ghost S: set<Item>)
      requires Forest(S) && this in S && to in S && item in S && item in itemlist && !Under(to, item, S)
      modifies S`totalWeight, this`itemlist, item`parent, item`count, item`kind
      ensures Forest(S) && item.parent == null && !Under(to, item, S)
      ensures item.kind == old(item.kind) && item.count == old(item.count)
      ensures Erased(old(itemlist), item, itemlist) && totalWeight == Changed(old(totalWeight), -old(item.GetWeight()))
    {
      hide Distinct, Sum, Weights, Under, Wrap, Changed, GetWeight, OwnWeight, Erased, Owes;
      RankedIn(S);
      ghost var chain := Chain(to, S);
      ChainTells(to, chain, S);
      RemoveAll(item, S);
      RankedIn(S);
      forall i | 0 <= i < |chain|
        ensures LinkedAt(chain, i, S)
      {
        assert chain[i] in chain && old(LinkedAt(chain, i, S));
      }
      ChainTells(to, chain, S);
    }

    /** All pieces of a listed item */
    method RemoveAll(item: Item, ghost S: set<Item>)
      requires Forest(S) && this in S && item in S && item in itemlist
      modifies S`totalWeight, this`itemlist, item`parent, item`count, item`kind
      ensures Forest(S) && item.parent == null && item.kind == old(item.kind) && item.count == old(item.count)
      ensures Erased(old(itemlist), item, itemlist) && totalWeight == Changed(old(totalWeight), -old(item.GetWeight()))
    {
      hide Structure, Distinct, Ranked, Under, Sum, Weights, Owes, Wrap, Changed, GetWeight, OwnWeight;
      RemoveThing(item, item.count, S);
    }
  }

  // The list without one of its items
  ghost predicate Erased(list: seq<Item>, item: Item, rest: seq<Item>)
  {
    exists i :: 0 <= i < |list| && list[i] == item && rest == list[..i] + list[i + 1..]
  }

  // A container with its parents, up to the topmost
  ghost function Chain(d: Item, S: set<Item>): (chain: seq<Item>)
    requires Ranked(S) && d in S
    reads S`parent, S`level
    ensures Linked(d, chain, S)
    decreases d.level
  {
    if d.parent == null then [d] else
      var rest := Chain(d.parent, S);
      LinkedMore(d, rest, S);
      [d] + rest
  }

  ghost predicate Linked(d: Item, chain: seq<Item>, S: set<Item>)
    reads S`parent
  {
    chain != [] && chain[0] == d && forall i | 0 <= i < |chain| :: LinkedAt(chain, i, S)
  }

  ghost predicate LinkedAt(chain: seq<Item>, i: nat, S: set<Item>)
    requires i < |chain|
    reads S`parent
  {
    chain[i] in S && chain[i].parent == if i + 1 < |chain| then chain[i + 1] else null
  }

  lemma {:induction false} LinkedMore(d: Item, rest: seq<Item>, S: set<Item>)
    requires rest != []
    ensures Linked(d, [d] + rest, S) <==> d in S && d.parent == rest[0] && Linked(rest[0], rest, S)
  {
    var chain := [d] + rest;
    assert LinkedAt(chain, 0, S) <==> d in S && d.parent == rest[0];
    forall i | 0 <= i < |rest|
      ensures LinkedAt(rest, i, S) <==> LinkedAt(chain, i + 1, S)
    {
    }
    forall i | 0 <= i < |chain|
      ensures i > 0 ==> (LinkedAt(chain, i, S) <==> LinkedAt(rest, i - 1, S))
    {
    }
  }

  lemma {:induction false} ChainTells(d: Item, chain: seq<Item>, S: set<Item>)
    requires Ranked(S) && d in S && Linked(d, chain, S)
    ensures forall a :: Under(d, a, S) <==> a in chain
  {
    assert LinkedAt(chain, 0, S);
    if |chain| > 1 {
      assert chain == [d] + chain[1..];
      LinkedMore(d, chain[1..], S);
      ChainTells(chain[1], chain[1..], S);
    }
  }

  lemma {:induction false} NothingOwed(S: set<Item>, c: Item)
    requires Forest(S)
    ensures Structure(S) && Owes(S, map[c := 0])
  {
  }

  lemma {:induction false} RankedIn(S: set<Item>)
    requires Forest(S)
    ensures Ranked(S)
  {
  }

  // ---------- the heap invariant ----------

  ghost predicate Ranked(S: set<Item>)
    reads S`parent, S`level
  {
    forall c <- S :: c.parent != null ==> c.parent in S && c.level > c.parent.level
  }

  // Parent links and item lists say the same, and no item is listed twice.
  ghost predicate Structure(S: set<Item>)
    reads S`parent, S`level, S`itemlist
  {
    && Ranked(S)
    && (forall c <- S, x <- S :: x in c.itemlist <==> x.parent == c)
    && (forall c <- S, x <- c.itemlist :: x in S)
    && (forall c <- S :: Distinct(c.itemlist))
    && (forall c <- S :: !c.isContainer ==> c.itemlist == [])
  }

  ghost predicate Distinct(list: seq<Item>)
  {
    forall i, j | 0 <= i < j < |list| :: list[i] != list[j]
  }

  function At(off: map<Item, int>, c: Item): int
  {
    if c in off then off[c] else 0
  }

  // The links are those of a forest, and every cache is right up to the listed differences.
  ghost predicate Owes(S: set<Item>, off: map<Item, int>)
    reads S
  {
    Structure(S) && forall c <- S :: c.CacheOff(At(off, c))
  }

  ghost predicate Forest(S: set<Item>)
    reads S
  {
    Owes(S, map[])
  }

  /** Two forests without a common item are one, so forests grow by new items. */
  lemma {:induction false} ForestsTogether(S: set<Item>, T: set<Item>)
    requires Forest(S) && Forest(T) && S !! T
    ensures Forest(S + T)
  {
    forall c, x | c in S + T && x in S + T
      ensures x in c.itemlist <==> x.parent == c
    {
    }
  }

  // d is a or lies somewhere below a
  ghost predicate Under(d: Item, a: Item, S: set<Item>)
    requires Ranked(S) && d in S
    reads S`parent, S`level
    decreases d.level
  {
    d == a || (d.parent != null && Under(d.parent, a, S))
  }

  ghost predicate InboxAbove(d: Item, S: set<Item>)
    requires Ranked(S) && d in S
    reads S`parent, S`level
    decreases d.level
  {
    d.parent != null && (d.parent.isInbox || InboxAbove(d.parent, S))
  }

  // The weight an item really has: its own, plus what everything below it really has.
  ghost function TrueWeight(c: Item, S: set<Item>): int
    requires Structure(S) && c in S
    reads S
    decreases Deeper(c.level, S), 1, 0
  {
    assert forall x <- c.itemlist :: x in S && x.parent == c;
    c.OwnWeight() + TrueWeights(c.itemlist, c.level, S)
  }

  ghost function TrueWeights(list: seq<Item>, level: nat, S: set<Item>): int
    requires Structure(S) && forall x <- list :: x in S && x.level > level
    reads S
    decreases Deeper(level, S), 0, |list|
  {
    if list == [] then 0 else
      assert list[0] in Deeper(level, S) && list[0] !in Deeper(list[0].level, S);
      TrueWeight(list[0], S) + TrueWeights(list[1..], level, S)
  }

  /** Every cached weight is the recursive sum of the weights below, as far as 32 bits can tell. */
  lemma {:induction false} CacheIsTrue(c: Item, S: set<Item>)
    requires Forest(S) && c in S
    ensures c.totalWeight == Wrap(TrueWeight(c, S) - c.OwnWeight())
    ensures c.GetWeight() == Wrap(TrueWeight(c, S))
    ensures TrueWeight(c, S) < U32 ==>
      c.GetWeight() == TrueWeight(c, S) && c.totalWeight == TrueWeight(c, S) - c.OwnWeight()
    decreases Deeper(c.level, S), 1, 0
  {
    assert c.CacheOff(0);
    assert forall x <- c.itemlist :: x in S && x.parent == c;
    CachesAreTrue(c.itemlist, c.level, S);
    WrapAdd(TrueWeights(c.itemlist, c.level, S), c.OwnWeight());
  }

  lemma {:induction false} CachesAreTrue(list: seq<Item>, level: nat, S: set<Item>)
    requires Forest(S) && forall x <- list :: x in S && x.level > level
    ensures Wrap(Sum(Weights(list))) == Wrap(TrueWeights(list, level, S))
    ensures TrueWeights(list, level, S) >= 0
    decreases Deeper(level, S), 0, |list|
  {
    if list != [] {
      assert list[0] in Deeper(level, S) && list[0] !in Deeper(list[0].level, S);
      CacheIsTrue(list[0], S);
      CachesAreTrue(list[1..], level, S);
      WrapAdd(TrueWeight(list[0], S), Sum(Weights(list[1..])));
      WrapAdd(Sum(Weights(list[1..])), TrueWeight(list[0], S));
      WrapAdd(TrueWeights(list[1..], level, S), TrueWeight(list[0], S));
    }
  }

  ghost function Deeper(level: int, S: set<Item>): set<Item>
    reads S`level
  {
    set x <- S | x.level > level
  }

  function Sum(ws: seq<int>): int
  {
    if ws == [] then 0 else ws[0] + Sum(ws[1..])
  }

  ghost function Weights(list: seq<Item>): seq<int>
    reads list`kind, list`count, list`totalWeight
  {
    if list == [] then [] else [list[0].GetWeight()] + Weights(list[1..])
  }

  lemma {:induction false} InsertFacts(list: seq<Item>, i: nat, item: Item)
    requires Distinct(list) && item !in list && i <= |list|
    ensures var r := list[..i] + [item] + list[i..];
      Distinct(r) && forall x :: x in r <==> x == item || x in list
  {
    var r := list[..i] + [item] + list[i..];
    assert r[i] == item;
    forall x | x in list
      ensures x in r
    {
      var k :| 0 <= k < |list| && list[k] == x;
      assert r[if k < i then k else k + 1] == x;
    }
  }

  lemma {:induction false} EraseFacts(list: seq<Item>, i: nat)
    requires Distinct(list) && i < |list|
    ensures var r := list[..i] + list[i + 1..];
      Distinct(r) && forall x :: x in r <==> x != list[i] && x in list
  {
    var r := list[..i] + list[i + 1..];
    forall x | x in list && x != list[i]
      ensures x in r
    {
      var k :| 0 <= k < |list| && list[k] == x;
      assert r[if k < i then k else k - 1] == x;
    }
  }

  lemma {:induction false} UpdateFacts(list: seq<Item>, i: nat, item: Item)
    requires Distinct(list) && item !in list && i < |list|
    ensures var r := list[i := item];
      Distinct(r) && forall x :: x in r <==> x == item || (x != list[i] && x in list)
  {
    var r := list[i := item];
    assert r[i] == item;
    forall x | x in list && x != list[i]
      ensures x in r
    {
      var k :| 0 <= k < |list| && list[k] == x;
      assert r[k] == x;
    }
  }

  lemma {:induction false} WeightsAt(list: seq<Item>)
    ensures |Weights(list)| == |list|
    ensures forall i | 0 <= i < |list| :: Weights(list)[i] == list[i].GetWeight()
  {
    if list != [] {
      WeightsAt(list[1..]);
    }
  }

  lemma {:induction false} WeightsIs(list: seq<Item>, ws: seq<int>)
    requires |ws| == |list| && forall i | 0 <= i < |list| :: ws[i] == list[i].GetWeight()
    ensures Weights(list) == ws
  {
    WeightsAt(list);
  }

  lemma {:induction false} NotListed(S: set<Item>, c: Item, x: Item)
    requires Structure(S) && c in S && x.parent != c
    ensures x !in c.itemlist
  {
  }

  lemma {:induction false} ListedOnce(S: set<Item>, c: Item, i: nat)
    requires Structure(S) && c in S && i < |c.itemlist|
    ensures c.itemlist[i] in S && c.itemlist[i].parent == c && c.itemlist[i] != c && c.itemlist[i].level > c.level
    ensures forall j | 0 <= j < |c.itemlist| && j != i :: c.itemlist[j] != c.itemlist[i]
  {
  }

  lemma {:induction false} OwesParent(S: set<Item>, off: map<Item, int>, x: Item)
    requires Owes(S, off) && x in S && x.parent != null
    ensures x.parent in S && x.parent.level < x.level
  {
  }

  lemma {:induction false} IndexInParent(S: set<Item>, x: Item) returns (i: nat)
    requires Structure(S) && x in S && x.parent != null
    ensures x.parent in S && x.parent != x
    ensures i < |x.parent.itemlist| && x.parent.itemlist[i] == x
    ensures forall j | 0 <= j < |x.parent.itemlist| && j != i :: x.parent.itemlist[j] != x
  {
    i :| 0 <= i < |x.parent.itemlist| && x.parent.itemlist[i] == x;
  }

  lemma {:induction false} WeightsConcat(a: seq<Item>, b: seq<Item>)
    ensures Weights(a + b) == Weights(a) + Weights(b)
  {
    if a == [] {
      assert a + b == b;
    } else {
      assert (a + b)[1..] == a[1..] + b;
      WeightsConcat(a[1..], b);
    }
  }

  lemma {:induction false} SumConcat(a: seq<int>, b: seq<int>)
    ensures Sum(a + b) == Sum(a) + Sum(b)
  {
    if a == [] {
      assert a + b == b;
    } else {
      assert (a + b)[1..] == a[1..] + b;
      SumConcat(a[1..], b);
    }
  }

  lemma {:induction false} SumWeightsSplit(a: seq<Item>, x: Item, b: seq<Item>)
    ensures Sum(Weights(a + [x] + b)) == Sum(Weights(a + b)) + x.GetWeight()
  {
    WeightsConcat(a, [x]);
    WeightsConcat(a + [x], b);
    WeightsConcat(a, b);
    SumConcat(Weights(a), Weights([x]));
    SumConcat(Weights(a + [x]), Weights(b));
    SumConcat(Weights(a), Weights(b));
    assert Weights([x]) == [x.GetWeight()];
    assert Sum([x.GetWeight()]) == x.GetWeight() + Sum([]);
  }

  lemma {:induction false} SumUpdate(ws: seq<int>, i: nat, w: int)
    requires i < |ws|
    ensures Sum(ws[i := w]) == Sum(ws) + w - ws[i]
  {
    if i > 0 {
      assert ws[i := w][1..] == ws[1..][i - 1 := w];
      SumUpdate(ws[1..], i - 1, w);
    } else {
      assert ws[i := w][1..] == ws[1..];
    }
  }

  // ---------- 32-bit arithmetic ----------

  lemma {:induction false} WrapUnique(x: int, y: int, k: int)
    requires x == y + k * U32
    ensures Wrap(x) == Wrap(y)
  {
  }

  lemma {:induction false} WrapAdd(sum: int, diff: int)
    ensures Wrap(Wrap(sum) + diff) == Wrap(sum + diff)
  {
    WrapUnique(sum + diff, Wrap(sum) + diff, sum / U32);
  }

  lemma {:induction false} SmallDifference(a: nat, n: nat)
    ensures a < 256 && n < U32 / 2 ==> ToInt32(a - n) == a - n
  {
  }

  // Taking n pieces off a stack of a takes n units off a container's cache.
  lemma {:induction false} FewerUnits(cache: int, cached: int, unit: nat, a: nat, n: nat)
    ensures n < a ==>
      var before, after := Wrap(Wrap(unit * a) + cached), Wrap(Wrap(unit * (a - n)) + cached);
      Changed(cache, after - before) == Changed(cache, -(n * unit))
  {
    if n < a {
      WrapAdd(unit * a, cached);
      WrapAdd(unit * (a - n), cached);
      var x, y := unit * a + cached, unit * (a - n) + cached;
      assert x - y == n * unit;
      WrapUnique(cache + (Wrap(y) - Wrap(x)), cache - n * unit, x / U32 - y / U32);
    }
  }

  /** Stacks of one kind weigh together what the joined stack weighs, up to 32 bits. */
  lemma {:induction false} JoinedWeighTheSame(a: Item, b: Item, joined: Item)
    requires a.kind == b.kind == joined.kind && a.kind.stackable
    requires a.count >= 1 && b.count >= 1 && joined.count == a.count + b.count
    ensures joined.OwnWeight() == Wrap(a.OwnWeight() + b.OwnWeight())
  {
    var unit := a.kind.unitWeight;
    WrapAdd(unit * a.count, b.OwnWeight());
    WrapAdd(unit * b.count, unit * a.count);
    assert unit * joined.count == unit * a.count + unit * b.count;
  }

  /** One piece, an empty stack and what does not stack all weigh one unit. */
  lemma {:induction false} SingleWeighsOneUnit(x: Item)
    requires x.kind.stackable ==> x.count <= 1
    ensures x.OwnWeight() == Wrap(x.kind.unitWeight)
  {
  }

  // A difference added to a child's cache is exactly the difference its parent must add.
  lemma {:induction false} PropagatedDiff(sum: int, own: int, cached: int, diff: int)
    ensures var grown := Wrap(own + Wrap(cached + diff)) - Wrap(own + cached);
      Wrap(sum) == Wrap(sum + grown - diff)
  {
    var a, b, c := (cached + diff) / U32, (own + Wrap(cached + diff)) / U32, (own + cached) / U32;
    var grown := Wrap(own + Wrap(cached + diff)) - Wrap(own + cached);
    assert Wrap(cached + diff) == cached + diff - a * U32;
    assert Wrap(own + Wrap(cached + diff)) == own + Wrap(cached + diff) - b * U32;
    assert Wrap(own + cached) == own + cached - c * U32;
    assert grown == diff + (c - a - b) * U32;
    WrapUnique(sum + grown - diff, sum, c - a - b);
  }
}
