/**
  The decay wheel: items that decay after some time lie in four buckets, of which one is visited every 250
  milliseconds.  Durations are counted down in steps of a whole turn.
 */
module DecayWheel {

  const EVENT_DECAYINTERVAL := 250
  const EVENT_DECAY_BUCKETS := 4
  const TURN := 1000

  // The tick of the first visit to bucket b after tick k
  function NextVisit(b: nat, k: nat): nat
  {
    k + 1 + (b - k - 1) % EVENT_DECAY_BUCKETS
  }

  // The tick at which an item decays that has d milliseconds left and is visited at tick t
  function FiresAt(t: nat, d: int): nat
    decreases d
  {
    var left := d - if TURN < d then TURN else d;
    if left < 875 then t else if left < TURN then t + 1 else FiresAt(t + EVENT_DECAY_BUCKETS, left)
  }

  // How many ticks pass until an item of duration d decays
  function Delay(d: int): nat
    requires d > 0
  {
    if d < TURN then 1 else EVENT_DECAY_BUCKETS * (d / TURN) + if d % TURN >= 875 then 1 else 0
  }

  lemma {:induction false} FiresAfterDelay(t: nat, d: int)
    requires d > 0
    ensures FiresAt(t, d) + (if d < TURN then 1 else EVENT_DECAY_BUCKETS) == t + Delay(d)
    decreases d
  {
    var q, r := d / TURN, d % TURN;
    assert d == TURN * q + r;
    if q >= 2 {
      var left := d - TURN;
      assert left / TURN == q - 1 && left % TURN == r;
      FiresAfterDelay(t + EVENT_DECAY_BUCKETS, left);
    }
  }

  // The wheel is at most 874 milliseconds early and at most 249 late, counted from the tick of the placement.
  lemma {:induction false} DelayIsClose(d: int)
    requires d > 0
    ensures -874 <= EVENT_DECAYINTERVAL * Delay(d) - d <= 249
  {
  }

  ghost predicate NoDuplicates(list: seq<nat>)
  {
    forall i, j | 0 <= i < j < |list| :: list[i] != list[j]
  }

  // Items that are next visited at tick t decay when they are due.
  ghost predicate OnTime(list: seq<nat>, duration: map<nat, int>, due: map<nat, nat>, t: nat)
  {
    forall id <- list :: id in duration && duration[id] > 0 && id in due && due[id] == FiresAt(t, duration[id])
  }

  // The list holds exactly the items whose place is b, each once.
  ghost predicate Lists(list: seq<nat>, place: map<nat, nat>, b: nat)
  {
    NoDuplicates(list) && forall id :: id in list <==> id in place && place[id] == b
  }

  const WAITING := EVENT_DECAY_BUCKETS

  // All buckets as they are after tick k
  ghost predicate Turning(buckets: seq<seq<nat>>, place: map<nat, nat>, duration: map<nat, int>, due: map<nat, nat>,
                          k: nat)
  {
    && |buckets| == EVENT_DECAY_BUCKETS
    && forall b | 0 <= b < EVENT_DECAY_BUCKETS ::
      Lists(buckets[b], place, b) && OnTime(buckets[b], duration, due, NextVisit(b, k))
  }

  lemma {:induction false} Put(buckets: seq<seq<nat>>, place: map<nat, nat>, duration: map<nat, int>,
                               due: map<nat, nat>, k: nat, id: nat, b: nat)
    requires Turning(buckets, place, duration, due, k) && b < EVENT_DECAY_BUCKETS
    requires id !in place || place[id] >= WAITING
    requires id in duration && duration[id] > 0 && FiresAt(NextVisit(b, k), duration[id]) == k + Delay(duration[id])
    ensures |buckets| == EVENT_DECAY_BUCKETS
    ensures Turning(buckets[b := buckets[b] + [id]], place[id := b], duration, due[id := k + Delay(duration[id])], k)
  {
    hide FiresAt, Delay, NextVisit;
    var place', due' := place[id := b], due[id := k + Delay(duration[id])];
    forall c | 0 <= c < EVENT_DECAY_BUCKETS
      ensures Lists(buckets[b := buckets[b] + [id]][c], place', c)
      ensures OnTime(buckets[b := buckets[b] + [id]][c], duration, due', NextVisit(c, k))
    {
      assert Lists(buckets[c], place, c) && OnTime(buckets[c], duration, due, NextVisit(c, k));
      assert id !in buckets[c];
    }
  }

  lemma {:induction false} FiresNoSooner(t: nat, d: int)
    ensures FiresAt(t, d) >= t
    decreases d
  {
    if d >= TURN + 875 {
      FiresNoSooner(t + EVENT_DECAY_BUCKETS, d - TURN);
    }
  }

  // ---------- in the middle of a visit at tick t ----------

  // The items before i of the visited bucket and those of the other buckets are in order for the time after the
  // visit, the others still for the visit.
  ghost predicate Visiting(buckets: seq<seq<nat>>, place: map<nat, nat>, duration: map<nat, int>, due: map<nat, nat>,
                           t: nat, i: nat)
  {
    var v := t % EVENT_DECAY_BUCKETS;
    && |buckets| == EVENT_DECAY_BUCKETS && i <= |buckets[v]|
    && (forall b | 0 <= b < EVENT_DECAY_BUCKETS :: Lists(buckets[b], place, b))
    && (forall b | 0 <= b < EVENT_DECAY_BUCKETS && b != v :: OnTime(buckets[b], duration, due, NextVisit(b, t)))
    && OnTime(buckets[v][..i], duration, due, t + EVENT_DECAY_BUCKETS)
    && OnTime(buckets[v][i..], duration, due, t)
  }

  lemma {:induction false} VisitStarts(buckets: seq<seq<nat>>, place: map<nat, nat>, duration: map<nat, int>,
                                       due: map<nat, nat>, k: nat)
    requires Turning(buckets, place, duration, due, k)
    ensures |buckets| == EVENT_DECAY_BUCKETS && Visiting(buckets, place, duration, due, k + 1, 0)
  {
    var v := (k + 1) % EVENT_DECAY_BUCKETS;
    assert NextVisit(v, k) == k + 1;
    forall b | 0 <= b < EVENT_DECAY_BUCKETS && b != v
      ensures NextVisit(b, k) == NextVisit(b, k + 1)
    {
    }
    assert buckets[v][0..] == buckets[v];
  }

  lemma {:induction false} VisitEnds(buckets: seq<seq<nat>>, place: map<nat, nat>, duration: map<nat, int>,
                                     due: map<nat, nat>, t: nat)
    requires |buckets| == EVENT_DECAY_BUCKETS
    requires Visiting(buckets, place, duration, due, t, |buckets[t % EVENT_DECAY_BUCKETS]|)
    ensures Turning(buckets, place, duration, due, t)
  {
    var v := t % EVENT_DECAY_BUCKETS;
    assert NextVisit(v, t) == t + EVENT_DECAY_BUCKETS;
    assert buckets[v][..|buckets[v]|] == buckets[v];
  }

  lemma {:induction false} ListsWithout(list: seq<nat>, place: map<nat, nat>, b: nat, i: nat)
    requires Lists(list, place, b) && i < |list|
    ensures Lists(list[..i] + list[i + 1..], place - {list[i]}, b)
  {
    assert list == list[..i] + [list[i]] + list[i + 1..];
  }

  lemma {:induction false} ListsElsewhere(list: seq<nat>, place: map<nat, nat>, b: nat, id: nat, c: nat)
    requires Lists(list, place, b) && (id in place ==> place[id] != b)
    ensures Lists(list, place - {id}, b)
    ensures id !in list
    ensures c != b ==> Lists(list, place[id := c], b)
    ensures Lists(list + [id], place[id := b], b)
  {
  }

  // An item is taken out
  lemma {:induction false} VisitErases(buckets: seq<seq<nat>>, place: map<nat, nat>, duration: map<nat, int>,
                                       due: map<nat, nat>, t: nat, i: nat, left: int)
    requires Visiting(buckets, place, duration, due, t, i) && i < |buckets[t % EVENT_DECAY_BUCKETS]|
    ensures var v := t % EVENT_DECAY_BUCKETS; var list := buckets[v];
      Visiting(buckets[v := list[..i] + list[i + 1..]], place - {list[i]}, duration[list[i] := left], due, t, i)
  {
    hide Lists, FiresAt, NextVisit;
    var v := t % EVENT_DECAY_BUCKETS;
    var list := buckets[v];
    var id := list[i];
    var rest := list[..i] + list[i + 1..];
    assert id in place && place[id] == v && NoDuplicates(list) by { InList(list, place, v, i); }
    ListsWithout(list, place, v, i);
    forall b | 0 <= b < EVENT_DECAY_BUCKETS && b != v
      ensures Lists(buckets[b], place - {id}, b) && id !in buckets[b]
    {
      ListsElsewhere(buckets[b], place, b, id, v);
    }
    assert rest[..i] == list[..i] && rest[i..] == list[i + 1..];
    assert forall x <- rest[..i] :: x in list[..i];
    assert forall x <- rest[i..] :: x in list[i..];
  }

  lemma {:induction false} InList(list: seq<nat>, place: map<nat, nat>, b: nat, i: nat)
    requires Lists(list, place, b) && i < |list|
    ensures list[i] in place && place[list[i]] == b && NoDuplicates(list)
  {
    assert list[i] in list;
  }

  // An item stays, with less time left
  lemma {:induction false} VisitKeeps(buckets: seq<seq<nat>>, place: map<nat, nat>, duration: map<nat, int>,
                                      due: map<nat, nat>, t: nat, i: nat, left: int)
    requires Visiting(buckets, place, duration, due, t, i) && i < |buckets[t % EVENT_DECAY_BUCKETS]|
    requires var id := buckets[t % EVENT_DECAY_BUCKETS][i];
      id in due && left > 0 && due[id] == FiresAt(t + EVENT_DECAY_BUCKETS, left)
    ensures var id := buckets[t % EVENT_DECAY_BUCKETS][i]; Visiting(buckets, place, duration[id := left], due, t, i + 1)
  {
    hide Lists, FiresAt, NextVisit;
    var v := t % EVENT_DECAY_BUCKETS;
    var list := buckets[v];
    InList(list, place, v, i);
    forall b | 0 <= b < EVENT_DECAY_BUCKETS && b != v
      ensures list[i] !in buckets[b]
    {
      ListsElsewhere(buckets[b], place, b, list[i], v);
    }
    assert list[..i + 1] == list[..i] + [list[i]];
    assert list[i..] == [list[i]] + list[i + 1..];
  }

  // An item that was taken out comes into another bucket
  lemma {:induction false} VisitMoves(buckets: seq<seq<nat>>, place: map<nat, nat>, duration: map<nat, int>,
                                      due: map<nat, nat>, t: nat, i: nat, id: nat, b: nat)
    requires Visiting(buckets, place, duration, due, t, i) && id !in place && b < EVENT_DECAY_BUCKETS
      && b != t % EVENT_DECAY_BUCKETS
    requires id in duration && duration[id] > 0 && id in due && due[id] == FiresAt(NextVisit(b, t), duration[id])
    ensures Visiting(buckets[b := buckets[b] + [id]], place[id := b], duration, due, t, i)
  {
    hide Lists, FiresAt, NextVisit;
    var buckets' := buckets[b := buckets[b] + [id]];
    forall c | 0 <= c < EVENT_DECAY_BUCKETS
      ensures Lists(buckets'[c], place[id := b], c)
    {
      ListsElsewhere(buckets[c], place, c, id, b);
    }
  }

  // What is left of two lists is the same, and stays so.
  lemma {:induction false} SameRest(a: seq<nat>, i: nat, b: seq<nat>, j: nat)
    requires i < |a| && j <= |b| && a[i..] == b[j..]
    ensures j < |b| && a[i] == b[j] && a[i + 1..] == b[j + 1..]
  {
    assert a[i..][0] == a[i] && a[i..][1..] == a[i + 1..] && |a[i..]| == |b| - j;
    assert b[j..][1..] == b[j + 1..];
  }

  lemma {:induction false} NoneTwice(buckets: seq<seq<nat>>, place: map<nat, nat>, duration: map<nat, int>,
                                     due: map<nat, nat>, k: nat,
                                     b: nat)
    requires Turning(buckets, place, duration, due, k) && b < EVENT_DECAY_BUCKETS
    ensures NoDuplicates(buckets[b])
  {
  }

  // Items that waited are due after their delay, and nothing else has changed.
  ghost predicate Settled(done: seq<nat>, place0: map<nat, nat>, due0: map<nat, nat>, place: map<nat, nat>,
                          due: map<nat, nat>, duration: map<nat, int>, k: nat)
  {
    && place.Keys == place0.Keys && (forall id <- place :: place[id] <= WAITING)
    && (forall id <- done :: id in due && id in duration && duration[id] > 0 && due[id] == k + Delay(duration[id]))
    && (forall id <- due0 :: id in done || (id in due && due[id] == due0[id]))
    && (forall id <- place0 :: place0[id] < WAITING ==> place[id] == place0[id])
  }

  lemma {:induction false} NothingSettled(waiting: seq<nat>, place: map<nat, nat>, due: map<nat, nat>,
                                          duration: map<nat, int>, k: nat)
    requires forall id <- place :: place[id] <= WAITING
    ensures Settled(waiting[..0], place, due, place, due, duration, k)
  {
  }

  lemma {:induction false} OneSettled(done: seq<nat>, place0: map<nat, nat>, due0: map<nat, nat>, place: map<nat, nat>,
                                      due: map<nat, nat>, duration: map<nat, int>, k: nat, id: nat, b: nat)
    requires Settled(done, place0, due0, place, due, duration, k) && id in place && place[id] == WAITING && b < WAITING
    requires id in duration && duration[id] > 0
    ensures Settled(done + [id], place0, due0, place[id := b], due[id := k + Delay(duration[id])], duration, k)
  {
    hide Delay;
  }

  lemma {:induction false} AllSettled(done: seq<nat>, place0: map<nat, nat>, due0: map<nat, nat>, place: map<nat, nat>,
                                      due: map<nat, nat>, duration: map<nat, int>, k: nat)
    requires Settled(done, place0, due0, place, due, duration, k)
    ensures place.Keys == place0.Keys && (forall id <- place :: place[id] <= WAITING)
    ensures forall id <- done :: id in due && id in duration && duration[id] > 0 && due[id] == k + Delay(duration[id])
    ensures forall id <- due0 :: id in done || (id in due && due[id] == due0[id])
    ensures forall id <- place0 :: id in place && (place0[id] < WAITING ==> place[id] == place0[id])
  {
  }

  lemma {:induction false} NextWaiting(list: seq<nat>, place: map<nat, nat>, b: nat)
    requires list != [] && Lists(list, place, WAITING) && b < WAITING
    ensures list[0] in place && place[list[0]] == WAITING
    ensures Lists(list[1..], place[list[0] := b], WAITING)
  {
    assert list[0] in list;
  }

  class Wheel {
    var decayItems: seq<seq<nat>>
    var toDecayItems: seq<nat>
    var lastBucket: nat
    var duration: map<nat, int>
    var decaying: set<nat>
    ghost var tick: nat
    ghost var place: map<nat, nat>
    ghost var due: map<nat, nat>

    /** Every decaying item is in exactly one bucket, or waits for one, and each bucket keeps its times. */
    ghost predicate Valid()
      reads this
    {
      && Turning(decayItems, place, duration, due, tick) && lastBucket == tick % EVENT_DECAY_BUCKETS
      && decaying == place.Keys && (forall id <- place :: place[id] <= WAITING)
      && Lists(toDecayItems, place, WAITING)
      && (forall id <- toDecayItems :: id in duration && duration[id] > 0)
    }

    constructor ()
      ensures Valid() && decaying == {} && tick == 0
    {
      decayItems, toDecayItems, lastBucket, duration, decaying := [[], [], [], []], [], 0, map[], {};
      tick, place, due := 0, map[], map[];
    }

    /** An item with time left waits to be put into a bucket; one without decays at once; a decaying one stays. */
    method StartDecay(id: nat, canDecay: bool, d: int) returns (atOnce: bool)
      requires Valid()
      modifies this`toDecayItems, this`duration, this`decaying, this`place
      ensures Valid()
      ensures atOnce <==> canDecay && id !in old(decaying) && d <= 0
      ensures canDecay && id !in old(decaying) && d > 0 ==>
        place == old(place)[id := WAITING] && duration == old(duration)[id := d]
      ensures !canDecay || id in old(decaying) || d <= 0 ==> place == old(place) && duration == old(duration)
    {
      atOnce := false;
      if !canDecay || id in decaying {
        return;
      }
      if d > 0 {
        duration := duration[id := d];
        decaying := decaying + {id};
        toDecayItems := [id] + toDecayItems;
        place := place[id := WAITING];
      } else {
        atOnce := true;
      }
    }

    /** Puts the waiting items into buckets; each is due after its delay. */
    method Cleanup()
      requires Valid()
      modifies this`decayItems, this`toDecayItems, this`place, this`due
      ensures Valid() && toDecayItems == []
      ensures place.Keys == old(place).Keys
      ensures forall id <- old(toDecayItems) :: id in due && due[id] == tick + Delay(duration[id])
      ensures forall id <- old(due) :: id in old(toDecayItems) || (id in due && due[id] == old(due)[id])
      ensures forall id <- old(place) :: id in place && (old(place)[id] < WAITING ==> place[id] == old(place)[id])
    {
      hide Turning, FiresAt, Delay, Lists, OnTime, NoDuplicates, NextVisit, Settled;
      var i := 0;
      NothingSettled(toDecayItems, place, due, duration, tick);
      while i < |toDecayItems|
        invariant 0 <= i <= |toDecayItems| && toDecayItems == old(toDecayItems)
        invariant Turning(decayItems, place, duration, due, tick) && Lists(toDecayItems[i..], place, WAITING)
        invariant Settled(toDecayItems[..i], old(place), old(due), place, due, duration, tick)
      {
        var id := toDecayItems[i];
        var dur := duration[id];
        var b := if dur >= TURN then lastBucket else (lastBucket + 1 + dur / 1000) % EVENT_DECAY_BUCKETS;
        PlacedWell(tick, b, dur);
        NextWaiting(toDecayItems[i..], place, b);
        Put(decayItems, place, duration, due, tick, id, b);
        OneSettled(toDecayItems[..i], old(place), old(due), place, due, duration, tick, id, b);
        due := due[id := tick + Delay(dur)];
        place := place[id := b];
        decayItems := decayItems[b := decayItems[b] + [id]];
        assert toDecayItems[..i + 1] == toDecayItems[..i] + [id];
        i := i + 1;
      }
      assert toDecayItems[..i] == toDecayItems && toDecayItems[i..] == [];
      AllSettled(toDecayItems, old(place), old(due), place, due, duration, tick);
      toDecayItems := [];
    }

    /** Counts down the item at position `at` of the visited bucket; next is where the visit goes on. */
    method VisitItem(bucket: nat, at: nat, canDecay: bool) returns (next: nat, fires: bool)
      requires bucket == (tick + 1) % EVENT_DECAY_BUCKETS && decaying == place.Keys
      requires |decayItems| == EVENT_DECAY_BUCKETS && at < |decayItems[bucket]|
      requires Visiting(decayItems, place, duration, due, tick + 1, at)
      modifies this`decayItems, this`duration, this`decaying, this`place
      ensures |decayItems| == EVENT_DECAY_BUCKETS && decaying == place.Keys
      ensures Visiting(decayItems, place, duration, due, tick + 1, next)
      ensures var list := old(decayItems[bucket]);
        && (next == at || next == at + 1)
        && decayItems[bucket] == (if next == at then list[..at] + list[at + 1..] else list)
        && next <= |decayItems[bucket]| && decayItems[bucket][next..] == list[at + 1..]
      ensures var id := old(decayItems[bucket][at]);
        && place - {id} == old(place) - {id} && id in duration && duration == old(duration)[id := duration[id]]
        && id in due && (fires <==> canDecay && due[id] == tick + 1)
        && (canDecay && !fires ==> id in place) && (id in place ==> place[id] < WAITING)
    {
      hide Visiting, FiresAt, NextVisit;
      var list := decayItems[bucket];
      var id := list[at];
      fires := false;
      VisitFacts(decayItems, place, duration, due, tick + 1, at);
      if !canDecay {
        VisitErases(decayItems, place, duration, due, tick + 1, at, duration[id]);
        decaying, place := decaying - {id}, place - {id};
        duration := duration[id := duration[id]];
        decayItems := decayItems[bucket := list[..at] + list[at + 1..]];
        return at, false;
      }
      var decreaseTime := if TURN < duration[id] then TURN else duration[id];
      var left := duration[id] - decreaseTime;
      duration := duration[id := left];
      if left >= TURN {
        VisitKeeps(decayItems, place, old(duration), due, tick + 1, at, left);
        return at + 1, false;
      }
      VisitErases(decayItems, place, old(duration), due, tick + 1, at, left);
      decayItems := decayItems[bucket := list[..at] + list[at + 1..]];
      next := at;
      var newBucket := if left <= 0 then bucket
        else (bucket + (left + EVENT_DECAYINTERVAL / 2) / 1000) % EVENT_DECAY_BUCKETS;
      assert newBucket == if left < 875 then bucket else (bucket + 1) % EVENT_DECAY_BUCKETS;
      if newBucket == bucket {
        decaying, place := decaying - {id}, place - {id};
        fires := true;
      } else {
        ghost var others := place - {id};
        VisitMoves(decayItems, others, duration, due, tick + 1, at, id, newBucket);
        place := place[id := newBucket];
        assert place == others[id := newBucket];
        decayItems := decayItems[newBucket := decayItems[newBucket] + [id]];
      }
    }

    /** Visits all items of a bucket; `fired` are those that decay. */
    method VisitBucket(bucket: nat, canDecay: set<nat>) returns (fired: seq<nat>)
      requires bucket == (tick + 1) % EVENT_DECAY_BUCKETS && |decayItems| == EVENT_DECAY_BUCKETS
      requires Turning(decayItems, place, duration, due, tick) && decaying == place.Keys
      requires Lists(toDecayItems, place, WAITING) && forall id <- place :: place[id] <= WAITING
      requires forall id <- toDecayItems :: id in duration
      modifies this`decayItems, this`duration, this`decaying, this`place
      ensures Turning(decayItems, place, duration, due, tick + 1) && decaying == place.Keys
      ensures Lists(toDecayItems, place, WAITING) && forall id <- place :: place[id] <= WAITING
      ensures forall id <- toDecayItems :: id in duration && id in old(duration) && duration[id] == old(duration)[id]
      ensures NoDuplicates(fired)
      ensures forall id :: id in fired <==>
        id in old(decayItems)[bucket] && id in canDecay && id in due && due[id] == tick + 1
      ensures forall id <- old(place) :: id in canDecay && id !in fired ==>
        id in place && (old(place)[id] < WAITING ==> place[id] < WAITING)
    {
      hide Visiting, FiresAt, NextVisit, Turning, Lists, Delay, OnTime, Visited, NoDuplicates;
      fired := [];
      var it: nat := 0;
      VisitStarts(decayItems, place, duration, due, tick);
      NoneTwice(decayItems, place, duration, due, tick, bucket);
      ghost var j, list := 0, decayItems[bucket];
      NothingVisited(list, canDecay, due, tick + 1, place);
      while it < |decayItems[bucket]|
        invariant |decayItems| == EVENT_DECAY_BUCKETS && it <= |decayItems[bucket]| && decaying == place.Keys
        invariant Visiting(decayItems, place, duration, due, tick + 1, it)
        invariant j <= |list| && decayItems[bucket][it..] == list[j..]
        invariant Visited(list[..j], fired, canDecay, due, tick + 1, old(place), place)
        invariant Lists(toDecayItems, place, WAITING) && forall id <- place :: place[id] <= WAITING
        invariant forall id <- toDecayItems ::
          id in duration && id in old(duration) && duration[id] == old(duration)[id]
        decreases |list| - j
      {
        var id := decayItems[bucket][it];
        SameRest(decayItems[bucket], it, list, j);
        NextInList(list, j, fired);
        WaitingFacts(decayItems, toDecayItems, place, duration, due, tick + 1, it);
        var fires;
        ghost var before := place;
        it, fires := VisitItem(bucket, it, id in canDecay);
        StillWaiting(toDecayItems, before, place, id);
        OneVisited(list[..j], fired, canDecay, due, tick + 1, old(place), before, place, id, fires);
        if fires {
          fired := fired + [id];
        }
        j := j + 1;
      }
      AllVisited(list[..j], fired, canDecay, due, tick + 1, old(place), place);
      assert list[..j] == list;
      VisitEnds(decayItems, place, duration, due, tick + 1);
    }

    /**
      One tick: visits the next bucket.  The items whose time has come decay, each once, and no others do; of the
      rest those that can no longer decay leave the wheel and all others keep the tick at which they are due.
     */
    method CheckDecay(canDecay: set<nat>) returns (fired: seq<nat>)
      requires Valid()
      modifies this
      ensures Valid() && tick == old(tick) + 1 && toDecayItems == []
      ensures NoDuplicates(fired)
      ensures forall id :: id in fired <==>
        id in old(place) && old(place)[id] < WAITING && id in canDecay && id in old(due) && old(due)[id] == tick
      ensures forall id <- old(place) :: old(place)[id] < WAITING && id !in fired && id in canDecay ==>
        id in place && id in due && id in old(due) && due[id] == old(due)[id]
      ensures forall id <- old(toDecayItems) ::
        id in place && id in due && id in old(duration) && due[id] == tick + Delay(old(duration)[id])
    {
      hide Turning, FiresAt, NextVisit, OnTime, NoDuplicates, Delay;
      var bucket := (lastBucket + 1) % EVENT_DECAY_BUCKETS;
      DueAtTheNextTick(decayItems, place, duration, due, tick);
      fired := VisitBucket(bucket, canDecay);
      tick := tick + 1;
      lastBucket := bucket;
      Cleanup();
    }
  }

  lemma {:induction false} DueAtTheNextTick(buckets: seq<seq<nat>>, place: map<nat, nat>, duration: map<nat, int>,
                                            due: map<nat, nat>, k: nat)
    requires Turning(buckets, place, duration, due, k)
    ensures |buckets| == EVENT_DECAY_BUCKETS
    ensures forall id <- place :: place[id] < WAITING ==>
      id in due && due[id] > k && (due[id] == k + 1 ==> id in buckets[(k + 1) % EVENT_DECAY_BUCKETS])
    ensures forall id <- buckets[(k + 1) % EVENT_DECAY_BUCKETS] :: id in place && place[id] < WAITING
  {
    forall id | id in place && place[id] < WAITING
      ensures id in due && due[id] > k && (due[id] == k + 1 ==> id in buckets[(k + 1) % EVENT_DECAY_BUCKETS])
    {
      var b := place[id];
      assert id in buckets[b];
      FiresNoSooner(NextVisit(b, k), duration[id]);
    }
  }

  lemma {:induction false} NextInList(list: seq<nat>, j: nat, fired: seq<nat>)
    requires j < |list| && NoDuplicates(list)
    ensures list[..j + 1] == list[..j] + [list[j]] && list[j] !in list[..j]
  {
  }

  // Of the items visited those that were due and can decay have fired, and the others are in a bucket still.
  ghost predicate Visited(done: seq<nat>, fired: seq<nat>, canDecay: set<nat>, due: map<nat, nat>, t: nat,
                          place0: map<nat, nat>, place: map<nat, nat>)
  {
    && NoDuplicates(fired)
    && (forall id :: id in fired <==> id in done && id in canDecay && id in due && due[id] == t)
    && (forall id <- place0 :: id in canDecay && id !in fired ==>
      id in place && (place0[id] < WAITING ==> place[id] < WAITING))
  }

  lemma {:induction false} NothingVisited(list: seq<nat>, canDecay: set<nat>, due: map<nat, nat>, t: nat,
                                          place: map<nat, nat>)
    ensures Visited(list[..0], [], canDecay, due, t, place, place)
  {
  }

  lemma {:induction false} OneVisited(done: seq<nat>, fired: seq<nat>, canDecay: set<nat>, due: map<nat, nat>, t: nat,
                                      place0: map<nat, nat>, before: map<nat, nat>, place: map<nat, nat>, id: nat,
                                        fires: bool)
    requires Visited(done, fired, canDecay, due, t, place0, before) && id !in done
    requires forall x | x != id :: (x in place <==> x in before) && (x in place ==> place[x] == before[x])
    requires fires <==> id in canDecay && id in due && due[id] == t
    requires (id in canDecay && !fires ==> id in place) && (id in place ==> place[id] < WAITING)
    ensures Visited(done + [id], if fires then fired + [id] else fired, canDecay, due, t, place0, place)
  {
  }

  lemma {:induction false} AllVisited(done: seq<nat>, fired: seq<nat>, canDecay: set<nat>, due: map<nat, nat>, t: nat,
                                      place0: map<nat, nat>, place: map<nat, nat>)
    requires Visited(done, fired, canDecay, due, t, place0, place)
    ensures NoDuplicates(fired)
    ensures forall id :: id in fired <==> id in done && id in canDecay && id in due && due[id] == t
    ensures forall id <- place0 :: id in canDecay && id !in fired ==>
      id in place && (place0[id] < WAITING ==> place[id] < WAITING)
  {
  }

  lemma {:induction false} WaitingFacts(buckets: seq<seq<nat>>, waiting: seq<nat>, place: map<nat, nat>,
                                        duration: map<nat, int>, due: map<nat, nat>, t: nat, i: nat)
    requires Visiting(buckets, place, duration, due, t, i) && i < |buckets[t % EVENT_DECAY_BUCKETS]|
      && Lists(waiting, place, WAITING)
    ensures var id := buckets[t % EVENT_DECAY_BUCKETS][i]; id in place && place[id] < WAITING && id !in waiting
  {
    InList(buckets[t % EVENT_DECAY_BUCKETS], place, t % EVENT_DECAY_BUCKETS, i);
  }

  lemma {:induction false} StillWaiting(waiting: seq<nat>, before: map<nat, nat>, place: map<nat, nat>, id: nat)
    requires Lists(waiting, before, WAITING) && id !in waiting && place - {id} == before - {id}
      && (id in place ==> place[id] != WAITING)
    ensures Lists(waiting, place, WAITING)
    ensures forall x | x != id :: (x in place <==> x in before) && (x in place ==> place[x] == before[x])
  {
    forall x | x != id
      ensures x in place <==> x in before
      ensures x in place ==> place[x] == before[x]
    {
      assert x in place <==> x in place - {id};
      assert x in before <==> x in before - {id};
    }
  }

  lemma {:induction false} VisitFacts(buckets: seq<seq<nat>>, place: map<nat, nat>, duration: map<nat, int>,
                                      due: map<nat, nat>, t: nat, i: nat)
    requires Visiting(buckets, place, duration, due, t, i) && i < |buckets[t % EVENT_DECAY_BUCKETS]|
    ensures var v := t % EVENT_DECAY_BUCKETS; var id := buckets[v][i];
      && id in place && place[id] == v && id in duration && duration[id] > 0 && id in due
        && due[id] == FiresAt(t, duration[id])
      && (var left := duration[id] - if TURN < duration[id] then TURN else duration[id];
        && (due[id] == t <==> left < 875)
        && (left >= 875 ==> if left < TURN then due[id] == FiresAt(NextVisit((v + 1) % EVENT_DECAY_BUCKETS, t), left)
          else due[id] == FiresAt(t + EVENT_DECAY_BUCKETS, left)))
  {
    var v := t % EVENT_DECAY_BUCKETS;
    var id := buckets[v][i];
    InList(buckets[v], place, v, i);
    assert id in buckets[v][i..];
    var left := duration[id] - if TURN < duration[id] then TURN else duration[id];
    FiresNoSooner(t + EVENT_DECAY_BUCKETS, left);
  }

  // The bucket chosen for a new item is visited when it should be
  lemma {:induction false} PlacedWell(tick: nat, b: nat, d: int)
    requires d > 0
    requires b == if d >= TURN then tick % EVENT_DECAY_BUCKETS
      else (tick % EVENT_DECAY_BUCKETS + 1 + d / 1000) % EVENT_DECAY_BUCKETS
    ensures b < EVENT_DECAY_BUCKETS && FiresAt(NextVisit(b, tick), d) == tick + Delay(d)
  {
    FiresAfterDelay(NextVisit(b, tick), d);
  }
}
