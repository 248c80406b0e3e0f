/**
  The damage list of a poison, fire or similar condition: an amount of damage is dealt in hits that fall from a
  first value down to 1.  The quotients are exact here, where the program rounds them to floating point.
 */
module DamageList {

  function Sum(list: seq<int>): int
  {
    if list == [] then 0 else Sum(list[..|list| - 1]) + list[|list| - 1]
  }

  ghost predicate NonIncreasing(list: seq<int>)
  {
    forall i, j | 0 <= i < j < |list| :: list[i] >= list[j]
  }

  function Abs(x: real): real
  {
    if x < 0.0 then -x else x
  }

  // How far the quotient of a sum and its target is from 1
  function Off(sum: int, med: int): real
    requires med != 0
  {
    Abs(1.0 - sum as real / med as real)
  }

  // One more hit of i brings the sum closer to its target.  A target of 0 makes both distances infinite.
  predicate Closer(sum: int, i: int, med: int)
  {
    med != 0 && Off(sum + i, med) < Off(sum, med)
  }

  lemma {:induction false} Scaled(x: int, med: int)
    requires med > 0
    ensures Off(x, med) * med as real == Apart(x, med) as real
  {
    var q := x as real / med as real;
    assert q * med as real == x as real;
    if x > med {
      if q < 1.0 {
        assert (1.0 - q) * med as real > 0.0;
      }
      assert (q - 1.0) * med as real == x as real - med as real;
    } else {
      if q > 1.0 {
        assert (q - 1.0) * med as real > 0.0;
      }
      assert (1.0 - q) * med as real == med as real - x as real;
    }
  }

  // A further hit is closer exactly when more than half of it is missing.
  lemma {:induction false} CloserIff(sum: int, i: int, med: int)
    requires i > 0 && sum > 0 && med >= 0
    ensures Closer(sum, i, med) <==> 2 * (med - sum) > i
  {
    hide Off;
    if med == 0 {
      assert !Closer(sum, i, med);
    } else {
      var a, b, m := Off(sum + i, med), Off(sum, med), med as real;
      var da, db := Apart(sum + i, med), Apart(sum, med);
      Scaled(sum + i, med);
      Scaled(sum, med);
      calc <==> {
        Closer(sum, i, med);
        a < b;
        { SameOrder(a, b, m, da as real, db as real); }
        da as real < db as real;
        da < db;
        { ApartIff(sum, i, med); }
        2 * (med - sum) > i;
      }
    }
  }

  function Apart(x: int, y: int): int
  {
    if x > y then x - y else y - x
  }

  lemma {:induction false} ApartIff(sum: int, i: int, med: int)
    requires i > 0
    ensures Apart(sum + i, med) < Apart(sum, med) <==> 2 * (med - sum) > i
  {
  }

  lemma {:induction false} SameOrder(a: real, b: real, m: real, p: real, q: real)
    requires m > 0.0 && a * m == p && b * m == q
    ensures a < b <==> p < q
  {
    assert (b - a) * m == b * m - a * m;
  }

  // The target for the sum after the hits of value start + 1 - n
  function Target(n: int, amount: int, start: int): int
    requires start > 0
  {
    n * amount / start
  }

  lemma {:induction false} TargetBounds(n: int, amount: nat, start: int)
    requires 1 <= n <= start
    ensures 0 <= Target(n, amount, start) && start * Target(n, amount, start) <= n * amount
    ensures n == start ==> Target(n, amount, start) == amount
  {
    FloorBounds(n * amount, start);
    Times(n, 0, amount);
    FloorPositive(n * amount, start);
    if n == start {
      FloorExact(start, amount);
    }
  }

  lemma {:induction false} FloorPositive(x: nat, k: int)
    requires k > 0
    ensures x / k >= 0
  {
  }

  lemma {:induction false} FloorExact(k: int, x: int)
    requires k > 0
    ensures k * x / k == x
  {
    FloorBounds(k * x, k);
    CancelFactor(k, x, k * x / k);
    OneStep(k, k * x / k, x);
  }

  lemma {:induction false} OneStep(k: int, q: int, x: int)
    requires k > 0 && k * x < k * q + k
    ensures x <= q
  {
    if x >= q + 1 {
      Times(k, q + 1, x);
      assert false;
    }
  }

  // If there is room for one hit of each value, hits that are closer to their target leave room for the values below.
  lemma {:induction false} RoomBelow(i: int, sum: int, amount: nat, start: int)
    requires 1 <= i <= start && 2 * amount >= start * (start + 1)
    requires 2 * (Target(start + 1 - i, amount, start) - sum) > i
    ensures 2 * (sum + i) + i * (i - 1) <= 2 * amount
  {
    TargetBounds(start + 1 - i, amount, start);
    LeavesRoom(i, Target(start + 1 - i, amount, start), amount, start);
    assert i * (i - 1) == i * i - i && (i - 1) * (i + 1) == i * i - 1;
  }

  lemma {:induction false} LeavesRoom(i: int, med: int, amount: nat, start: int)
    requires 1 <= i <= start && 2 * amount >= start * (start + 1) && start * med <= (start + 1 - i) * amount
    ensures 2 * (amount - med) >= (i - 1) * (i + 1)
  {
    Times(i - 1, start * (start + 1), 2 * amount);
    Distribute(start, i, med, amount);
    CancelFactor(start, 2 * (amount - med), (i - 1) * (start + 1));
    Times(i - 1, i + 1, start + 1);
  }

  lemma {:induction false} Distribute(start: int, i: int, med: int, amount: int)
    ensures start * (2 * (amount - med)) == 2 * (start * amount) - 2 * (start * med)
    ensures (start + 1 - i) * amount == start * amount - (i - 1) * amount
    ensures (i - 1) * (2 * amount) == 2 * ((i - 1) * amount)
    ensures (i - 1) * (start * (start + 1)) == start * ((i - 1) * (start + 1))
  {
    assert (i - 1) * (start * (start + 1)) == (i - 1) * start * (start + 1) == start * (i - 1) * (start + 1);
  }

  lemma {:induction false} Times(k: int, a: int, b: int)
    requires k >= 0 && a <= b
    ensures k * a <= k * b
  {
    assert k * (b - a) >= 0;
  }

  lemma {:induction false} CancelFactor(k: int, a: int, b: int)
    requires k > 0 && k * a >= k * b
    ensures a >= b
  {
  }

  // With at least start damage for every value, the targets are further apart than the largest hit.
  lemma {:induction false} TargetsApart(n: int, amount: nat, start: int)
    requires 1 <= n <= start && amount >= start * start
    ensures Target(n, amount, start) >= Target(n - 1, amount, start) + start
    ensures n == 1 ==> Target(n - 1, amount, start) == 0
  {
    assert n * amount == (n - 1) * amount + amount;
    FloorBounds((n - 1) * amount, start);
    FloorBounds(n * amount, start);
    FloorsApart(Target(n - 1, amount, start), Target(n, amount, start), (n - 1) * amount, amount, start);
  }

  lemma {:induction false} FloorBounds(x: int, k: int)
    requires k > 0
    ensures k * (x / k) <= x < k * (x / k) + k
  {
  }

  lemma {:induction false} FloorsApart(p: int, q: int, x: int, amount: int, k: int)
    requires k > 0 && k * p <= x && x + amount < k * q + k && amount >= k * k
    ensures q >= p + k
  {
    var d := p + k - 1 - q;
    assert k * d == k * p + k * k - k - k * q;
    if d >= 0 {
      assert false;
    }
  }

  // What holds of the sum once all hits above i are listed
  ghost predicate OnTrack(i: int, sum: int, total: nat, start: int)
    requires start > 0
  {
    && (i == start ==> sum == 0)
    && 2 * sum >= start * (start + 1) - (i + 1) * i
    && (2 * total >= start * (start + 1) ==> 2 * sum + (i + 1) * i <= 2 * total)
    && (i < start ==> 2 * (Target(start - i, total, start) - sum) <= i + 1)
    && (total >= start * start ==> 2 * (sum - Target(start - i, total, start)) <= i + 1)
  }

  // The hits of value i bring the sum from s to s'
  lemma {:induction false} StaysOnTrack(i: int, s: int, s': int, total: nat, start: int)
    requires 1 <= i <= start && OnTrack(i, s, total, start) && s' >= s + i
    requires var med := Target(start + 1 - i, total, start);
      2 * (med - s') <= i && (s' == s + i || 2 * (med - (s' - i)) > i)
    ensures OnTrack(i - 1, s', total, start)
  {
    hide Target;
    assert (i + 1) * i == i * (i - 1) + 2 * i && start + 1 - i == start - (i - 1);
    if 2 * total >= start * (start + 1) && s' != s + i {
      RoomBelow(i, s' - i, total, start);
    }
    if total >= start * start {
      TargetsApart(start + 1 - i, total, start);
    }
  }

  // Every value from start down to i occurs
  ghost predicate FallsTo(list: seq<int>, start: int, i: int)
  {
    && NonIncreasing(list) && |list| > 0 && list[0] == start && list[|list| - 1] == i
    && forall v | i <= v <= start :: v in list
  }

  // The sum after the hits of value i is within half a hit of its target
  ghost predicate Near(i: int, sum: int, total: nat, start: int)
    requires start > 0
  {
    -i <= 2 * (sum - Target(start + 1 - i, total, start)) <= i
  }

  function Magnitude(amount: int): nat
  {
    if amount < 0 then -amount else amount
  }

  /**
    The hits fall from start to 1 without a gap and deal at least the amount.  They deal exactly the amount if and
    only if it is enough for one hit of each value; and if it is at least start * start, the sum after the
    hits of each value is within half a hit of its target.
   */
  method GenerateDamageList(amount: int, start: int) returns (list: seq<int>, ghost after: map<int, int>)
    requires start >= 1
    ensures FallsTo(list, start, 1) && Sum(list) >= Magnitude(amount)
    ensures Sum(list) == Magnitude(amount) <==> 2 * Magnitude(amount) >= start * (start + 1)
    ensures forall i | 1 <= i <= start :: i in after && after[i] == Sum(Down(list, i))
    ensures Magnitude(amount) >= start * start ==>
      forall i | 1 <= i <= start :: Near(i, after[i], Magnitude(amount), start)
  {
    hide Target, FallsTo, Closer, Down, OnTrack;
    var total := Magnitude(amount);
    list, after := [], map[];
    var sum, i := 0, start;
    assert OnTrack(i, sum, total, start) by { StartsOnTrack(total, start); }
    while i > 0
      invariant 0 <= i <= start
      invariant if i == start then list == [] else FallsTo(list, start, i + 1)
      invariant sum == Sum(list) && 0 <= sum && OnTrack(i, sum, total, start)
      invariant forall k | i < k <= start :: k in after && after[k] == Sum(Down(list, k))
      invariant total >= start * start ==> forall k | i < k <= start :: Near(k, after[k], total, start)
    {
      var med := Target(start + 1 - i, total, start);
      TargetBounds(start + 1 - i, total, start);
      ghost var before := sum;
      HitFacts(list, start, i);
      HitSums(list, i);
      sum, list := sum + i, list + [i];
      CloserIff(sum, i, med);
      while Closer(sum, i, med)
        invariant sum == Sum(list) && sum >= before + i && FallsTo(list, start, i)
        invariant sum == before + i || 2 * (med - (sum - i)) > i
        invariant Closer(sum, i, med) <==> 2 * (med - sum) > i
        invariant Down(list, i) == list && forall k | i < k <= start :: after[k] == Sum(Down(list, k))
        decreases med - sum
      {
        HitFacts(list, start, i);
        HitSums(list, i);
        sum, list := sum + i, list + [i];
        CloserIff(sum, i, med);
      }
      StaysOnTrack(i, before, sum, total, start);
      assert total >= start * start ==> Near(i, sum, total, start) by { OnTrackIsNear(i, sum, total, start, med); }
      after := after[i := sum];
      i := i - 1;
    }
    EndsOnTrack(sum, total, start);
  }

  // The hits of at least i
  function Down(list: seq<int>, i: int): seq<int>
  {
    if list == [] || list[|list| - 1] >= i then list else Down(list[..|list| - 1], i)
  }

  lemma {:induction false} StartsOnTrack(total: nat, start: int)
    requires start > 0
    ensures OnTrack(start, 0, total, start)
  {
    hide Target;
    NoHits(total, start);
    assert (start + 1) * start == start * (start + 1);
  }

  lemma {:induction false} NoHits(total: nat, start: int)
    requires start > 0
    ensures Target(start - start, total, start) == 0
  {
  }

  lemma {:induction false} EndsOnTrack(sum: int, total: nat, start: int)
    requires start > 0 && OnTrack(0, sum, total, start)
    ensures sum >= total && (sum == total <==> 2 * total >= start * (start + 1))
  {
    TargetBounds(start, total, start);
  }

  lemma {:induction false} OnTrackIsNear(i: int, sum: int, total: nat, start: int, med: int)
    requires 1 <= i <= start && OnTrack(i - 1, sum, total, start)
    requires med == Target(start + 1 - i, total, start)
    ensures total >= start * start ==> Near(i, sum, total, start)
  {
    assert start - (i - 1) == start + 1 - i;
  }

  // One more hit at the end
  lemma {:induction false} HitFacts(list: seq<int>, start: int, i: int)
    requires if i == start then list == [] || FallsTo(list, start, i)
      else FallsTo(list, start, i) || FallsTo(list, start, i + 1)
    ensures FallsTo(list + [i], start, i)
  {
    var r := list + [i];
    assert list != [] ==> forall k | 0 <= k < |list| :: list[k] >= list[|list| - 1];
    forall v | i <= v <= start
      ensures v in r
    {
      assert v == i || v in list;
    }
  }

  lemma {:induction false} HitSums(list: seq<int>, i: int)
    ensures Sum(list + [i]) == Sum(list) + i
    ensures forall k | k > i :: Down(list + [i], k) == Down(list, k)
    ensures Down(list + [i], i) == list + [i]
  {
    assert (list + [i])[..|list|] == list;
  }
}
