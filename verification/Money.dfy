/**
  Paying and receiving coins.  A purse is a container, the coins in the bags below it and the tile on which
  it stands.  Paying takes the smallest stacks first and gives change for the last one.
 */
module Money {
  import opened Options
  import opened Stacks

  const GOLD := Kind(2148, true, true, true)
  const PLATINUM := Kind(2152, true, true, true)
  const CRYSTAL := Kind(2160, true, true, true)

  function Unit(kind: Kind): nat
  {
    if kind == GOLD then 1 else if kind == PLATINUM then 100 else if kind == CRYSTAL then 10000 else 0
  }

  function Worth(p: Piece): nat
  {
    Unit(p.kind) * p.count
  }

  // What all coins of a list are worth, kind by kind
  function Wealth(list: seq<Piece>): int
  {
    Total(list, GOLD) + 100 * Total(list, PLATINUM) + 10000 * Total(list, CRYSTAL)
  }

  // ... and stack by stack
  function SumWorth(list: seq<Piece>): nat
  {
    if list == [] then 0 else Worth(list[0]) + SumWorth(list[1..])
  }

  lemma {:induction false} WealthIsSumOfStacks(list: seq<Piece>)
    ensures Wealth(list) == SumWorth(list)
  {
    if list != [] {
      WealthIsSumOfStacks(list[1..]);
    }
  }

  lemma {:induction false} SumWorthConcat(a: seq<Piece>, b: seq<Piece>)
    ensures SumWorth(a + b) == SumWorth(a) + SumWorth(b)
  {
    if a == [] {
      assert a + b == b;
    } else {
      assert (a + b)[1..] == a[1..] + b;
      SumWorthConcat(a[1..], b);
    }
  }

  lemma {:induction false} WealthRemoved(list: seq<Piece>, i: nat, m: nat)
    requires i < |list| && (if list[i].kind.stackable then m <= list[i].count else m == list[i].count)
    ensures Wealth(Removed(list, i, m)) == Wealth(list) - Unit(list[i].kind) * m
  {
    RemovedTotal(list, i, m, GOLD);
    RemovedTotal(list, i, m, PLATINUM);
    RemovedTotal(list, i, m, CRYSTAL);
  }

  // ---------- items by their serial number ----------

  ghost predicate Distinct(list: seq<Piece>)
  {
    forall i, j | 0 <= i < j < |list| :: list[i].serial != list[j].serial
  }

  ghost predicate Below(list: seq<Piece>, n: nat)
  {
    forall p <- list :: p.serial < n
  }

  // The item with the serial number of p is in the list, with at least the count of p
  ghost predicate Has(list: seq<Piece>, p: Piece)
  {
    exists q <- list :: AtLeast(q, p)
  }

  // Everything is still there, in whatever larger count
  ghost predicate Kept(before: seq<Piece>, now: seq<Piece>)
  {
    forall p <- before :: Has(now, p)
  }

  ghost predicate HasSerial(list: seq<Piece>, serial: nat)
  {
    exists p <- list :: p.serial == serial
  }

  // What is there now was there before or has a number from n on.
  ghost predicate NoneNew(before: seq<Piece>, now: seq<Piece>, n: nat)
  {
    forall p <- now :: p.serial >= n || HasSerial(before, p.serial)
  }

  lemma {:induction false} NoneNewThen(a: seq<Piece>, b: seq<Piece>, c: seq<Piece>, n: nat, m: nat)
    requires NoneNew(a, b, n) && NoneNew(b, c, m) && n <= m
    ensures NoneNew(a, c, n)
  {
  }

  lemma {:induction false} NoneNewLess(a: seq<Piece>, b: seq<Piece>, c: seq<Piece>, n: nat)
    requires a == b || NoneNew(a, b, n)
    requires forall p <- c :: HasSerial(b, p.serial)
    ensures NoneNew(a, c, n)
  {
  }

  // A number that is gone does not come back.
  lemma {:induction false} StaysGone(before: seq<Piece>, now: seq<Piece>, n: nat, serial: nat)
    requires NoneNew(before, now, n) && serial < n && !HasSerial(before, serial)
    ensures !HasSerial(now, serial)
  {
  }

  lemma {:induction false} KeptThen(a: seq<Piece>, b: seq<Piece>, c: seq<Piece>)
    requires Kept(a, b) && Kept(b, c)
    ensures Kept(a, c)
  {
    forall p | p in a
      ensures Has(c, p)
    {
      var q :| q in b && AtLeast(q, p);
      assert Has(c, q);
    }
  }

  lemma {:induction false} GrownIsKept(list: seq<Piece>, grown: seq<Piece>, inner: seq<Piece>, serial: nat)
    requires Grown(list, grown, serial) && Distinct(list + inner) && Below(list + inner, serial)
    ensures Kept(list + inner, grown + inner)
    ensures Distinct(grown + inner) && Below(grown + inner, serial + 1)
    ensures NoneNew(list + inner, grown + inner, serial)
  {
    hide Kept, Distinct, Below, NoneNew;
    var d := |grown| - |list|;
    assert OnTop(list + inner, grown + inner, d, serial);
    OnTopIsKept(list + inner, grown + inner, d, serial);
    OnTopIsNumbered(list + inner, grown + inner, d, serial);
    OnTopIsDistinct(list + inner, grown + inner, d, serial);
  }

  // d items, none or one with a new number, lie on top of what there was.
  ghost predicate OnTop(all: seq<Piece>, now: seq<Piece>, d: int, serial: nat)
  {
    && 0 <= d <= 1 && |now| == |all| + d && (d == 1 ==> now[0].serial == serial)
    && forall i | d <= i < |now| :: AtLeast(now[i], all[i - d])
  }

  lemma {:induction false} OnTopIsKept(all: seq<Piece>, now: seq<Piece>, d: int, serial: nat)
    requires OnTop(all, now, d, serial)
    ensures Kept(all, now)
  {
    forall p | p in all
      ensures Has(now, p)
    {
      var j :| 0 <= j < |all| && all[j] == p;
      assert AtLeast(now[j + d], p);
    }
  }

  lemma {:induction false} OnTopIsNumbered(all: seq<Piece>, now: seq<Piece>, d: int, serial: nat)
    requires OnTop(all, now, d, serial) && Below(all, serial)
    ensures Below(now, serial + 1) && NoneNew(all, now, serial)
  {
    forall p | p in now
      ensures p.serial < serial + 1 && (p.serial >= serial || HasSerial(all, p.serial))
    {
      var i :| 0 <= i < |now| && now[i] == p;
      if i >= d {
        assert AtLeast(now[i], all[i - d]) && all[i - d] in all;
      }
    }
  }

  lemma {:induction false} OnTopIsDistinct(all: seq<Piece>, now: seq<Piece>, d: int, serial: nat)
    requires OnTop(all, now, d, serial) && Distinct(all) && Below(all, serial)
    ensures Distinct(now)
  {
    forall i, j | 0 <= i < j < |now|
      ensures now[i].serial != now[j].serial
    {
      assert AtLeast(now[j], all[j - d]) && all[j - d] in all;
      if i >= d {
        assert AtLeast(now[i], all[i - d]);
      }
    }
  }

  // ---------- the ascending list of stacks, as the multimap keeps it ----------

  ghost predicate Ascending(entries: seq<Piece>)
  {
    forall i, j | 0 <= i < j < |entries| :: Worth(entries[i]) <= Worth(entries[j])
  }

  /** Puts a stack behind all that are worth no more. */
  method Emplace(entries: seq<Piece>, item: Piece) returns (r: seq<Piece>, k: nat)
    requires Ascending(entries)
    ensures k <= |entries| && r == entries[..k] + [item] + entries[k..]
    ensures Ascending(r) && SumWorth(r) == SumWorth(entries) + Worth(item)
  {
    hide Worth;
    k := 0;
    while k < |entries| && Worth(entries[k]) <= Worth(item)
      invariant 0 <= k <= |entries|
      invariant forall i | 0 <= i < k :: Worth(entries[i]) <= Worth(item)
    {
      k := k + 1;
    }
    r := entries[..k] + [item] + entries[k..];
    AscendingWith(entries, k, item);
    SumWorthWith(entries, k, item);
  }

  lemma {:induction false} AscendingWith(entries: seq<Piece>, k: nat, item: Piece)
    requires Ascending(entries) && k <= |entries|
    requires forall i | 0 <= i < k :: Worth(entries[i]) <= Worth(item)
    requires k < |entries| ==> Worth(entries[k]) > Worth(item)
    ensures Ascending(entries[..k] + [item] + entries[k..])
  {
    hide Worth;
    var r := entries[..k] + [item] + entries[k..];
    forall i, j | 0 <= i < j < |r|
      ensures Worth(r[i]) <= Worth(r[j])
    {
      if i == k {
        assert Worth(entries[k]) <= Worth(entries[j - 1]);
      }
    }
  }

  lemma {:induction false} SumWorthWith(entries: seq<Piece>, k: nat, item: Piece)
    requires k <= |entries|
    ensures SumWorth(entries[..k] + [item] + entries[k..]) == SumWorth(entries) + Worth(item)
  {
    hide Worth;
    assert entries == entries[..k] + entries[k..];
    SumWorthConcat(entries[..k], entries[k..]);
    SumWorthConcat(entries[..k] + [item], entries[k..]);
    SumWorthConcat(entries[..k], [item]);
  }

  // All coins of a list and nothing else, none twice, in ascending worth
  ghost predicate Listed(items: seq<Piece>, moneyMap: seq<Piece>)
  {
    Ascending(moneyMap) && Distinct(moneyMap) && forall p :: p in moneyMap <==> p in items && Worth(p) != 0
  }

  /** Looks through the coins and lists them in ascending worth. */
  method Collect(items: seq<Piece>) returns (moneyMap: seq<Piece>, moneyCount: nat)
    requires Distinct(items)
    ensures Listed(items, moneyMap)
    ensures moneyCount == SumWorth(moneyMap) == SumWorth(items)
  {
    hide Listed, Worth, Distinct, SumWorth;
    moneyMap, moneyCount := [], 0;
    NothingListed(items);
    for i := 0 to |items|
      invariant Listed(items[..i], moneyMap) && moneyCount == SumWorth(moneyMap) == SumWorth(items[..i])
    {
      ghost var before := moneyMap;
      NextWorth(items, i);
      OneMoreListed(items, i, before);
      var worth := Worth(items[i]);
      if worth != 0 {
        moneyCount := moneyCount + worth;
        var k;
        moneyMap, k := Emplace(moneyMap, items[i]);
      }
    }
    assert items[..|items|] == items;
  }

  lemma {:induction false} NothingListed(items: seq<Piece>)
    ensures Listed(items[..0], []) && SumWorth([]) == SumWorth(items[..0]) == 0
  {
  }

  lemma {:induction false} NextWorth(items: seq<Piece>, i: nat)
    requires i < |items|
    ensures SumWorth(items[..i + 1]) == SumWorth(items[..i]) + Worth(items[i])
  {
    hide Worth;
    assert items[..i + 1] == items[..i] + [items[i]];
    SumWorthConcat(items[..i], [items[i]]);
    assert SumWorth([items[i]]) == Worth(items[i]);
  }

  // Wherever the next coin is put in ascending order, the list is that of one item more; other items stay out.
  lemma {:induction false} OneMoreListed(items: seq<Piece>, i: nat, entries: seq<Piece>)
    requires Distinct(items) && i < |items| && Listed(items[..i], entries)
    ensures Ascending(entries)
    ensures Worth(items[i]) == 0 ==> Listed(items[..i + 1], entries)
    ensures forall k: nat | k <= |entries| :: var r := entries[..k] + [items[i]] + entries[k..];
      Worth(items[i]) != 0 && Ascending(r) ==> Listed(items[..i + 1], r)
  {
    hide Worth, Ascending;
    assert items[..i + 1] == items[..i] + [items[i]];
    forall p | p in entries
      ensures p.serial != items[i].serial
    {
      assert p in items[..i];
    }
    forall k: nat | k <= |entries|
      ensures var r := entries[..k] + [items[i]] + entries[k..];
        Worth(items[i]) != 0 && Ascending(r) ==> Listed(items[..i + 1], r)
    {
      EmplacedDistinct(entries, k, items[i], entries[..k] + [items[i]] + entries[k..]);
    }
  }

  lemma {:induction false} EmplacedDistinct(entries: seq<Piece>, k: nat, item: Piece, r: seq<Piece>)
    requires Distinct(entries) && (forall p <- entries :: p.serial != item.serial)
    requires k <= |entries| && r == entries[..k] + [item] + entries[k..]
    ensures Distinct(r)
    ensures forall p :: p in r <==> p in entries || p == item
  {
    forall p
      ensures p in r <==> p in entries || p == item
    {
      assert entries == entries[..k] + entries[k..];
    }
  }

  method GetThingIndex(list: seq<Piece>, serial: nat) returns (index: int)
    ensures -1 <= index < |list|
    ensures index >= 0 ==> list[index].serial == serial
    ensures index == -1 ==> forall p <- list :: p.serial != serial
  {
    for i := 0 to |list|
      invariant forall j | 0 <= j < i :: list[j].serial != serial
    {
      if list[i].serial == serial {
        return i;
      }
    }
    index := -1;
  }

  // The item found under a serial number is the one asked for
  lemma {:induction false} TheItem(all: seq<Piece>, i: nat, item: Piece)
    requires Distinct(all) && Has(all, item) && i < |all| && all[i].serial == item.serial
    ensures AtLeast(all[i], item)
    ensures item in all ==> all[i] == item
  {
    var q :| q in all && AtLeast(q, item);
    var j :| 0 <= j < |all| && all[j] == q;
    assert i == j;
    if item in all {
      var k :| 0 <= k < |all| && all[k] == item;
      assert i == k;
    }
  }

  lemma {:induction false} NotOnTop(top: seq<Piece>, inner: seq<Piece>, item: Piece)
    requires Has(top + inner, item) && forall p <- top :: p.serial != item.serial
    ensures exists p <- inner :: p.serial == item.serial
  {
    var q :| q in top + inner && AtLeast(q, item);
    assert q in inner;
  }

  // Taking from one item leaves the others as they are
  lemma {:induction false} OthersStay(all: seq<Piece>, k: nat, p: Piece, n: nat)
    requires k < |all| && p.serial == all[k].serial && Distinct(all) && Below(all, n)
    ensures Distinct(all[k := p]) && Below(all[k := p], n)
    ensures forall q <- all :: q.serial != p.serial ==> q in all[k := p]
    ensures forall q <- all[k := p] :: HasSerial(all, q.serial)
  {
    var now := all[k := p];
    forall q | q in now
      ensures HasSerial(all, q.serial)
    {
      assert all[k] in all;
    }
    forall q | q in now
      ensures q.serial < n
    {
      assert all[k] in all;
    }
    forall q | q in all && q.serial != p.serial
      ensures q in now
    {
      var j :| 0 <= j < |all| && all[j] == q;
      assert now[j] == q;
    }
  }

  lemma {:induction false} OthersStayWithout(all: seq<Piece>, k: nat, n: nat)
    requires k < |all| && Distinct(all) && Below(all, n)
    ensures Distinct(all[..k] + all[k + 1..]) && Below(all[..k] + all[k + 1..], n)
    ensures forall q <- all :: q.serial != all[k].serial ==> q in all[..k] + all[k + 1..]
    ensures forall q <- all[..k] + all[k + 1..] :: HasSerial(all, q.serial)
    ensures !HasSerial(all[..k] + all[k + 1..], all[k].serial)
  {
    assert all == all[..k] + [all[k]] + all[k + 1..];
    var now := all[..k] + all[k + 1..];
    forall j | 0 <= j < |now|
      ensures now[j].serial != all[k].serial && now[j] in all
    {
      assert now[j] == all[if j < k then j else j + 1];
    }
  }

  lemma {:induction false} RemovedHere(pre: seq<Piece>, list: seq<Piece>, post: seq<Piece>, i: nat, m: nat, n: nat)
    requires i < |list| && StacksOk(list) && list[i].kind.stackable && m <= list[i].count
    requires Distinct(pre + list + post) && Below(pre + list + post, n)
    ensures var now := pre + Removed(list, i, m) + post;
      && Distinct(now) && Below(now, n) && (forall p <- pre + list + post :: p.serial != list[i].serial ==> p in now)
      && (forall p <- now :: HasSerial(pre + list + post, p.serial))
      && (m == list[i].count ==> !HasSerial(now, list[i].serial))
    ensures |Removed(list, i, m)| <= |list| && StacksOk(Removed(list, i, m))
    ensures Wealth(Removed(list, i, m)) == Wealth(list) - Unit(list[i].kind) * m
  {
    hide StacksOk, Total, Distinct, Below, Wealth, HasSerial;
    RemovedStacksOk(list, i, m);
    WealthRemoved(list, i, m);
    var all, k, now := pre + list + post, |pre| + i, pre + Removed(list, i, m) + post;
    if m == list[i].count {
      Spliced(pre, list, post, i, list[i]);
      OthersStayWithout(all, k, n);
    } else {
      var p := list[i].(count := list[i].count - m);
      Spliced(pre, list, post, i, p);
      OthersStay(all, k, p, n);
    }
  }

  lemma {:induction false} Spliced(pre: seq<Piece>, list: seq<Piece>, post: seq<Piece>, i: nat, p: Piece)
    requires i < |list|
    ensures var all, k := pre + list + post, |pre| + i;
      && all[k] == list[i] && pre + list[i := p] + post == all[k := p]
      && pre + (list[..i] + list[i + 1..]) + post == all[..k] + all[k + 1..]
  {
    var all, k := pre + list + post, |pre| + i;
    assert all[..k] == pre + list[..i];
    assert all[k + 1..] == list[i + 1..] + post;
  }

  lemma {:induction false} WealthOnTop(p: Piece, list: seq<Piece>)
    ensures Wealth([p] + list) == Wealth(list) + Worth(p)
  {
    assert ([p] + list)[1..] == list;
  }

  lemma {:induction false} KeptSelf(list: seq<Piece>)
    ensures Kept(list, list)
  {
    forall p | p in list
      ensures Has(list, p)
    {
      assert AtLeast(p, p);
    }
  }

  function NextSerial(list: seq<Piece>): (n: nat)
    ensures Below(list, n)
  {
    if list == [] then 0 else
      var n := NextSerial(list[1..]);
      if list[0].serial < n then n else list[0].serial + 1
  }

  // ---------- what an amount is paid out as ----------

  // The least amount for which the 32-bit product of the crystal coins and 10000 wraps around
  const LEAST_INEXACT := 4294970000

  function ToUInt32(n: nat): nat
  {
    n % 0x1_0000_0000
  }

  function ToUInt16(n: nat): nat
  {
    n % 0x1_0000
  }

  // The count of a new stack: asked for in 16 bits, at least one, and kept in 8 bits
  function ItemCount(n: nat): nat
  {
    (if ToUInt16(n) == 0 then 1 else ToUInt16(n)) % 0x100
  }

  // What is left to be paid in platinum and gold, and what those coins are worth
  function SmallRest(money: nat): nat
  {
    money - ToUInt32(ToUInt32(money / 10000) * 10000)
  }

  function PlatinumIn(rest: nat): nat
  {
    var platinum := ToUInt16(rest / 100);
    if platinum == 0 then 0 else ItemCount(platinum)
  }

  function GoldIn(rest: nat): nat
  {
    var gold := rest - ToUInt16(rest / 100) * 100;
    if gold == 0 then 0 else ItemCount(gold)
  }

  function PaidSmall(rest: nat): nat
  {
    100 * PlatinumIn(rest) + GoldIn(rest)
  }

  // How many coins of a kind an amount is paid out in
  function PaidIn(money: nat, kind: Kind): nat
  {
    if kind == CRYSTAL then ToUInt32(money / 10000)
    else if kind == PLATINUM then PlatinumIn(SmallRest(money))
    else if kind == GOLD then GoldIn(SmallRest(money))
    else 0
  }

  // How many stacks of at most 100 a number of coins makes
  function StacksOf(coins: nat): nat
  {
    (coins + 99) / 100
  }

  function PaidOut(money: nat): nat
  {
    10000 * ToUInt32(money / 10000) + PaidSmall(SmallRest(money))
  }

  // How often the 32-bit product wraps around
  function Wraps(money: nat): nat
  {
    money / 10000 * 10000 / 0x1_0000_0000
  }

  // Where the number of crystal coins times 10000 wraps around, too much is left to pay out in smaller coins
  lemma {:induction false} CrystalsExactly(money: nat)
    requires money < 0x1_0000_0000 * 10000
    ensures SmallRest(money) == money % 10000 <==> money < LEAST_INEXACT
  {
    RestIs(money);
  }

  lemma {:induction false} RestIs(money: nat)
    requires money < 0x1_0000_0000 * 10000
    ensures ToUInt32(money / 10000) == money / 10000
    ensures SmallRest(money) == money % 10000 + 0x1_0000_0000 * Wraps(money)
    ensures Wraps(money) == 0 <==> money < LEAST_INEXACT
  {
    assert money == money / 10000 * 10000 + money % 10000;
  }

  lemma {:induction false} Low16(t: nat, n: nat)
    requires t < 0x1_0000
    ensures ToUInt16(0x1_0000 * n + t) == t
  {
  }

  lemma {:induction false} ItemCountIs(n: nat)
    ensures ItemCount(n) == (if ToUInt16(n) == 0 then 1 else ToUInt16(n)) % 0x100
  {
    hide ToUInt16;
  }

  // 2^16 platinum coins are 100 times 2^16 gold coins, so in 16 bits only the odd gold coins are left; none become one.
  lemma {:induction false} PaidSmallIs(rest: nat)
    ensures PaidSmall(rest) == 100 * (ToUInt16(rest / 100) % 0x100) +
      if rest % 100 != 0 then rest % 100 else if rest < 100 * 0x1_0000 then 0 else 1
  {
    hide PlatinumIn, GoldIn, ToUInt16;
    PlatinumIs(rest);
    GoldIs(rest);
  }

  lemma {:induction false} PlatinumIs(rest: nat)
    ensures PlatinumIn(rest) == ToUInt16(rest / 100) % 0x100
  {
    hide ToUInt16, ItemCount;
    var platinum := ToUInt16(rest / 100);
    Split16(rest / 100);
    Low16(platinum, 0);
    ItemCountIs(platinum);
  }

  lemma {:induction false} GoldIs(rest: nat)
    ensures GoldIn(rest) == if rest % 100 != 0 then rest % 100 else if rest < 100 * 0x1_0000 then 0 else 1
  {
    hide ToUInt16, ItemCount;
    var gold, n, t := rest - ToUInt16(rest / 100) * 100, rest / 100 / 0x1_0000, rest % 100;
    Split16(rest / 100);
    assert gold == 0x1_0000 * (100 * n) + t;
    Low16(t, 100 * n);
    ItemCountIs(gold);
  }

  lemma {:induction false} Split16(q: nat)
    ensures q == 0x1_0000 * (q / 0x1_0000) + ToUInt16(q) && ToUInt16(q) < 0x1_0000
    ensures q / 0x1_0000 == 0 <==> q < 0x1_0000
  {
  }

  predicate PaysExactly(money: nat)
  {
    money < 0x1_0000_0000 * 10000 && (Wraps(money) == 0 || (Wraps(money) % 25 == 0 && money % 100 != 0))
  }

  /**
    An amount is paid out exactly if and only if the number of crystal coins fits 32 bits and their product with 10000
    either never wraps around, or wraps around a multiple of 25 times and the amount is no whole number of platinum
    coins.
   */
  lemma {:induction false} PaidExactly(money: nat)
    ensures PaidOut(money) == money <==> PaysExactly(money)
  {
    hide ToUInt32, SmallRest, PaidSmall, Wraps, PaidOut;
    if money < 0x1_0000_0000 * 10000 {
      RestIs(money);
      CrystalsAre(money);
      SmallExactly(money % 10000, Wraps(money));
    } else {
      PaidTooLittle(money);
    }
  }

  lemma {:induction false} CrystalsAre(money: nat)
    requires ToUInt32(money / 10000) == money / 10000
    ensures PaidOut(money) == money - money % 10000 + PaidSmall(SmallRest(money))
    ensures money % 10000 % 100 == money % 100
  {
    hide ToUInt32, SmallRest, PaidSmall;
    var r := money % 10000;
    DividesBy100(money, 100 * (money / 10000) + r / 100, r % 100);
  }

  // The counts of the small stacks
  lemma {:induction false} SmallCounts(money: nat)
    ensures var rest := SmallRest(money); var platinum := ToUInt16(rest / 100);
      platinum * 100 <= rest && (money < LEAST_INEXACT ==> platinum <= 99 && rest - platinum * 100 <= 99)
  {
    hide SmallRest, ToUInt16, Wraps;
    var rest := SmallRest(money);
    Split16(rest / 100);
    if money < LEAST_INEXACT {
      RestIs(money);
      Low16(rest / 100, 0);
    }
  }

  lemma {:induction false} SmallIsExact(money: nat)
    requires money < LEAST_INEXACT
    ensures PaysExactly(money)
  {
    hide SmallRest, ToUInt32, Wraps;
    RestIs(money);
  }

  // How many stacks an amount is paid out in
  function StacksFor(money: nat): nat
  {
    StacksOf(money / 10000) + Min(money % 10000 / 100, 1) + Min(money % 100, 1)
  }

  lemma {:induction false} StacksAre(money: nat)
    requires money < LEAST_INEXACT
    ensures ToUInt32(money / 10000) == money / 10000
    ensures var rest := SmallRest(money);
      StacksFor(money) == StacksOf(money / 10000) + Min(PlatinumIn(rest), 1) + Min(GoldIn(rest), 1)
  {
    hide SmallRest, PlatinumIn, GoldIn, ToUInt32;
    RestIs(money);
    FewestCoins(money);
  }

  lemma {:induction false} FewStacks(money: nat)
    requires money < 10000
    ensures StacksFor(money) <= 2
  {
  }

  lemma {:induction false} PaidNothing()
    ensures forall kind :: PaidIn(0, kind) == 0
  {
    FewestCoins(0);
  }

  lemma {:induction false} TotalOnTop(p: Piece, list: seq<Piece>)
    ensures forall kind :: Total([p] + list, kind) == Total(list, kind) + if kind == p.kind then p.count else 0
  {
    assert ([p] + list)[1..] == list;
  }

  lemma {:induction false} PaidParts(money: nat)
    ensures PaidOut(money) == 10000 * ToUInt32(money / 10000) + PaidSmall(SmallRest(money))
    ensures PaidSmall(SmallRest(money)) == 100 * PlatinumIn(SmallRest(money)) + GoldIn(SmallRest(money))
    ensures SmallRest(money) == money - ToUInt32(ToUInt32(money / 10000) * 10000)
  {
    hide ToUInt32, PlatinumIn, GoldIn, ItemCount;
  }

  /** Below LEAST_INEXACT an amount is paid in as few coins as can be. */
  lemma {:induction false} FewestCoins(money: nat)
    requires money < LEAST_INEXACT
    ensures PaidIn(money, CRYSTAL) == money / 10000
    ensures PaidIn(money, PLATINUM) == money % 10000 / 100 && PaidIn(money, GOLD) == money % 100
  {
    hide SmallRest, ToUInt16, ToUInt32, ItemCount, Wraps;
    RestIs(money);
    CrystalsAre(money);
    var rest := money % 10000;
    Low16(rest / 100, 0);
    ItemCounts();
  }

  lemma {:induction false} ItemCounts()
    ensures forall n: nat :: ItemCount(n) < 256 && (1 <= n <= FULL ==> ItemCount(n) == n)
  {
  }

  lemma {:induction false} ProperStacks(list: seq<Piece>, kind: Kind)
    requires StacksOk(list)
    ensures NotOverfull(list, kind)
  {
  }

  lemma {:induction false} OthersProper(list: seq<Piece>, list': seq<Piece>, kind: Kind, other: Kind)
    requires NotOverfull(list, other) && OnlyKind(list, list', kind) && kind != other
    ensures NotOverfull(list', other)
  {
  }

  // r is owed in small coins and k times 2^32 too much is handed on.
  lemma {:induction false} SmallExactly(r: nat, k: nat)
    requires r < 10000
    ensures PaidSmall(r + 0x1_0000_0000 * k) == r <==> k == 0 || (k % 25 == 0 && r % 100 != 0)
  {
    hide PaidSmall, ToUInt16;
    var rest := r + 0x1_0000_0000 * k;
    PaidSmallIs(rest);
    if k % 25 == 0 {
      WholePlatinum(r, k);
    } else {
      OddGold(r, k);
      LastTwoDigits(ToUInt16(rest / 100) % 0x100, if rest % 100 != 0 then rest % 100 else 1, r);
    }
  }

  lemma {:induction false} WholePlatinum(r: nat, k: nat)
    requires r < 10000 && k % 25 == 0
    ensures var rest := r + 0x1_0000_0000 * k;
      rest % 100 == r % 100 && ToUInt16(rest / 100) % 0x100 == r / 100 && (rest < 100 * 0x1_0000 <==> k == 0)
  {
    var n, rest := k / 25, r + 0x1_0000_0000 * k;
    assert k == 25 * n && rest == r % 100 + 100 * (r / 100 + 0x1_0000 * (0x4000 * n));
    DividesBy100(rest, r / 100 + 0x1_0000 * (0x4000 * n), r % 100);
    LowBits(r / 100, 0x4000 * n);
  }

  lemma {:induction false} LowBits(a: nat, n: nat)
    requires a < 0x100
    ensures ToUInt16(a + 0x1_0000 * n) % 0x100 == a
  {
    hide ToUInt16;
    Low16(a, n);
  }

  lemma {:induction false} DividesBy100(x: nat, q: nat, t: nat)
    requires x == t + 100 * q && t < 100
    ensures x / 100 == q && x % 100 == t
  {
  }

  lemma {:induction false} OddGold(r: nat, k: nat)
    requires r < 10000 && k % 25 != 0
    ensures var rest := r + 0x1_0000_0000 * k;
      rest >= 100 * 0x1_0000 && rest % 100 != r % 100 && (rest % 100 == 0 ==> r % 100 != 1)
  {
    var rest := r + 0x1_0000_0000 * k;
    var d, e := rest / 100 - r / 100, rest % 100 - r % 100;
    assert 0x1_0000_0000 * k == 100 * d + e;
    EvenDifference(k, d, e);
    MultipleOf25(k, d, e);
  }

  lemma {:induction false} EvenDifference(k: nat, d: int, e: int)
    requires 0x1_0000_0000 * k == 100 * d + e
    ensures e % 2 == 0
  {
    assert e == 2 * (0x8000_0000 * k - 50 * d);
  }

  lemma {:induction false} MultipleOf25(k: nat, d: int, e: int)
    requires 0x1_0000_0000 * k == 100 * d + e
    ensures e == 0 ==> k % 25 == 0
  {
    assert e == 0 ==> k == 25 * (k - (d - 42949672 * k));
  }

  lemma {:induction false} LastTwoDigits(x: nat, y: nat, r: nat)
    requires y < 100
    ensures 100 * x + y == r ==> r % 100 == y
  {
  }

  lemma {:induction false} PaidTooLittle(money: nat)
    requires money >= 0x1_0000_0000 * 10000
    ensures PaidOut(money) < money
  {
    PaidSmallIs(SmallRest(money));
    var crystals := ToUInt32(money / 10000);
    if money < 0x1_0000_0000 * 10000 + 20000 {
      assert crystals <= 1;
    }
  }

  lemma {:induction false} CoinFacts(top: seq<Piece>, inner: seq<Piece>, item: Piece)
    requires StacksOk(top) && StacksOk(inner) && item in top + inner && Worth(item) != 0
    ensures 1 <= item.count <= FULL && item.kind.stackable && Has(top + inner, item)
    ensures Unit(item.kind) in {1, 100, 10000} && Worth(item) / item.count == Unit(item.kind)
      && Worth(item) == Unit(item.kind) * item.count
  {
    hide Total;
    assert AtLeast(item, item);
    DivExact(Unit(item.kind), item.count);
  }

  lemma {:induction false} DivExact(unit: nat, count: nat)
    requires count > 0
    ensures unit * count / count == unit
  {
    var q, r := unit * count / count, unit * count % count;
    assert (unit - q) * count == r;
    Multiples(unit - q, count);
  }

  lemma {:induction false} Multiples(d: int, k: int)
    requires k > 0
    ensures d >= 1 ==> d * k >= k
    ensures d <= -1 ==> d * k <= -k
  {
  }

  // The last stack covers what is still to be paid, and the change is less than one of its coins
  lemma {:induction false} BreakFacts(money: nat, unit: nat, count: nat)
    requires 0 < money < unit * count && unit in {1, 100, 10000}
    ensures var removeCount := (money + unit - 1) / unit;
      1 <= removeCount <= count && 0 <= unit * removeCount - money < unit
  {
  }

  // ---------- the purse ----------

  class Purse {
    const top: Container
    var inner: seq<Piece>
    var tile: seq<Piece>
    var next: nat

    constructor (top: Container)
      requires StacksOk(top.itemlist) && Distinct(top.itemlist)
      ensures this.top == top && inner == [] && tile == [] && Valid()
    {
      this.top, inner, tile, next := top, [], [], 0;
      new;
      next := NextSerial(top.itemlist);
    }

    function Coins(): seq<Piece>
      reads this`inner, top`itemlist
    {
      top.itemlist + inner
    }

    ghost predicate Valid()
      reads this`inner, this`next, top`itemlist
    {
      StacksOk(top.itemlist) && StacksOk(inner) && Numbered()
    }

    // No two coins have the same number, and new ones get numbers from `next` on.
    ghost predicate Numbered()
      reads this`inner, this`next, top`itemlist
    {
      Distinct(Coins()) && Below(Coins(), next)
    }

    // All coins from before are still there, in whatever larger counts, and others have numbers from n on.
    ghost predicate Extends(before: seq<Piece>, n: nat)
      reads this`inner, this`next, top`itemlist
    {
      Kept(before, Coins()) && NoneNew(before, Coins(), n) && n <= next && Numbered()
    }

    // All the money in the container and on the tile
    function Holdings(): int
      reads this`inner, this`tile, top`itemlist
    {
      Wealth(top.itemlist) + Wealth(inner) + Wealth(tile)
    }

    function Held(kind: Kind): int
      reads this`inner, this`tile, top`itemlist
    {
      Total(top.itemlist, kind) + Total(inner, kind) + Total(tile, kind)
    }

    lemma {:induction false} HoldingsAre()
      ensures Holdings() == Held(GOLD) + 100 * Held(PLATINUM) + 10000 * Held(CRYSTAL)
    {
      hide Total;
    }

    /** A new stack of coins goes into the container or, when that has no room for all of it, to the ground. */
    method Deliver(kind: Kind, count: nat, ghost before: seq<Piece>, ghost n: nat)
      requires Extends(before, n) && NotOverfull(top.itemlist, kind) && count < 256 && kind in {GOLD, PLATINUM, CRYSTAL}
      modifies this`tile, this`next, top`itemlist
      ensures Extends(before, n) && OnlyKind(old(top.itemlist), top.itemlist, kind)
      ensures var item := Piece(old(next), kind, count);
        if old(top.Fits(item)) then tile == old(tile) && top.itemlist == Added(old(top.itemlist), item, true)
        else tile == [item] + old(tile) && top.itemlist == old(top.itemlist)
      ensures forall k :: Held(k) == old(Held(k)) + if k == kind then count else 0
      ensures top.FreeSlots() + 1 >= old(top.FreeSlots())
      ensures old(Valid()) && 1 <= count <= FULL ==> Valid()
    {
      hide Total, StacksOk, Grown, Kept, Distinct, Below, NoneNew, NotOverfull, OnlyKind, Added;
      var item := Piece(next, kind, count);
      AddedFacts(top.itemlist, item, true);
      var ret, rest := top.InternalAddItem(INDEX_WHEREEVER, item);
      GrownIsKept(old(top.itemlist), top.itemlist, inner, next);
      KeptThen(before, old(Coins()), Coins());
      NoneNewThen(before, old(Coins()), Coins(), n, next);
      TotalOnTop(item, tile);
      if ret != NoError {
        tile := [item] + tile;
      }
      next := next + 1;
    }

    /**
      Turns an amount into crystal, platinum and gold coins.  What is paid out is the amount itself exactly under the
      condition of PaidExactly; below LEAST_INEXACT all coins come in proper stacks, too.
     */
    method AddMoney(money: nat)
      requires Valid()
      modifies this`tile, this`next, top`itemlist
      ensures Extends(old(Coins()), old(next))
      ensures forall k :: Held(k) == old(Held(k)) + PaidIn(money, k)
      ensures money < LEAST_INEXACT && top.unlocked && old(top.FreeSlots()) >= StacksFor(money) ==> tile == old(tile)
      ensures Holdings() == old(Holdings()) + PaidOut(money)
      ensures Holdings() == old(Holdings()) + money <==> PaysExactly(money)
      ensures money < LEAST_INEXACT ==> Valid() && PaysExactly(money)
    {
      hide PaysExactly, StacksOk, Wealth, NotOverfull, OnlyKind, Numbered, Extends, ItemCount, ToUInt16, ToUInt32;
      hide Total, Spare, FirstPartial, PaidOut, PaidSmall, SmallRest, PlatinumIn, GoldIn, Added, Holdings, StacksFor;
      ExtendsItself();
      PaidExactly(money);
      PaidParts(money);
      HoldingsAre();
      ghost var before := Holdings();
      if money < LEAST_INEXACT {
        SmallIsExact(money);
        StacksAre(money);
      }
      if money == 0 {
        PaidNothing();
        return;
      }
      var crystalCoins := ToUInt32(money / 10000);
      var rest := money - ToUInt32(crystalCoins * 10000);
      SmallCounts(money);
      ghost var crystals, small := crystalCoins, Min(PlatinumIn(rest), 1) + Min(GoldIn(rest), 1);
      ghost var roomy := top.unlocked && top.FreeSlots() >= StacksOf(crystals) + small;
      while crystalCoins > 0
        invariant crystalCoins >= 0 && Valid() && Extends(old(Coins()), old(next))
        invariant forall k :: Held(k) == old(Held(k)) + if k == CRYSTAL then crystals - crystalCoins else 0
        invariant roomy ==> tile == old(tile) && top.FreeSlots() >= StacksOf(crystalCoins) + small
      {
        var count := Min(100, crystalCoins);
        ProperStacks(top.itemlist, CRYSTAL);
        Deliver(CRYSTAL, count, old(Coins()), old(next));
        crystalCoins := crystalCoins - count;
      }
      AddSmallCoins(rest, old(Coins()), old(next));
      HoldingsAre();
    }

    /** The rest in platinum and gold coins, whose numbers are kept in 16 bits and those in a stack in 8 */
    method AddSmallCoins(money: nat, ghost before: seq<Piece>, ghost n: nat)
      requires Valid() && Extends(before, n) && ToUInt16(money / 100) * 100 <= money
      modifies this`tile, this`next, top`itemlist
      ensures Extends(before, n)
      ensures forall k ::
        Held(k) == old(Held(k)) + if k == PLATINUM then PlatinumIn(money) else if k == GOLD then GoldIn(money) else 0
      ensures ToUInt16(money / 100) <= 99 && money - ToUInt16(money / 100) * 100 <= 99 ==>
        && Valid()
        && (top.unlocked && old(top.FreeSlots()) >= Min(PlatinumIn(money), 1) + Min(GoldIn(money), 1) ==>
          tile == old(tile))
    {
      hide StacksOk, Wealth, NotOverfull, OnlyKind, Numbered, Extends, ItemCount, ToUInt16, Total, Spare, FirstPartial;
      hide Added;
      ItemCounts();
      ProperStacks(top.itemlist, PLATINUM);
      ProperStacks(top.itemlist, GOLD);
      var rest := money;
      var platinumCoins := ToUInt16(rest / 100);
      if platinumCoins != 0 {
        Deliver(PLATINUM, ItemCount(platinumCoins), before, n);
        OthersProper(old(top.itemlist), top.itemlist, PLATINUM, GOLD);
        rest := rest - platinumCoins * 100;
      }
      if rest != 0 {
        Deliver(GOLD, ItemCount(rest), before, n);
      }
    }

    lemma {:induction false} ExtendsItself()
      requires Valid()
      ensures Extends(Coins(), next)
    {
      KeptSelf(Coins());
    }

    /** Takes some or (with -1) all of an item out of the container or bag that holds it. */
    method InternalRemoveItem(item: Piece, count: int)
      requires Valid() && Has(Coins(), item) && (count == -1 || 1 <= count <= item.count) && item.kind.stackable
      requires count == -1 ==> item in Coins()
      modifies this`inner, top`itemlist
      ensures Valid()
      ensures Holdings() == old(Holdings()) - Unit(item.kind) * if count == -1 then item.count else count
      ensures forall p <- old(Coins()) :: p.serial != item.serial ==> p in Coins()
      ensures forall p <- Coins() :: HasSerial(old(Coins()), p.serial)
      ensures count == -1 ==> !HasSerial(Coins(), item.serial)
      ensures |top.itemlist| <= |old(top.itemlist)|
    {
      hide Total, StacksOk, Distinct, Below, Removed, Wealth, HasSerial;
      ghost var all := Coins();
      var i := GetThingIndex(top.itemlist, item.serial);
      if i >= 0 {
        TheItem(all, i, item);
        var m := if count == -1 then top.itemlist[i].count else count;
        assert [] + top.itemlist + inner == all && forall r: seq<Piece> :: [] + r + inner == r + inner;
        RemovedHere([], top.itemlist, inner, i, m, next);
        top.RemoveThing(i, m);
      } else {
        var j := GetThingIndex(inner, item.serial);
        NotOnTop(top.itemlist, inner, item);
        TheItem(all, |top.itemlist| + j, item);
        var m := if count == -1 then inner[j].count else count;
        assert top.itemlist + inner + [] == all && forall r: seq<Piece> :: top.itemlist + r + [] == top.itemlist + r;
        RemovedHere(top.itemlist, inner, [], j, m, next);
        inner := Removed(inner, j, m);
      }
    }

    /** Pays the rest of a price with one stack: all of it, or a part and gives change. */
    method Finish(item: Piece, money: nat)
      requires Valid() && item in Coins() && 0 < money <= Worth(item)
      modifies this`inner, this`tile, this`next, top`itemlist
      ensures Valid() && Holdings() == old(Holdings()) - money
      ensures forall q <- old(Coins()) :: q.serial != item.serial ==> Has(Coins(), q)
      ensures NoneNew(old(Coins()), Coins(), old(next))
      ensures top.unlocked && old(top.FreeSlots()) >= 2 ==> tile == old(tile)
    {
      hide StacksOk, Distinct, Below, Wealth, Unit, HasSerial, PaysExactly, PaidOut, NoneNew;
      CoinFacts(top.itemlist, inner, item);
      KeptSelf(Coins());
      if Worth(item) > money {
        var worth := Worth(item) / item.count;
        BreakFacts(money, worth, item.count);
        assert worth <= 10000;
        var removeCount := (money + worth - 1) / worth;
        AddMoney(worth * removeCount - money);
        ghost var between := Coins();
        PaidExactly(worth * removeCount - money);
        FewStacks(worth * removeCount - money);
        InternalRemoveItem(item, removeCount);
        NoneNewLess(old(Coins()), between, Coins(), old(next));
        OthersHad(old(Coins()), between, Coins(), item.serial);
      } else {
        InternalRemoveItem(item, -1);
        NoneNewLess(old(Coins()), old(Coins()), Coins(), old(next));
        OthersHad(old(Coins()), old(Coins()), Coins(), item.serial);
      }
    }

    /**
      Pays exactly when the coins cover the price; then there is less money by exactly the price, and otherwise
      nothing changes.  The stacks worth least are spent, of the last one only what is needed, and all others stay.
     */
    method RemoveMoney(price: nat) returns (paid: bool, ghost spent: seq<Piece>, ghost last: Option<Piece>)
      requires Valid()
      modifies this`inner, this`tile, this`next, top`itemlist
      ensures Valid()
      ensures paid <==> old(Wealth(Coins())) >= price
      ensures paid ==> Holdings() == old(Holdings()) - price
      ensures !paid || price == 0 ==> Coins() == old(Coins()) && tile == old(tile) && Holdings() == old(Holdings())
      ensures top.unlocked && old(top.FreeSlots()) >= 2 ==> tile == old(tile)
      ensures paid && price > 0 ==> last.Some? && SmallestFirst(old(Coins()), Coins(), spent, last.value, price)
    {
      hide StacksOk, Below, Wealth, Has, HasSerial, Ascending, Unit, SmallestFirst, Worth, Distinct, NoneNew, Spent;
      hide Listed, SumWorth;
      WealthIsSumOfStacks(Coins());
      spent, last := [], None;
      if price == 0 {
        return true, spent, last;
      }
      var moneyMap, moneyCount := Collect(Coins());
      if moneyCount < price {
        return false, spent, last;
      }
      var money := price;
      var e := 0;
      NothingSpent(moneyMap, Coins());
      ghost var coins := Coins();
      while e < |moneyMap|
        invariant 0 <= e <= |moneyMap| && 0 < money <= SumWorth(moneyMap[e..])
        invariant Valid() && tile == old(tile) && next == old(next) && top.FreeSlots() >= old(top.FreeSlots())
        invariant SumWorth(moneyMap[..e]) == price - money
        invariant Holdings() == old(Holdings()) - (price - money)
        invariant Spent(coins, Coins(), moneyMap, e)
      {
        var item := moneyMap[e];
        NextToSpend(coins, Coins(), moneyMap, e);
        CoinFacts(top.itemlist, inner, item);
        ghost var before := Coins();
        if Worth(item) < money {
          InternalRemoveItem(item, -1);
          money := money - Worth(item);
          OneMoreSpent(coins, before, Coins(), moneyMap, e);
        } else {
          Finish(item, money);
          spent, last := moneyMap[..e], Some(item);
          LastSpent(coins, before, Coins(), moneyMap, e, old(next), price);
          break;
        }
        e := e + 1;
      }
      paid := true;
    }
  }

  // What was spent is gone, and was not enough without the last stack, which is; no other stack is worth less than
  // one of them, and all others are still there.
  ghost predicate SmallestFirst(before: seq<Piece>, now: seq<Piece>, spent: seq<Piece>, last: Piece, price: nat)
  {
    && SumWorth(spent) < price <= SumWorth(spent) + Worth(last)
    && Distinct(spent + [last]) && (forall p <- spent + [last] :: p in before && Worth(p) != 0)
    && (forall p <- spent :: !HasSerial(now, p.serial))
    && (forall q <- before :: q in spent || q == last || Has(now, q))
    && (forall p <- spent + [last], q <- before :: q in spent || Worth(q) == 0 || Worth(p) <= Worth(q))
  }

  // The first e stacks are gone and all others are as before.
  ghost predicate Spent(before: seq<Piece>, now: seq<Piece>, moneyMap: seq<Piece>, e: nat)
    requires e <= |moneyMap|
  {
    && (forall p <- moneyMap[..e] :: !HasSerial(now, p.serial))
    && (forall i | e <= i < |moneyMap| :: moneyMap[i] in now)
    && (forall q <- before :: q in moneyMap[..e] || q in now)
  }

  lemma {:induction false} NothingSpent(moneyMap: seq<Piece>, coins: seq<Piece>)
    requires Listed(coins, moneyMap)
    ensures Spent(coins, coins, moneyMap, 0)
    ensures SumWorth(moneyMap[..0]) == SumWorth(moneyMap[|moneyMap|..]) == 0 && moneyMap[0..] == moneyMap
  {
  }

  lemma {:induction false} NextToSpend(before: seq<Piece>, now: seq<Piece>, moneyMap: seq<Piece>, e: nat)
    requires e < |moneyMap| && Spent(before, now, moneyMap, e) && Listed(before, moneyMap)
    ensures moneyMap[e] in now && moneyMap[e] in before && Worth(moneyMap[e]) != 0
    ensures SumWorth(moneyMap[e..]) == Worth(moneyMap[e]) + SumWorth(moneyMap[e + 1..])
    ensures SumWorth(moneyMap[..e + 1]) == SumWorth(moneyMap[..e]) + Worth(moneyMap[e])
    ensures moneyMap[e + 1..] == [] ==> SumWorth(moneyMap[e + 1..]) == 0
  {
    hide Worth;
    assert moneyMap[e..][1..] == moneyMap[e + 1..] && moneyMap[..e + 1] == moneyMap[..e] + [moneyMap[e]];
    SumWorthConcat(moneyMap[..e], [moneyMap[e]]);
    assert SumWorth([moneyMap[e]]) == Worth(moneyMap[e]);
  }

  lemma {:induction false} OneMoreSpent(all: seq<Piece>, before: seq<Piece>, now: seq<Piece>, moneyMap: seq<Piece>,
                                        e: nat)
    requires Distinct(all) && Listed(all, moneyMap) && e < |moneyMap| && Spent(all, before, moneyMap, e)
    requires forall p <- before :: p.serial != moneyMap[e].serial ==> p in now
    requires !HasSerial(now, moneyMap[e].serial) && forall p <- now :: HasSerial(before, p.serial)
    ensures Spent(all, now, moneyMap, e + 1)
  {
    OneSerial(all, moneyMap[e]);
    assert moneyMap[..e + 1] == moneyMap[..e] + [moneyMap[e]];
    forall p | p in moneyMap[..e]
      ensures !HasSerial(now, p.serial)
    {
      assert !HasSerial(before, p.serial);
    }
  }

  lemma {:induction false} OthersHad(before: seq<Piece>, between: seq<Piece>, now: seq<Piece>, serial: nat)
    requires Kept(before, between) && forall p <- between :: p.serial != serial ==> p in now
    ensures forall q <- before :: q.serial != serial ==> Has(now, q)
  {
    forall q | q in before && q.serial != serial
      ensures Has(now, q)
    {
      assert Has(between, q);
      var p :| p in between && AtLeast(p, q);
    }
  }

  lemma {:induction false} OneSerial(all: seq<Piece>, item: Piece)
    requires Distinct(all) && item in all
    ensures forall q <- all :: q.serial == item.serial ==> q == item
  {
    var i :| 0 <= i < |all| && all[i] == item;
    forall q | q in all && q.serial == item.serial
      ensures q == item
    {
      var j :| 0 <= j < |all| && all[j] == q;
      assert i == j;
    }
  }

  lemma {:induction false} LastSpent(all: seq<Piece>, before: seq<Piece>, now: seq<Piece>, moneyMap: seq<Piece>, e: nat,
                                     n: nat, price: nat)
    requires Distinct(all) && Listed(all, moneyMap) && e < |moneyMap| && Below(all, n)
    requires Spent(all, before, moneyMap, e) && NoneNew(before, now, n)
    requires forall q <- before :: q.serial != moneyMap[e].serial ==> Has(now, q)
    requires SumWorth(moneyMap[..e]) < price <= SumWorth(moneyMap[..e]) + Worth(moneyMap[e])
    ensures SmallestFirst(all, now, moneyMap[..e], moneyMap[e], price)
  {
    hide Worth, Has, HasSerial, NoneNew, SumWorth;
    OneSerial(all, moneyMap[e]);
    var spent, last := moneyMap[..e], moneyMap[e];
    assert moneyMap[..e + 1] == spent + [last];
    forall p | p in spent
      ensures !HasSerial(now, p.serial)
    {
      assert p in moneyMap && p in all;
      StaysGone(before, now, n, p.serial);
    }
    forall p, q | p in spent + [last] && q in all && q !in spent && Worth(q) != 0
      ensures Worth(p) <= Worth(q)
    {
      var i :| 0 <= i <= e && moneyMap[i] == p;
      var j :| 0 <= j < |moneyMap| && moneyMap[j] == q;
      assert j >= e;
    }
  }
}
