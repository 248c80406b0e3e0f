/**
  The market's ledger.  Gold is in bank accounts, in the escrow of open buy offers or burned as
  fees; goods are in depots, in inboxes or in open sell offers.  Every operation moves them around
  without making or losing any.
 */
module Market {
  import opened Trees
  import opened MarketGoods

  const MAX_PRICE := 999999999
  const STACK := 100

  datatype Offer = Offer(player: int, sell: bool, ware: Ware, amount: nat, price: nat, created: int)

  // ---------- sums over the entries of a map ----------

  ghost function Total(m: map<int, int>): int
    decreases |m|
  {
    if forall k :: k !in m then 0 else
      var k :| k in m;
      m[k] + Total(m - {k})
  }

  lemma {:induction false} TotalSplit(m: map<int, int>, k: int)
    requires k in m
    ensures Total(m) == m[k] + Total(m - {k})
    decreases |m|
  {
    var j :| j in m && Total(m) == m[j] + Total(m - {j});
    if j != k {
      TotalSplit(m - {j}, k);
      TotalSplit(m - {k}, j);
      assert m - {j} - {k} == m - {k} - {j};
    }
  }

  lemma {:induction false} TotalUpdate(m: map<int, int>, k: int, v: int)
    ensures Total(m[k := v]) == Total(m) + v - if k in m then m[k] else 0
  {
    TotalSplit(m[k := v], k);
    if k in m {
      TotalSplit(m, k);
      assert m[k := v] - {k} == m - {k};
    } else {
      assert m[k := v] - {k} == m;
    }
  }

  lemma {:induction false} TotalBound(m: map<int, int>, k: int)
    requires k in m && forall j <- m :: m[j] >= 0
    ensures 0 <= m[k] <= Total(m)
    decreases |m|
  {
    TotalSplit(m, k);
    if j :| j in m - {k} {
      TotalBound(m - {k}, j);
    }
  }

  // ---------- the places goods can be, and the two where gold can be besides a bank ----------

  ghost function Amounts(lockers: map<int, Locker>, ware: Ware): map<int, int>
  {
    map p | p in lockers :: Amount(lockers[p].All(), ware)
  }

  function Escrow(o: Offer): int
  {
    if o.sell then 0 else o.price * o.amount
  }

  function OnSale(o: Offer, ware: Ware): int
  {
    if o.sell && o.ware == ware then o.amount else 0
  }

  ghost function Escrows(offers: map<int, Offer>): map<int, int>
  {
    map i | i in offers :: Escrow(offers[i])
  }

  ghost function Sales(offers: map<int, Offer>, ware: Ware): map<int, int>
  {
    map i | i in offers :: OnSale(offers[i], ware)
  }

  lemma {:induction false} StockUpdate(lockers: map<int, Locker>, p: int, l: Locker, ware: Ware)
    requires p in lockers
    ensures Total(Amounts(lockers[p := l], ware))
      == Total(Amounts(lockers, ware)) + Amount(l.All(), ware) - Amount(lockers[p].All(), ware)
  {
    assert Amounts(lockers[p := l], ware) == Amounts(lockers, ware)[p := Amount(l.All(), ware)];
    TotalUpdate(Amounts(lockers, ware), p, Amount(l.All(), ware));
  }

  lemma {:induction false} OfferUpdate(offers: map<int, Offer>, i: int, o: Offer, ware: Ware)
    ensures Total(Escrows(offers[i := o]))
      == Total(Escrows(offers)) + Escrow(o) - if i in offers then Escrow(offers[i]) else 0
    ensures Total(Sales(offers[i := o], ware))
      == Total(Sales(offers, ware)) + OnSale(o, ware) - if i in offers then OnSale(offers[i], ware) else 0
  {
    assert Escrows(offers[i := o]) == Escrows(offers)[i := Escrow(o)];
    assert Sales(offers[i := o], ware) == Sales(offers, ware)[i := OnSale(o, ware)];
    TotalUpdate(Escrows(offers), i, Escrow(o));
    TotalUpdate(Sales(offers, ware), i, OnSale(o, ware));
  }

  lemma {:induction false} OfferRemove(offers: map<int, Offer>, i: int, ware: Ware)
    requires i in offers
    ensures Total(Escrows(offers - {i})) == Total(Escrows(offers)) - Escrow(offers[i])
    ensures Total(Sales(offers - {i}, ware)) == Total(Sales(offers, ware)) - OnSale(offers[i], ware)
  {
    assert Escrows(offers - {i}) == Escrows(offers) - {i};
    assert Sales(offers - {i}, ware) == Sales(offers, ware) - {i};
    TotalSplit(Escrows(offers), i);
    TotalSplit(Sales(offers, ware), i);
  }

  // ---------- the books ----------

  datatype Books = Books(bank: map<int, int>, lockers: map<int, Locker>, offers: map<int, Offer>, burned: int)

  ghost function Gold(b: Books): int
  {
    Total(b.bank) + Total(Escrows(b.offers)) + b.burned
  }

  ghost function Goods(b: Books, ware: Ware): int
  {
    Total(Amounts(b.lockers, ware)) + Total(Sales(b.offers, ware))
  }

  ghost predicate Valid(b: Books)
  {
    && b.lockers.Keys == b.bank.Keys
    && (forall p <- b.bank :: b.bank[p] >= 0)
    && (forall p <- b.lockers :: Proper(b.lockers[p].All()))
    && (forall i <- b.offers :: OfferOk(b.offers[i], b.bank))
    && b.burned >= 0
  }

  ghost predicate OfferOk(o: Offer, bank: map<int, int>)
  {
    o.player in bank && 1 <= o.amount <= MAX_AMOUNT && 1 <= o.price <= MAX_PRICE
  }

  // Gold and the goods of every ware are the same before and after.
  ghost predicate Conserved(b: Books, c: Books)
  {
    Gold(b) == Gold(c) && forall w: Ware :: Goods(b, w) == Goods(c, w)
  }

  /** While all the gold there is fits 64 bits, no balance ever leaves them. */
  lemma {:induction false} BalancesFit(b: Books, player: int)
    requires Valid(b) && player in b.bank && Gold(b) < 0x1_0000_0000_0000_0000
    ensures 0 <= b.bank[player] < 0x1_0000_0000_0000_0000
  {
    TotalBound(b.bank, player);
    EscrowsNonNegative(b.offers);
  }

  lemma {:induction false} NonNegative(m: map<int, int>)
    requires forall j <- m :: m[j] >= 0
    ensures Total(m) >= 0
    decreases |m|
  {
    if k :| k in m {
      TotalBound(m, k);
    }
  }

  lemma {:induction false} EscrowsNonNegative(offers: map<int, Offer>)
    ensures Total(Escrows(offers)) >= 0
  {
    NonNegative(Escrows(offers));
  }

  // ---------- single entries ----------

  lemma {:induction false} BankChange(b: Books, p: int, v: int)
    requires p in b.bank
    ensures var c := b.(bank := b.bank[p := v]);
      Gold(c) == Gold(b) + v - b.bank[p] && forall w: Ware :: Goods(c, w) == Goods(b, w)
  {
    TotalUpdate(b.bank, p, v);
  }

  lemma {:induction false} LockerChange(b: Books, p: int, l: Locker)
    requires p in b.lockers
    ensures var c := b.(lockers := b.lockers[p := l]);
      && Gold(c) == Gold(b)
      && forall w: Ware :: Goods(c, w) == Goods(b, w) + Amount(l.All(), w) - Amount(b.lockers[p].All(), w)
  {
    forall w: Ware
      ensures Goods(b.(lockers := b.lockers[p := l]), w) ==
        Goods(b, w) + Amount(l.All(), w) - Amount(b.lockers[p].All(), w)
    {
      StockUpdate(b.lockers, p, l, w);
    }
  }

  lemma {:induction false} OfferChange(b: Books, i: int, o: Offer)
    ensures var c := b.(offers := b.offers[i := o]);
      && Gold(c) == Gold(b) + Escrow(o) - (if i in b.offers then Escrow(b.offers[i]) else 0)
      && forall w: Ware ::
        Goods(c, w) == Goods(b, w) + OnSale(o, w) - if i in b.offers then OnSale(b.offers[i], w) else 0
  {
    var c := b.(offers := b.offers[i := o]);
    forall w: Ware
      ensures Goods(c, w) == Goods(b, w) + OnSale(o, w) - if i in b.offers then OnSale(b.offers[i], w) else 0
    {
      OfferUpdate(b.offers, i, o, w);
    }
    OfferUpdate(b.offers, i, o, o.ware);
  }

  lemma {:induction false} OfferGone(b: Books, i: int)
    requires i in b.offers
    ensures var c := b.(offers := b.offers - {i});
      && Gold(c) == Gold(b) - Escrow(b.offers[i])
      && forall w: Ware :: Goods(c, w) == Goods(b, w) - OnSale(b.offers[i], w)
  {
    forall w: Ware
      ensures Goods(b.(offers := b.offers - {i}), w) == Goods(b, w) - OnSale(b.offers[i], w)
    {
      OfferRemove(b.offers, i, w);
    }
    OfferRemove(b.offers, i, b.offers[i].ware);
  }

  lemma {:induction false} Members(b: Books)
    requires Valid(b)
    ensures b.lockers.Keys == b.bank.Keys
    ensures forall p <- b.lockers :: Proper(b.lockers[p].All())
    ensures forall i <- b.offers :: OfferOk(b.offers[i], b.bank)
  {
  }

  lemma {:induction false} NothingMoved(b: Books)
    ensures Conserved(b, b)
  {
  }

  // Player p, and nobody else, has `amount` more goods of a ware: new plain items in front of what was in his inbox.
  ghost predicate Gained(a: map<int, Locker>, b: map<int, Locker>, p: int, ware: Ware, amount: int)
  {
    && p in a && p in b && b == a[p := b[p]]
    && b[p].depot == a[p].depot && Gone(b[p].All(), a[p].All(), ware, amount)
    && exists front :: NewGoods(front, ware, amount) && b[p].inbox == front + a[p].inbox
  }

  // Player p, and nobody else, has given `amount` plain goods of a ware out of his locker; nothing in it has moved.
  ghost predicate Gave(a: map<int, Locker>, b: map<int, Locker>, p: int, ware: Ware, amount: int)
  {
    p in a && p in b && b == a[p := b[p]] && Gone(a[p].All(), b[p].All(), ware, amount) && Left(a[p], b[p])
  }

  /** Whatever a player gains is on offer in his locker, and nothing else is changed there. */
  lemma {:induction false} GainedOffers(a: map<int, Locker>, b: map<int, Locker>, p: int, ware: Ware, amount: int)
    requires Gained(a, b, p, ware, amount) && Proper(a[p].All())
    ensures Counts(b[p].All())
    ensures forall w: Ware :: Offered(b[p].All(), w) == Offered(a[p].All(), w) + if w == ware then amount else 0
  {
    hide Gone, NewGoods, Offered, Counts, Occurs;
    var front :| NewGoods(front, ware, amount) && b[p].inbox == front + a[p].inbox;
    NewGoodsAdd(a[p], b[p], front, ware, amount);
  }

  lemma {:induction false} GainedGoods(b: Books, lockers: map<int, Locker>, p: int, ware: Ware, amount: int)
    requires Gained(b.lockers, lockers, p, ware, amount)
    ensures var c := b.(lockers := lockers);
      Gold(c) == Gold(b) && forall w: Ware :: Goods(c, w) == Goods(b, w) + if w == ware then amount else 0
  {
    hide Total, Amounts, Sales, Escrows;
    LockerChange(b, p, lockers[p]);
  }

  lemma {:induction false} GaveGoods(b: Books, lockers: map<int, Locker>, p: int, ware: Ware, amount: int)
    requires Gave(b.lockers, lockers, p, ware, amount)
    ensures var c := b.(lockers := lockers);
      Gold(c) == Gold(b) && forall w: Ware :: Goods(c, w) == Goods(b, w) - if w == ware then amount else 0
  {
    hide Total, Amounts, Sales, Escrows;
    LockerChange(b, p, lockers[p]);
  }

  // ---------- what each operation does to the books ----------

  // A seller hands over the goods and pays the fee, a buyer the whole price and the fee.
  ghost predicate Entered(b: Books, c: Books, i: int, o: Offer, fee: nat)
  {
    && o.player in b.bank && i !in b.offers
    && c.offers == b.offers[i := o] && c.burned == b.burned + fee
    && c.bank == b.bank[o.player := b.bank[o.player] - (fee + Escrow(o))]
    && if o.sell then Gave(b.lockers, c.lockers, o.player, o.ware, o.amount) else c.lockers == b.lockers
  }

  // The owner takes an offer back: the escrow to the account, or the goods to the inbox.
  ghost predicate Cancelled(b: Books, c: Books, i: int)
  {
    && i in b.offers && c.offers == b.offers - {i} && c.burned == b.burned
    && var o := b.offers[i];
      && o.player in b.bank && c.bank == b.bank[o.player := b.bank[o.player] + Escrow(o)]
      && if o.sell then Gained(b.lockers, c.lockers, o.player, o.ware, o.amount) else c.lockers == b.lockers
  }

  // Part of an offer, or all of it, has been served.
  function Reduced(offers: map<int, Offer>, i: int, amount: nat): map<int, Offer>
    requires i in offers && amount <= offers[i].amount
  {
    if offers[i].amount == amount then offers - {i}
    else offers[i := offers[i].(amount := offers[i].amount - amount)]
  }

  // `taker` pays the owner of a sell offer and receives the goods, or hands goods to the owner of a buy offer and is
  // paid from its escrow.
  ghost predicate Served(b: Books, c: Books, taker: int, i: int, amount: nat)
  {
    && i in b.offers && 1 <= amount <= b.offers[i].amount && taker in b.bank
    && c.offers == Reduced(b.offers, i, amount) && c.burned == b.burned
    && var o := b.offers[i];
      if o.sell then
        && Gained(b.lockers, c.lockers, taker, o.ware, amount)
        && var paid := b.bank[taker := b.bank[taker] - o.price * amount];
          o.player in paid && c.bank == paid[o.player := paid[o.player] + o.price * amount]
      else
        && c.bank == b.bank[taker := b.bank[taker] + o.price * amount]
        && exists handed ::
          Gave(b.lockers, handed, taker, o.ware, amount) && Gained(handed, c.lockers, o.player, o.ware, amount)
  }

  lemma {:induction false} EnteredConserves(b: Books, c: Books, i: int, o: Offer, fee: nat)
    requires Entered(b, c, i, o, fee)
    ensures Conserved(b, c)
  {
    hide Total, Amounts, Sales, Escrows, Gone, Goods, Gold;
    var b1 := b.(bank := c.bank, burned := c.burned);
    BankChange(b, o.player, c.bank[o.player]);
    Burned(b.(bank := c.bank), fee);
    OfferChange(b1, i, o);
    var b2 := b1.(offers := c.offers);
    if o.sell {
      GaveGoods(b2, c.lockers, o.player, o.ware, o.amount);
    }
    assert c == b2.(lockers := c.lockers);
  }

  lemma {:induction false} Burned(b: Books, fee: int)
    ensures var c := b.(burned := b.burned + fee); Gold(c) == Gold(b) + fee && forall w: Ware ::
      Goods(c, w) == Goods(b, w)
  {
  }

  lemma {:induction false} CancelledConserves(b: Books, c: Books, i: int)
    requires Cancelled(b, c, i)
    ensures Conserved(b, c)
  {
    hide Total, Amounts, Sales, Escrows, Gone, Goods, Gold;
    var o := b.offers[i];
    BankChange(b, o.player, c.bank[o.player]);
    OfferGone(b.(bank := c.bank), i);
    var b2 := b.(bank := c.bank, offers := c.offers);
    if o.sell {
      GainedGoods(b2, c.lockers, o.player, o.ware, o.amount);
    }
    assert c == b2.(lockers := c.lockers);
  }

  lemma {:induction false} OfferReduced(b: Books, i: int, amount: nat)
    requires i in b.offers && amount <= b.offers[i].amount
    ensures var c := b.(offers := Reduced(b.offers, i, amount));
      var o := b.offers[i].(amount := amount);
      Gold(c) == Gold(b) - Escrow(o) && forall w: Ware :: Goods(c, w) == Goods(b, w) - OnSale(o, w)
  {
    hide Gold, Goods;
    var o := b.offers[i];
    if o.amount == amount {
      OfferGone(b, i);
      assert o.(amount := amount) == o;
    } else {
      OfferChange(b, i, o.(amount := o.amount - amount));
      assert o.price * (o.amount - amount) == o.price * o.amount - o.price * amount;
    }
  }

  lemma {:induction false} ServedConserves(b: Books, c: Books, taker: int, i: int, amount: nat)
    requires Served(b, c, taker, i, amount)
    ensures Conserved(b, c)
  {
    hide Total, Amounts, Sales, Escrows, Gone, Goods, Gold, Reduced, Gave, Gained;
    var o := b.offers[i];
    OfferReduced(b, i, amount);
    var b1 := b.(offers := c.offers);
    var first := if o.sell then b.bank[taker := b.bank[taker] - o.price * amount] else c.bank;
    BankChange(b1, taker, first[taker]);
    var b2 := b1.(bank := first);
    if o.sell {
      BankChange(b2, o.player, c.bank[o.player]);
      GainedGoods(b2.(bank := c.bank), c.lockers, taker, o.ware, amount);
    } else {
      var handed :| Gave(b.lockers, handed, taker, o.ware, amount)
        && Gained(handed, c.lockers, o.player, o.ware, amount);
      GaveGoods(b2, handed, taker, o.ware, amount);
      GainedGoods(b2.(lockers := handed), c.lockers, o.player, o.ware, amount);
    }
    assert c == b2.(bank := c.bank).(lockers := c.lockers);
  }

  // ---------- expiry: rows read by one query and worked off later ----------

  // Whether the goods of a sell offer cannot be returned: their type is unknown, or their owner cannot be loaded
  predicate Lost(loadable: int -> bool, o: Offer)
  {
    o.sell && !(o.ware.known && loadable(o.player))
  }

  // A row of the query for expired offers, as it was read
  datatype Row = Row(id: int, read: Offer)

  // An offer that a row found still there: with what amount, and whether its goods could be returned
  datatype Slip = Slip(read: Offer, left: nat, lost: bool)

  predicate Exact(s: Slip)
  {
    s.left == s.read.amount && !s.lost
  }

  // The gold and the goods that working off a row makes out of nothing (or, with a minus, loses)
  function GoldMade(s: Slip): int
  {
    if s.read.sell then 0 else s.read.price * (s.read.amount - s.left)
  }

  function GoodsMade(s: Slip, ware: Ware): int
  {
    if s.read.sell && s.read.ware == ware then (if s.lost then 0 else s.read.amount) - s.left else 0
  }

  function AllGoldMade(slips: seq<Slip>): int
  {
    if slips == [] then 0 else GoldMade(slips[0]) + AllGoldMade(slips[1..])
  }

  function AllGoodsMade(slips: seq<Slip>, ware: Ware): int
  {
    if slips == [] then 0 else GoodsMade(slips[0], ware) + AllGoodsMade(slips[1..], ware)
  }

  // Offers go away or get smaller; only those from `next` on are new.
  ghost predicate Later(offers: map<int, Offer>, offers': map<int, Offer>, next: int)
  {
    forall i <- offers' :: i >= next ||
      (i in offers && offers'[i] == offers[i].(amount := offers'[i].amount) && offers'[i].amount <= offers[i].amount)
  }

  // A row still tells all of its offer but the amount, which can only have become smaller.
  ghost predicate RowOk(r: Row, offers: map<int, Offer>, bank: map<int, int>, next: int)
  {
    && r.id < next && OfferOk(r.read, bank)
    && (r.id in offers ==>
      offers[r.id] == r.read.(amount := offers[r.id].amount) && offers[r.id].amount <= r.read.amount)
  }

  ghost predicate RowsOk(pending: seq<seq<Row>>, offers: map<int, Offer>, bank: map<int, int>, next: int)
  {
    forall rows <- pending :: DistinctIds(rows) && forall r <- rows :: RowOk(r, offers, bank, next)
  }

  // No result has an offer twice.
  ghost predicate DistinctIds(rows: seq<Row>)
  {
    forall j, k | 0 <= j < k < |rows| :: rows[j].id != rows[k].id
  }

  lemma {:induction false} RowsStayOk(pending: seq<seq<Row>>, b: Books, c: Books, next: int, next': int)
    requires RowsOk(pending, b.offers, b.bank, next) && Later(b.offers, c.offers, next)
    requires next <= next' && b.bank.Keys <= c.bank.Keys
    ensures RowsOk(pending, c.offers, c.bank, next')
  {
    hide DistinctIds;
    forall rows | rows in pending
      ensures DistinctIds(rows) && forall r <- rows :: RowOk(r, c.offers, c.bank, next')
    {
      forall r | r in rows
        ensures RowOk(r, c.offers, c.bank, next')
      {
        assert RowOk(r, b.offers, b.bank, next);
      }
    }
  }

  // If the offer is still there it goes, and its owner gets what the row says, not what the offer held.
  ghost predicate Processed(b: Books, c: Books, r: Row, lost: bool)
  {
    if r.id !in b.offers then c == b else
      && c.offers == b.offers - {r.id} && c.burned == b.burned
      && r.read.player in b.bank && c.bank == b.bank[r.read.player := b.bank[r.read.player] + Escrow(r.read)]
      && if r.read.sell && !lost then Gained(b.lockers, c.lockers, r.read.player, r.read.ware, r.read.amount)
        else c.lockers == b.lockers
  }

  lemma {:induction false} ProcessedMakes(b: Books, c: Books, r: Row, lost: bool)
    requires Processed(b, c, r, lost) && r.id in b.offers && b.offers[r.id] == r.read.(amount := b.offers[r.id].amount)
    requires b.offers[r.id].amount >= 0
    ensures var s := Slip(r.read, b.offers[r.id].amount, lost);
      Gold(c) == Gold(b) + GoldMade(s) && forall w: Ware :: Goods(c, w) == Goods(b, w) + GoodsMade(s, w)
  {
    hide Total, Amounts, Sales, Escrows, Gone, Goods, Gold, Gained;
    var o := r.read;
    BankChange(b, o.player, c.bank[o.player]);
    OfferGone(b.(bank := c.bank), r.id);
    var b2 := b.(bank := c.bank, offers := c.offers);
    if o.sell && !lost {
      GainedGoods(b2, c.lockers, o.player, o.ware, o.amount);
    }
    assert c == b2.(lockers := c.lockers);
    assert o.price * (o.amount - b.offers[r.id].amount) == o.price * o.amount - o.price * b.offers[r.id].amount;
  }

  /** Working off a row conserves gold and goods if and only if its offer is gone, or it still has the amount that was
      read and its goods, if any, can be returned. */
  lemma {:induction false} ProcessedExactly(b: Books, c: Books, r: Row, lost: bool, next: int)
    requires Processed(b, c, r, lost) && RowOk(r, b.offers, b.bank, next) && Valid(b) && (lost ==> r.read.sell)
    ensures Conserved(b, c) <==> r.id !in b.offers || Exact(Slip(r.read, b.offers[r.id].amount, lost))
  {
    hide Processed, Goods, Gold;
    if r.id in b.offers {
      assert OfferOk(b.offers[r.id], b.bank);
      ProcessedMakes(b, c, r, lost);
      var s := Slip(r.read, b.offers[r.id].amount, lost);
      MadeExactly(s);
      assert Goods(c, r.read.ware) == Goods(b, r.read.ware) + GoodsMade(s, r.read.ware);
    } else {
      UntouchedBooks(b, c, r, lost);
    }
  }

  lemma {:induction false} UntouchedBooks(b: Books, c: Books, r: Row, lost: bool)
    requires Processed(b, c, r, lost) && r.id !in b.offers
    ensures Conserved(b, c)
  {
  }

  lemma {:induction false} MadeExactly(s: Slip)
    requires Possible(s)
    ensures GoldMade(s) >= 0 && (GoldMade(s) == 0 <==> s.read.sell || s.left == s.read.amount)
    ensures GoodsMade(s, s.read.ware) == 0 <==> !s.read.sell || Exact(s)
    ensures Exact(s) ==> forall w: Ware :: GoodsMade(s, w) == 0
  {
    var d := s.read.amount - s.left;
    assert d > 0 ==> s.read.price * d >= d;
  }

  // ---------- the operations ----------

  // New items get numbers from `next` on.
  ghost predicate AllFresh(lockers: map<int, Locker>, next: int)
  {
    forall p <- lockers :: Fresh(lockers[p].All(), next)
  }

  ghost predicate AllProper(lockers: map<int, Locker>)
  {
    forall p <- lockers :: Proper(lockers[p].All())
  }

  // When an offer is taken
  ghost predicate MayCreate(b: Books, maxOfferCount: nat, o: Offer, fee: nat)
    requires Valid(b)
  {
    && 1 <= o.amount <= MAX_AMOUNT && 1 <= o.price <= MAX_PRICE && o.player in b.bank
    && o.ware.known && (o.ware.stackable || o.amount <= 2000)
    && (maxOfferCount == 0 || OfferCount(b.offers, o.player) < maxOfferCount)
    && if o.sell then fee <= b.bank[o.player] && Offered(b.lockers[o.player].All(), o.ware) >= o.amount
      else o.price * o.amount + fee <= b.bank[o.player]
  }

  // When an offer is given back
  predicate MayCancel(b: Books, player: int, id: int)
  {
    id in b.offers && b.offers[id].player == player && (!b.offers[id].sell || b.offers[id].ware.known)
  }

  // When part of an offer is served
  ghost predicate MayAccept(b: Books, loadable: int -> bool, player: int, id: int, amount: nat)
    requires Valid(b)
  {
    && 1 <= amount <= MAX_AMOUNT && player in b.bank
    && id in b.offers && amount <= b.offers[id].amount && b.offers[id].ware.known
    && if b.offers[id].sell then b.offers[id].price * amount <= b.bank[player]
      else loadable(b.offers[id].player) && Offered(b.lockers[player].All(), b.offers[id].ware) >= amount
  }

  /** Goods that come back when their offer is cancelled can be sold again: an offer of them, or of fewer, fails for no
      lack of goods. */
  lemma {:induction false} CancelledSellsAgain(b: Books, c: Books, i: int, maxOfferCount: nat, o: Offer, fee: nat)
    requires Valid(b) && Valid(c) && Cancelled(b, c, i) && b.offers[i].sell
    requires o.sell && o.player == b.offers[i].player && o.ware == b.offers[i].ware && o.amount <= b.offers[i].amount
    ensures MayCreate(c, maxOfferCount, o, fee) <==>
      && 1 <= o.amount && 1 <= o.price <= MAX_PRICE && o.ware.known && (o.ware.stackable || o.amount <= 2000)
      && (maxOfferCount == 0 || OfferCount(c.offers, o.player) < maxOfferCount) && fee <= c.bank[o.player]
  {
    hide Offered, Occurs, Counts, Gone, OfferCount, Gained;
    Members(b);
    Members(c);
    GainedOffers(b.lockers, c.lockers, o.player, o.ware, b.offers[i].amount);
  }

  /** What is bought can be sold on: all of it is on offer in the buyer's locker. */
  lemma {:induction false} BoughtSellsOn(b: Books, c: Books, taker: int, i: int, amount: nat)
    requires Valid(b) && Valid(c) && Served(b, c, taker, i, amount) && b.offers[i].sell
    ensures taker in c.lockers && taker in b.lockers && forall w: Ware ::
      Offered(c.lockers[taker].All(), w) ==
        Offered(b.lockers[taker].All(), w) + if w == b.offers[i].ware then amount else 0
  {
    hide Offered, Occurs, Counts, Gone, Reduced, Gained;
    Members(b);
    Members(c);
    SeparateGain(b.lockers, c.lockers, taker, b.offers[i].ware, amount);
    GainedOffers(b.lockers, c.lockers, taker, b.offers[i].ware, amount);
  }

  lemma {:induction false} SeparateGain(a: map<int, Locker>, b: map<int, Locker>, p: int, ware: Ware, amount: int)
    requires Gained(a, b, p, ware, amount)
    ensures p in a && p in b
  {
  }

  class MarketLedger {
    const loadable: int -> bool     // whether a player who is not online can be loaded
    const maxOfferCount: nat        // how many offers a player may have at a time; 0 for any number

    var bank: map<int, int>
    var lockers: map<int, Locker>
    var offers: map<int, Offer>
    var burned: int
    var nextOffer: int
    var nextItem: int
    // Results of the query for expired offers that wait to be worked off
    var pending: seq<seq<Row>>

    // A market opens with what the players have; their items have numbers below nextItem.
    constructor (loadable: int -> bool, maxOfferCount: nat, bank: map<int, int>, lockers: map<int, Locker>,
                 nextItem: int)
      requires lockers.Keys == bank.Keys && forall p <- bank :: bank[p] >= 0
      requires AllProper(lockers) && AllFresh(lockers, nextItem)
      ensures View() == Books(bank, lockers, map[], 0) && Ready() && pending == []
      ensures this.loadable == loadable && this.maxOfferCount == maxOfferCount
    {
      this.loadable, this.maxOfferCount := loadable, maxOfferCount;
      this.bank, this.lockers, this.nextItem := bank, lockers, nextItem;
      offers, burned, nextOffer, pending := map[], 0, 1, [];
    }

    ghost function View(): Books
      reads this
    {
      Books(bank, lockers, offers, burned)
    }

    ghost predicate Ready()
      reads this
    {
      && Valid(View()) && AllFresh(lockers, nextItem)
      && 1 <= nextOffer && (forall i <- offers :: 1 <= i < nextOffer) && RowsOk(pending, offers, bank, nextOffer)
    }

    /** New items for a player's inbox, in stacks of at most 100 or one by one. */
    method Deliver(player: int, ware: Ware, amount: nat)
      requires player in lockers && AllProper(lockers) && AllFresh(lockers, nextItem)
      modifies this`lockers, this`nextItem
      ensures Gained(old(lockers), lockers, player, ware, amount)
      ensures AllProper(lockers) && AllFresh(lockers, nextItem)
    {
      hide Proper, Fresh, Gone, NewGood, NewGoods, Occurs;
      var locker := lockers[player];
      ghost var was := locker;
      ghost var front: Items := [];
      var tmpAmount := amount;
      NoneGone(was.All(), ware);
      assert [] + was.inbox == was.inbox;
      while tmpAmount > 0
        invariant 0 <= tmpAmount <= amount && lockers == old(lockers) && nextItem >= old(nextItem)
        invariant locker.depot == was.depot && Proper(locker.All()) && Fresh(locker.All(), nextItem)
        invariant Gone(locker.All(), was.All(), ware, amount - tmpAmount)
        invariant locker.inbox == front + was.inbox && Amount(front, ware) == amount - tmpAmount
        invariant forall i | 0 <= i < |front| :: NewGood(front[i], ware)
        invariant |front| + Pieces(ware, tmpAmount) == Pieces(ware, amount)
      {
        var stackCount := if !ware.stackable then 1 else if tmpAmount < STACK then tmpAmount else STACK;
        var item := Piece(nextItem, ware, stackCount, true);
        Delivered(locker, item, nextItem);
        OneMoreGood(front, item, ware);
        assert [Node(item, [])] + locker.inbox == [Node(item, [])] + front + was.inbox;
        ghost var before := locker;
        locker := locker.(inbox := [Node(item, [])] + locker.inbox);
        front := [Node(item, [])] + front;
        GoneThen(locker.All(), before.All(), was.All(), ware, stackCount, amount - tmpAmount);
        nextItem := nextItem + 1;
        tmpAmount := tmpAmount - stackCount;
      }
      assert NewGoods(front, ware, amount) by { AreNewGoods(front, ware, amount); }
      FresherAll(lockers, old(nextItem), nextItem);
      lockers := lockers[player := locker];
    }

    // What a player's locker offers of a ware
    ghost function OnOffer(player: int, ware: Ware): nat
      requires player in lockers && Proper(lockers[player].All())
      reads this`lockers
    {
      Offered(lockers[player].All(), ware)
    }

    /** Exactly `amount` goods out of a player's locker, or nothing when it does not offer that many. */
    method Collect(player: int, ware: Ware, amount: nat) returns (ok: bool, ghost list: seq<Piece>)
      requires player in lockers && AllProper(lockers) && AllFresh(lockers, nextItem) && 1 <= amount <= MAX_AMOUNT
      modifies this`lockers
      ensures ok <==> old(OnOffer(player, ware)) >= amount
      ensures !ok ==> lockers == old(lockers)
      ensures ok ==>
        && Gave(old(lockers), lockers, player, ware, amount)
        && JustEnough(old(lockers[player]).All(), list, ware, amount)
        && lockers[player] == Taken(old(lockers[player]), list, amount)
      ensures AllProper(lockers) && AllFresh(lockers, nextItem)
    {
      hide Proper, Occurs, Amount, Offered, StillThere;
      var locker := lockers[player];
      var itemList := GetMarketItemList(ware, amount, locker.All());
      list := itemList;
      if itemList == [] {
        return false, list;
      }
      EnoughIsThere(locker.All(), itemList, ware, amount);
      var rest: Locker;
      if ware.stackable {
        rest := TakeStacks(locker, itemList, ware, amount);
      } else {
        LeafCountIn(locker.All(), itemList, ware);
        SinglesSum(itemList, amount);
        rest := TakeSingles(locker, itemList, ware);
      }
      StillFresh(locker.All(), rest.All(), nextItem);
      lockers := lockers[player := rest];
      ok := true;
    }

    /** An offer is entered.  The fee is given: a value from 20 to 1000. */
    method CreateOffer(player: int, sell: bool, ware: Ware, amount: nat, price: nat, fee: nat, now: int)
      returns (ok: bool)
      requires Ready() && 20 <= fee <= 1000
      modifies this
      ensures Ready() && Conserved(old(View()), View()) && pending == old(pending)
      ensures var o := Offer(player, sell, ware, amount, price, now);
        && (ok <==> MayCreate(old(View()), maxOfferCount, o, fee))
        && (ok ==> Entered(old(View()), View(), old(nextOffer), o, fee) && nextOffer == old(nextOffer) + 1)
      ensures !ok ==> View() == old(View()) && nextOffer == old(nextOffer)
    {
      hide Valid, Conserved, Gone, Proper, Offered, Entered, AllFresh, RowsOk, OfferCount, Gave, JustEnough, Taken;
      Members(View());
      NothingMoved(View());
      if amount == 0 || amount > MAX_AMOUNT {
        return false;
      }
      if price == 0 || price > MAX_PRICE {
        return false;
      }
      if player !in bank || !ware.known || (!ware.stackable && amount > 2000) {
        return false;
      }
      if maxOfferCount != 0 && OfferCount(offers, player) >= maxOfferCount {
        return false;
      }
      if sell {
        if fee > bank[player] {
          return false;
        }
        ghost var list;
        ok, list := Collect(player, ware, amount);
        if !ok {
          return false;
        }
        bank := bank[player := bank[player] - fee];
      } else {
        var totalPrice := price * amount + fee;
        if totalPrice > bank[player] {
          return false;
        }
        bank := bank[player := bank[player] - totalPrice];
      }
      burned := burned + fee;
      var offer := Offer(player, sell, ware, amount, price, now);
      offers := offers[nextOffer := offer];
      EnteredReady(old(View()), View(), pending, nextOffer, offer, fee);
      nextOffer := nextOffer + 1;
      ok := true;
    }

    /** The owner takes an open offer back. */
    method CancelOffer(player: int, id: int) returns (ok: bool)
      requires Ready()
      modifies this
      ensures Ready() && Conserved(old(View()), View()) && pending == old(pending) && nextOffer == old(nextOffer)
      ensures ok <==> MayCancel(old(View()), player, id)
      ensures !ok ==> View() == old(View())
      ensures ok ==> Cancelled(old(View()), View(), id)
    {
      hide Valid, Conserved, Gone, Proper, AllFresh, RowsOk;
      Members(View());
      NothingMoved(View());
      if id !in offers || offers[id].player != player {
        return false;
      }
      var offer := offers[id];
      if !offer.sell {
        bank := bank[player := bank[player] + offer.price * offer.amount];
      } else {
        if !offer.ware.known {
          return false;
        }
        Deliver(player, offer.ware, offer.amount);
      }
      offers := offers - {id};
      CancelledReady(old(View()), View(), pending, id, nextOffer);
      ok := true;
    }

    /** Part of an offer, or all of it, is served by another player (or by its owner).  The offer may be one that the
        query for expired offers has read already. */
    method AcceptOffer(player: int, id: int, amount: nat) returns (ok: bool)
      requires Ready()
      modifies this
      ensures Ready() && Conserved(old(View()), View()) && pending == old(pending) && nextOffer == old(nextOffer)
      ensures ok <==> MayAccept(old(View()), loadable, player, id, amount)
      ensures !ok ==> View() == old(View())
      ensures ok ==> Served(old(View()), View(), player, id, amount)
    {
      hide Valid, Conserved, Gone, Proper, Offered, Served, AllFresh, RowsOk, Reduced, Gave, Gained;
      hide JustEnough, Taken, Occurs, Counts;
      Members(View());
      NothingMoved(View());
      if amount == 0 || amount > MAX_AMOUNT {
        return false;
      }
      if player !in bank || id !in offers || amount > offers[id].amount || !offers[id].ware.known {
        return false;
      }
      var offer := offers[id];
      var totalPrice := offer.price * amount;
      if !offer.sell {
        if !loadable(offer.player) {
          return false;
        }
        ghost var list;
        ok, list := Collect(player, offer.ware, amount);
        if !ok {
          return false;
        }
        ghost var handed := lockers;
        bank := bank[player := bank[player] + totalPrice];
        SameKeys(old(lockers), handed, player, offer.ware, amount);
        Deliver(offer.player, offer.ware, amount);
        offers := Reduced(offers, id, amount);
        BuyOfferServed(old(View()), View(), handed, player, id, amount);
      } else {
        if totalPrice > bank[player] {
          return false;
        }
        bank := bank[player := bank[player] - totalPrice];
        Deliver(player, offer.ware, amount);
        bank := bank[offer.player := bank[offer.player] + totalPrice];
        offers := Reduced(offers, id, amount);
        SellOfferServed(old(View()), View(), player, id, amount);
      }
      ServedReady(old(View()), View(), pending, player, id, amount, nextOffer);
      ok := true;
    }

    /** The query for expired offers reads their rows, in the order of their ids; the rows are worked off later. */
    method SelectExpired(lastExpireDate: int)
      requires Ready()
      modifies this`pending
      ensures Ready() && |pending| == |old(pending)| + 1 && pending[..|old(pending)|] == old(pending)
      ensures Reads(pending[|old(pending)|], offers, lastExpireDate)
    {
      hide Valid, AllFresh, RowsOk, RowOk, ReadUpTo, OfferOk, DistinctIds;
      Members(View());
      NothingRead(offers, lastExpireDate);
      var rows: seq<Row> := [];
      var id := 1;
      while id < nextOffer
        invariant pending == old(pending) && 1 <= id <= nextOffer && ReadUpTo(rows, offers, lastExpireDate, id)
      {
        ReadOneMore(rows, offers, lastExpireDate, id);
        if id in offers && offers[id].created <= lastExpireDate {
          rows := rows + [Row(id, offers[id])];
        }
        id := id + 1;
      }
      AllRead(rows, offers, lastExpireDate, id);
      OneMoreResult(pending, rows, offers, bank, nextOffer);
      pending := pending + [rows];
    }

    /** One row is worked off: if the offer is still there it is removed, and its owner gets what the row says. */
    method ProcessRow(r: Row)
      requires Ready() && RowOk(r, offers, bank, nextOffer)
      modifies this`bank, this`lockers, this`offers, this`nextItem
      ensures Ready() && Processed(old(View()), View(), r, Lost(loadable, r.read))
      ensures Later(old(offers), offers, nextOffer)
      ensures bank.Keys == old(bank).Keys
    {
      hide Valid, Gone, Proper, AllFresh, RowsOk;
      Members(View());
      if r.id !in offers {
        NotProcessed(View(), r, Lost(loadable, r.read));
        return;
      }
      offers := offers - {r.id};
      if r.read.sell {
        if r.read.ware.known && loadable(r.read.player) {
          Deliver(r.read.player, r.read.ware, r.read.amount);
        }
      } else {
        bank := bank[r.read.player := bank[r.read.player] + r.read.price * r.read.amount];
      }
      ProcessedReady(old(View()), View(), pending, r, Lost(loadable, r.read), nextOffer);
    }

    /** The oldest result of the query is worked off, row by row.  What is made or lost is told by the slips. */
    method ProcessExpired()
      requires Ready()
      modifies this
      ensures Ready() && nextOffer == old(nextOffer)
      ensures old(pending) == [] ==> View() == old(View()) && pending == []
      ensures old(pending) != [] ==>
        && pending == old(pending)[1..] && WorkedOff(old(View()), View(), old(pending)[0], loadable)
        && Made(old(View()), View(), SlipsOf(old(pending)[0], old(offers), loadable))
    {
      hide Valid, AllFresh, Processed, Later, SlipsOf, RowsOk, RowOk, Made, WorkedOff, DistinctIds;
      if pending == [] {
        return;
      }
      var result := pending[0];
      RowsAre(pending, offers, bank, nextOffer);
      Members(View());
      assert result[0..] == result;
      for k := 0 to |result|
        invariant Ready() && pending == old(pending) && nextOffer == old(nextOffer)
        invariant forall c ::
          WorkedOff(View(), c, result[k..], loadable) ==> WorkedOff(old(View()), c, result, loadable)
      {
        RowsAre(pending, offers, bank, nextOffer);
        ghost var b := View();
        ProcessRow(result[k]);
        OneWorkedOff(b, View(), result, k, loadable);
      }
      NothingWorkedOff(View(), result, loadable);
      WorkedOffMakes(old(View()), View(), result, loadable, old(nextOffer));
      FewerRows(pending, offers, bank, nextOffer);
      pending := pending[1..];
    }
  }

  // What a row that finds its offer gets as a slip
  function SlipOf(r: Row, offers: map<int, Offer>, loadable: int -> bool): Slip
    requires r.id in offers
  {
    Slip(r.read, offers[r.id].amount, Lost(loadable, r.read))
  }

  // The slips of the rows whose offers are still there
  function SlipsOf(rows: seq<Row>, offers: map<int, Offer>, loadable: int -> bool): seq<Slip>
  {
    if rows == [] then [] else
      (if rows[0].id in offers then [SlipOf(rows[0], offers, loadable)] else [])
        + SlipsOf(rows[1..], offers - {rows[0].id}, loadable)
  }

  // The rows are worked off one after the other.
  ghost predicate WorkedOff(b: Books, c: Books, rows: seq<Row>, loadable: int -> bool)
    decreases |rows|
  {
    if rows == [] then c == b
    else exists d :: Processed(b, d, rows[0], Lost(loadable, rows[0].read)) && WorkedOff(d, c, rows[1..], loadable)
  }

  ghost predicate Possible(s: Slip)
  {
    1 <= s.left <= s.read.amount && s.read.price >= 1 && (s.lost ==> s.read.sell)
  }

  // Between two states of the books the slips made what they say.
  ghost predicate Made(b: Books, c: Books, slips: seq<Slip>)
  {
    Gold(c) == Gold(b) + AllGoldMade(slips) && forall w: Ware :: Goods(c, w) == Goods(b, w) + AllGoodsMade(slips, w)
  }

  lemma {:induction false} NothingMade(b: Books)
    ensures Made(b, b, [])
  {
  }

  lemma {:induction false} ConservedMakesNothing(b: Books, c: Books)
    requires Conserved(b, c)
    ensures Made(b, c, [])
  {
  }

  lemma {:induction false} MadeConcat(a: seq<Slip>, b: seq<Slip>, w: Ware)
    ensures AllGoldMade(a + b) == AllGoldMade(a) + AllGoldMade(b)
    ensures AllGoodsMade(a + b, w) == AllGoodsMade(a, w) + AllGoodsMade(b, w)
  {
    hide GoldMade, GoodsMade;
    if a == [] {
      assert a + b == b;
    } else {
      assert (a + b)[1..] == a[1..] + b;
      MadeConcat(a[1..], b, w);
    }
  }

  lemma {:induction false} MadeThen(b: Books, c: Books, d: Books, slips: seq<Slip>, more: seq<Slip>)
    requires Made(b, c, slips) && Made(c, d, more)
    ensures Made(b, d, slips + more)
  {
    hide Gold, Goods, AllGoldMade, AllGoodsMade;
    forall w: Ware
      ensures Goods(d, w) == Goods(b, w) + AllGoodsMade(slips + more, w)
    {
      MadeConcat(slips, more, w);
    }
    MadeConcat(slips, more, Ware(0, false, false));
  }

  // What one row leaves for the rows behind it
  lemma {:induction false} ProcessedLeaves(b: Books, c: Books, r: Row, lost: bool)
    requires Processed(b, c, r, lost)
    ensures c.offers == b.offers - {r.id} && c.bank.Keys == b.bank.Keys
  {
    hide Gained;
    assert r.id !in b.offers ==> b.offers - {r.id} == b.offers;
  }

  /** Working off the rows of a result makes exactly what their slips say. */
  lemma {:induction false} WorkedOffMakes(b: Books, c: Books, rows: seq<Row>, loadable: int -> bool, next: int)
    requires WorkedOff(b, c, rows, loadable) && forall i <- b.offers :: OfferOk(b.offers[i], b.bank)
    requires forall r <- rows :: RowOk(r, b.offers, b.bank, next)
    ensures Made(b, c, SlipsOf(rows, b.offers, loadable))
    ensures forall s <- SlipsOf(rows, b.offers, loadable) :: Possible(s) && s.lost == Lost(loadable, s.read)
    decreases |rows|
  {
    hide Gold, Goods, Processed, Made, Possible, Lost;
    if rows == [] {
      NothingMade(b);
    } else {
      var r, lost := rows[0], Lost(loadable, rows[0].read);
      var d :| Processed(b, d, r, lost) && WorkedOff(d, c, rows[1..], loadable);
      assert RowOk(r, b.offers, b.bank, next);
      ProcessedLeaves(b, d, r, lost);
      RowsBehind(b, d, rows, next);
      WorkedOffMakes(d, c, rows[1..], loadable, next);
      RowMakes(b, d, r, loadable, next);
      var first := if r.id in b.offers then [SlipOf(r, b.offers, loadable)] else [];
      MadeThen(b, d, c, first, SlipsOf(rows[1..], d.offers, loadable));
    }
  }

  lemma {:induction false} RowsBehind(b: Books, d: Books, rows: seq<Row>, next: int)
    requires rows != [] && d.offers == b.offers - {rows[0].id} && d.bank.Keys == b.bank.Keys
    requires forall i <- b.offers :: OfferOk(b.offers[i], b.bank)
    requires forall r <- rows :: RowOk(r, b.offers, b.bank, next)
    ensures forall i <- d.offers :: OfferOk(d.offers[i], d.bank)
    ensures forall r <- rows[1..] :: RowOk(r, d.offers, d.bank, next)
  {
    forall r | r in rows[1..]
      ensures RowOk(r, d.offers, d.bank, next)
    {
      assert r in rows && RowOk(r, b.offers, b.bank, next);
    }
  }

  lemma {:induction false} RowMakes(b: Books, c: Books, r: Row, loadable: int -> bool, next: int)
    requires Processed(b, c, r, Lost(loadable, r.read)) && RowOk(r, b.offers, b.bank, next)
    requires r.id in b.offers ==> OfferOk(b.offers[r.id], b.bank)
    ensures r.id !in b.offers ==> Made(b, c, [])
    ensures r.id in b.offers ==>
      var s := SlipOf(r, b.offers, loadable);
      Possible(s) && Made(b, c, [s])
  {
    hide Gold, Goods, Gained;
    if r.id in b.offers {
      ProcessedMakes(b, c, r, Lost(loadable, r.read));
      OneSlip(SlipOf(r, b.offers, loadable));
    } else {
      NothingMade(b);
    }
  }

  lemma {:induction false} OneSlip(s: Slip)
    ensures AllGoldMade([s]) == GoldMade(s) && forall w: Ware :: AllGoodsMade([s], w) == GoodsMade(s, w)
  {
    assert [s][1..] == [];
  }

  lemma {:induction false} RowsAre(pending: seq<seq<Row>>, offers: map<int, Offer>, bank: map<int, int>, next: int)
    requires RowsOk(pending, offers, bank, next) && pending != []
    ensures DistinctIds(pending[0]) && forall r <- pending[0] :: RowOk(r, offers, bank, next)
  {
    assert pending[0] in pending;
  }

  lemma {:induction false} OneWorkedOff(b: Books, d: Books, rows: seq<Row>, k: nat, loadable: int -> bool)
    requires k < |rows| && Processed(b, d, rows[k], Lost(loadable, rows[k].read))
    ensures forall c :: WorkedOff(d, c, rows[k + 1..], loadable) ==> WorkedOff(b, c, rows[k..], loadable)
  {
    hide Processed, Lost;
    assert rows[k..][1..] == rows[k + 1..] && rows[k..][0] == rows[k];
  }

  lemma {:induction false} NothingWorkedOff(b: Books, rows: seq<Row>, loadable: int -> bool)
    ensures WorkedOff(b, b, rows[|rows|..], loadable)
  {
  }

  lemma {:induction false} FewerRows(pending: seq<seq<Row>>, offers: map<int, Offer>, bank: map<int, int>, next: int)
    requires RowsOk(pending, offers, bank, next) && pending != []
    ensures RowsOk(pending[1..], offers, bank, next)
  {
    hide RowOk, DistinctIds;
    assert forall rows <- pending[1..] :: rows in pending;
  }

  // The sums are zero exactly when every part is.
  lemma {:induction false} GoldMadeExactly(slips: seq<Slip>)
    requires forall s <- slips :: Possible(s)
    ensures AllGoldMade(slips) >= 0
    ensures AllGoldMade(slips) == 0 <==> forall s <- slips :: s.read.sell || s.left == s.read.amount
  {
    hide GoldMade, GoodsMade;
    if slips != [] {
      assert slips == [slips[0]] + slips[1..] && Possible(slips[0]);
      GoldMadeExactly(slips[1..]);
      MadeExactly(slips[0]);
    }
  }

  lemma {:induction false} GoodsMadeExactly(slips: seq<Slip>, w: Ware)
    requires forall s <- slips :: Possible(s) && !s.lost
    ensures AllGoodsMade(slips, w) >= 0
    ensures AllGoodsMade(slips, w) == 0 <==> forall s <- slips :: s.read.sell && s.read.ware == w ==>
      s.left == s.read.amount
  {
    if slips != [] {
      assert slips == [slips[0]] + slips[1..] && Possible(slips[0]);
      GoodsMadeExactly(slips[1..], w);
    }
  }

  lemma {:induction false} MadeNothingExactly(b: Books, c: Books, slips: seq<Slip>)
    requires Made(b, c, slips) && forall s <- slips :: Possible(s)
    ensures Gold(c) == Gold(b) <==> forall s <- slips :: s.read.sell || s.left == s.read.amount
    ensures (forall s <- slips :: !s.lost) ==> (Conserved(b, c) <==> forall s <- slips :: s.left == s.read.amount)
    ensures (forall s <- slips :: Exact(s)) ==> Conserved(b, c)
  {
    hide Gold, Goods, Possible, AllGoldMade, AllGoodsMade;
    GoldMadeExactly(slips);
    if forall s <- slips :: !s.lost {
      forall w: Ware
        ensures Goods(c, w) == Goods(b, w) + AllGoodsMade(slips, w)
        ensures AllGoodsMade(slips, w) == 0 <==> forall s <- slips :: s.read.sell && s.read.ware == w ==>
          s.left == s.read.amount
      {
        GoodsMadeExactly(slips, w);
      }
      if Conserved(b, c) {
        forall s | s in slips
          ensures s.left == s.read.amount
        {
          assert Goods(c, s.read.ware) == Goods(b, s.read.ware);
        }
      }
    }
  }

  // The rows of exactly the expired offers, in the order of their ids
  ghost predicate Reads(rows: seq<Row>, offers: map<int, Offer>, lastExpireDate: int)
  {
    && (forall r <- rows :: r.id in offers && r.read == offers[r.id] && r.read.created <= lastExpireDate)
    && (forall i <- offers :: offers[i].created <= lastExpireDate ==> Row(i, offers[i]) in rows)
    && (forall j, k | 0 <= j < k < |rows| :: rows[j].id < rows[k].id)
  }

  // The rows of the expired offers with an id below a bound
  ghost predicate ReadUpTo(rows: seq<Row>, offers: map<int, Offer>, lastExpireDate: int, id: int)
  {
    && (forall r <- rows :: r.id in offers && r.read == offers[r.id] && r.read.created <= lastExpireDate && r.id < id)
    && (forall i <- offers :: 1 <= i < id && offers[i].created <= lastExpireDate ==> Row(i, offers[i]) in rows)
    && (forall j, k | 0 <= j < k < |rows| :: rows[j].id < rows[k].id)
  }

  lemma {:induction false} NothingRead(offers: map<int, Offer>, lastExpireDate: int)
    ensures ReadUpTo([], offers, lastExpireDate, 1)
  {
  }

  lemma {:induction false} ReadOneMore(rows: seq<Row>, offers: map<int, Offer>, lastExpireDate: int, id: int)
    requires ReadUpTo(rows, offers, lastExpireDate, id)
    ensures ReadUpTo(if id in offers && offers[id].created <= lastExpireDate then rows + [Row(id, offers[id])]
      else rows,
                     offers, lastExpireDate, id + 1)
  {
  }

  lemma {:induction false} AllRead(rows: seq<Row>, offers: map<int, Offer>, lastExpireDate: int, next: int)
    requires ReadUpTo(rows, offers, lastExpireDate, next) && forall i <- offers :: 1 <= i < next
    ensures Reads(rows, offers, lastExpireDate) && DistinctIds(rows) && forall r <- rows :: r.id < next
  {
  }

  lemma {:induction false} OneMoreResult(pending: seq<seq<Row>>, rows: seq<Row>, offers: map<int, Offer>,
                                         bank: map<int, int>, next: int)
    requires RowsOk(pending, offers, bank, next) && DistinctIds(rows)
    requires forall r <- rows :: r.id in offers && r.id < next && r.read == offers[r.id] && OfferOk(r.read, bank)
    ensures RowsOk(pending + [rows], offers, bank, next)
  {
    hide DistinctIds;
    forall result | result in pending + [rows]
      ensures DistinctIds(result) && forall r <- result :: RowOk(r, offers, bank, next)
    {
      assert result in pending || result == rows;
    }
  }

  lemma {:induction false} NoneGone(ts: Items, ware: Ware)
    ensures Gone(ts, ts, ware, 0)
  {
  }

  lemma {:induction false} GoneThen(a: Items, b: Items, c: Items, ware: Ware, n: int, m: int)
    requires Gone(a, b, ware, n) && Gone(b, c, ware, m)
    ensures Gone(a, c, ware, n + m)
  {
  }

  lemma {:induction false} OneMoreGood(front: Items, p: Piece, ware: Ware)
    requires Tradable(p, ware) && CountOk(p)
    ensures NewGood(Node(p, []), ware) && Amount([Node(p, [])] + front, ware) == p.count + Amount(front, ware)
  {
    assert ([Node(p, [])] + front)[1..] == front;
  }

  lemma {:induction false} AreNewGoods(front: Items, ware: Ware, amount: int)
    requires forall i | 0 <= i < |front| :: NewGood(front[i], ware)
    requires Amount(front, ware) == amount && |front| == Pieces(ware, amount)
    ensures NewGoods(front, ware, amount)
  {
  }

  lemma {:induction false} FresherAll(lockers: map<int, Locker>, next: int, next': int)
    requires AllFresh(lockers, next) && next <= next'
    ensures AllFresh(lockers, next')
  {
  }

  lemma {:induction false} StillFresh(before: Items, after: Items, next: int)
    requires Fresh(before, next) && NoNew(before, after)
    ensures Fresh(after, next)
  {
    forall id | id >= next
      ensures Occurs(after, id) == 0
    {
      assert Occurs(after, id) <= Occurs(before, id);
    }
  }

  lemma {:induction false} EnoughIsThere(locker: Items, list: seq<Piece>, ware: Ware, amount: nat)
    requires Proper(locker) && JustEnough(locker, list, ware, amount)
    ensures StillThere(locker, list, ware)
  {
  }

  lemma {:induction false} SinglesSum(list: seq<Piece>, amount: nat)
    requires list != [] && Sum(list) >= amount && Sum(list[1..]) < amount && list[0].count == 1
    ensures Sum(list) == amount
  {
  }

  // How many offers a player has
  function OfferCount(offers: map<int, Offer>, player: int): nat
  {
    |set i | i in offers && offers[i].player == player|
  }

  /** Every offer that is entered counts as one of its player, and nobody has one to begin with. */
  lemma {:induction false} OffersCounted(offers: map<int, Offer>, i: int, o: Offer, player: int)
    requires i !in offers
    ensures OfferCount(map[], player) == 0
    ensures OfferCount(offers[i := o], player) == OfferCount(offers, player) + if o.player == player then 1 else 0
  {
    var before := set j | j in offers && offers[j].player == player;
    var now := offers[i := o];
    var after := set j | j in now && now[j].player == player;
    assert after == if o.player == player then before + {i} else before;
  }

  lemma {:induction false} SameKeys(a: map<int, Locker>, b: map<int, Locker>, p: int, ware: Ware, amount: int)
    requires Gave(a, b, p, ware, amount)
    ensures a.Keys == b.Keys
  {
  }

  lemma {:induction false} EnteredReady(b: Books, c: Books, pending: seq<seq<Row>>, i: int, o: Offer, fee: nat)
    requires Valid(b) && RowsOk(pending, b.offers, b.bank, i) && AllProper(c.lockers) && (forall j <- b.offers :: j < i)
    requires o.player in b.bank && 1 <= o.amount <= MAX_AMOUNT && 1 <= o.price <= MAX_PRICE
    requires fee + Escrow(o) <= b.bank[o.player]
    requires c.offers == b.offers[i := o] && c.burned == b.burned + fee
    requires c.bank == b.bank[o.player := b.bank[o.player] - (fee + Escrow(o))]
    requires if o.sell then Gave(b.lockers, c.lockers, o.player, o.ware, o.amount) else c.lockers == b.lockers
    ensures Entered(b, c, i, o, fee) && Valid(c) && Conserved(b, c) && RowsOk(pending, c.offers, c.bank, i + 1)
  {
    hide Proper, Gone, Conserved, RowsOk;
    EnteredConserves(b, c, i, o, fee);
    RowsStayOk(pending, b, c, i, i + 1);
  }

  lemma {:induction false} CancelledReady(b: Books, c: Books, pending: seq<seq<Row>>, i: int, next: int)
    requires Valid(b) && RowsOk(pending, b.offers, b.bank, next) && AllProper(c.lockers)
    requires Cancelled(b, c, i)
    ensures Valid(c) && Conserved(b, c) && RowsOk(pending, c.offers, c.bank, next)
  {
    hide Proper, Gone, Conserved, RowsOk;
    CancelledConserves(b, c, i);
    RowsStayOk(pending, b, c, next, next);
  }

  lemma {:induction false} BuyOfferServed(b: Books, c: Books, handed: map<int, Locker>, taker: int, i: int, amount: nat)
    requires i in b.offers && !b.offers[i].sell && 1 <= amount <= b.offers[i].amount && taker in b.bank
    requires c.offers == Reduced(b.offers, i, amount) && c.burned == b.burned
    requires c.bank == b.bank[taker := b.bank[taker] + b.offers[i].price * amount]
    requires Gave(b.lockers, handed, taker, b.offers[i].ware, amount)
    requires Gained(handed, c.lockers, b.offers[i].player, b.offers[i].ware, amount)
    ensures Served(b, c, taker, i, amount)
  {
    hide Gave, Gained;
  }

  lemma {:induction false} SellOfferServed(b: Books, c: Books, taker: int, i: int, amount: nat)
    requires i in b.offers && b.offers[i].sell && 1 <= amount <= b.offers[i].amount && taker in b.bank
    requires c.offers == Reduced(b.offers, i, amount) && c.burned == b.burned
    requires var o := b.offers[i]; var paid := b.bank[taker := b.bank[taker] - o.price * amount];
      o.player in paid && c.bank == paid[o.player := paid[o.player] + o.price * amount]
    requires Gained(b.lockers, c.lockers, taker, b.offers[i].ware, amount)
    ensures Served(b, c, taker, i, amount)
  {
    hide Gained;
  }

  lemma {:induction false} ServedReady(b: Books, c: Books, pending: seq<seq<Row>>, taker: int, i: int, amount: nat,
                                       next: int)
    requires Valid(b) && RowsOk(pending, b.offers, b.bank, next) && AllProper(c.lockers)
    requires Served(b, c, taker, i, amount) && (b.offers[i].sell ==> b.offers[i].price * amount <= b.bank[taker])
    ensures Valid(c) && Conserved(b, c) && RowsOk(pending, c.offers, c.bank, next)
    ensures forall j <- c.offers :: j in b.offers
  {
    hide Proper, Conserved, RowsOk, Served, OfferOk;
    ServedConserves(b, c, taker, i, amount);
    ServedKeys(b, c, taker, i, amount);
    ServedBank(b, c, taker, i, amount);
    ReducedOk(b.offers, i, amount, b.bank, c.bank, next);
    RowsStayOk(pending, b, c, next, next);
  }

  lemma {:induction false} ReducedOk(offers: map<int, Offer>, i: int, amount: nat, bank: map<int, int>,
                                     bank': map<int, int>, next: int)
    requires i in offers && 1 <= amount <= offers[i].amount && bank.Keys == bank'.Keys
    requires forall j <- offers :: OfferOk(offers[j], bank)
    ensures Later(offers, Reduced(offers, i, amount), next)
    ensures forall j <- Reduced(offers, i, amount) :: j in offers && OfferOk(Reduced(offers, i, amount)[j], bank')
  {
  }

  lemma {:induction false} ServedBank(b: Books, c: Books, taker: int, i: int, amount: nat)
    requires Served(b, c, taker, i, amount) && (b.offers[i].sell ==> b.offers[i].price * amount <= b.bank[taker])
    requires forall p <- b.bank :: b.bank[p] >= 0
    ensures i in b.offers && 1 <= amount <= b.offers[i].amount && c.offers == Reduced(b.offers, i, amount)
      && c.burned == b.burned
    ensures forall p <- c.bank :: c.bank[p] >= 0
  {
    hide Gained, Gave, Reduced;
    assert b.offers[i].price * amount >= 0;
  }

  lemma {:induction false} ServedKeys(b: Books, c: Books, taker: int, i: int, amount: nat)
    requires Served(b, c, taker, i, amount)
    ensures c.lockers.Keys == b.lockers.Keys && c.bank.Keys == b.bank.Keys
  {
    hide Gone, Reduced;
  }

  lemma {:induction false} NotProcessed(b: Books, r: Row, lost: bool)
    requires r.id !in b.offers
    ensures Processed(b, b, r, lost)
  {
  }

  lemma {:induction false} ProcessedReady(b: Books, c: Books, pending: seq<seq<Row>>, r: Row, lost: bool, next: int)
    requires Valid(b) && RowsOk(pending, b.offers, b.bank, next) && AllProper(c.lockers)
    requires Processed(b, c, r, lost) && r.id in b.offers && r.read.price >= 0 && r.read.amount >= 0
    ensures Valid(c) && RowsOk(pending, c.offers, c.bank, next) && Later(b.offers, c.offers, next)
  {
    hide Proper, Gone, RowsOk;
    RowsStayOk(pending, b, c, next, next);
  }

  // ---------- two runs in which a row is out of date ----------

  const WARE := Ware(2160, true, true)
  const EMPTY := Locker([], [])

  function Stock(count: nat, id: int): Items
  {
    [Node(Piece(id, WARE, count, true), [])]
  }

  function Lockers(first: Locker, second: Locker): map<int, Locker>
  {
    map[1 := first, 2 := second]
  }

  lemma {:induction false} StockFacts(count: nat, id: int)
    requires 1 <= count <= 100
    ensures Proper(Stock(count, id)) && Stock(count, id) + [] == [] + Stock(count, id) == Stock(count, id)
    ensures forall w: Ware :: Amount(Stock(count, id), w) == if w == WARE then count else 0
    ensures Proper(EMPTY.All()) && Gone(Stock(count, id), EMPTY.All(), WARE, count)
    ensures NewGoods(Stock(count, id), WARE, count)
  {
    SingleFacts(Piece(id, WARE, count, true));
  }

  lemma {:induction false} StockLeft(count: nat, less: nat)
    requires 1 <= less < count <= 100
    ensures Left(Locker(Stock(count, 1), []), Locker(Stock(less, 1), []))
    ensures Gone(Stock(count, 1), Stock(less, 1), WARE, count - less)
  {
    SingleFacts(Piece(1, WARE, count, true));
    SingleFacts(Piece(1, WARE, less, true));
    StockFacts(count, 1);
    StockFacts(less, 1);
  }

  lemma {:induction false} InboxGains(other: Locker, count: nat, id: int)
    requires 1 <= count <= 100
    ensures Gained(Lockers(EMPTY, other), Lockers(Locker([], Stock(count, id)), other), 1, WARE, count)
    ensures Gained(Lockers(other, EMPTY), Lockers(other, Locker([], Stock(count, id))), 2, WARE, count)
  {
    hide Gone, NewGoods, Proper, Stock;
    StockFacts(count, id);
    assert Stock(count, id) + EMPTY.inbox == Stock(count, id);
  }

  lemma {:induction false} DepotGives(other: Locker, count: nat, less: nat)
    requires 1 <= less < count <= 100
    ensures Gave(Lockers(other, Locker(Stock(count, 1), [])), Lockers(other, Locker(Stock(less, 1), [])), 2, WARE,
      count - less)
  {
    hide Gone, Left, Proper, Stock;
    StockFacts(count, 1);
    StockFacts(less, 1);
    StockLeft(count, less);
  }

  /** A buy offer of 10 is read as expired, then 4 of it are served, and still the row pays back 10: gold is made. */
  lemma {:induction false} ExpiryCanMakeGold(price: nat) returns (b0: Books, b1: Books, b2: Books)
    requires 1 <= price <= MAX_PRICE
    ensures Valid(b0) && 1 in b0.offers && !b0.offers[1].sell && b0.offers[1].amount == 10
      && b0.offers[1].price == price
    ensures Served(b0, b1, 2, 1, 4) && Processed(b1, b2, Row(1, b0.offers[1]), false)
    ensures Gold(b2) == Gold(b0) + 4 * price
  {
    hide Gave, Gained, Gold, Goods, Proper, Stock;
    var o := Offer(1, false, WARE, 10, price, 0);
    var seller, poorer := Locker(Stock(10, 1), []), Locker(Stock(6, 1), []);
    b0 := Books(map[1 := 0, 2 := 0], Lockers(EMPTY, seller), map[1 := o], 0);
    b1 := Books(map[1 := 0, 2 := 4 * price], Lockers(Locker([], Stock(4, 2)), poorer), map[1 := o.(amount := 6)], 0);
    b2 := b1.(bank := map[1 := 10 * price, 2 := 4 * price], offers := map[]);
    StockFacts(10, 1);
    DepotGives(EMPTY, 10, 6);
    InboxGains(poorer, 4, 2);
    assert Gave(b0.lockers, Lockers(EMPTY, poorer), 2, WARE, 4);
    ServedConserves(b0, b1, 2, 1, 4);
    assert b1.offers - {1} == map[];
    ProcessedMakes(b1, b2, Row(1, o), false);
  }

  /** A sell offer of 10 is read as expired, then 4 of it are bought, and still the row returns 10: goods are made. */
  lemma {:induction false} ExpiryCanMakeGoods() returns (b0: Books, b1: Books, b2: Books)
    ensures Valid(b0) && 1 in b0.offers && b0.offers[1].sell && b0.offers[1].amount == 10
    ensures Served(b0, b1, 2, 1, 4) && Processed(b1, b2, Row(1, b0.offers[1]), false)
    ensures Goods(b2, WARE) == Goods(b0, WARE) + 4
  {
    hide Gave, Gained, Gold, Goods, Proper, Stock;
    var o := Offer(1, true, WARE, 10, 1, 0);
    var buyer := Locker([], Stock(4, 1));
    b0 := Books(map[1 := 0, 2 := 4], Lockers(EMPTY, EMPTY), map[1 := o], 0);
    b1 := Books(map[1 := 4, 2 := 0], Lockers(EMPTY, buyer), map[1 := o.(amount := 6)], 0);
    b2 := b1.(lockers := Lockers(Locker([], Stock(10, 2)), buyer), offers := map[]);
    StockFacts(4, 1);
    InboxGains(EMPTY, 4, 1);
    InboxGains(buyer, 10, 2);
    ServedConserves(b0, b1, 2, 1, 4);
    assert b1.offers - {1} == map[];
    ProcessedMakes(b1, b2, Row(1, o), false);
  }
}
