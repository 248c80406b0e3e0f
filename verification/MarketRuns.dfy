/**
  Whole runs of the market.  A run is the row of states it goes through; every step is what its action does.  Gold and
  goods change by exactly what out-of-date rows make and what cannot be returned, and by nothing else.
 */
module MarketRuns {
  import opened MarketGoods
  import opened Market

  datatype Action =
    | Create(player: int, sell: bool, ware: Ware, amount: nat, price: nat, fee: nat, now: int)
    | Cancel(player: int, id: int)
    | Accept(player: int, id: int, amount: nat)
    | Select(lastExpireDate: int)
    | Process

  // The books, the results of the query for expired offers that wait, and the number of the next offer
  datatype State = State(books: Books, pending: seq<seq<Row>>, nextOffer: int)

  // What does not change: who can be loaded, and how many offers a player may have
  datatype Rules = Rules(loadable: int -> bool, maxOfferCount: nat)

  ghost predicate Good(s: State)
  {
    && Valid(s.books) && 1 <= s.nextOffer && (forall i <- s.books.offers :: 1 <= i < s.nextOffer)
    && RowsOk(s.pending, s.books.offers, s.books.bank, s.nextOffer)
  }

  // The fee that is asked, within its bounds
  function Fee(fee: nat): (f: nat)
    ensures 20 <= f <= 1000 && (f > fee ==> f == 20) && (f < fee ==> f == 1000)
  {
    if fee < 20 then 20 else if fee > 1000 then 1000 else fee
  }

  // What an action does to a state: it succeeds exactly when it may, and otherwise changes nothing.
  ghost predicate Step(rules: Rules, s: State, a: Action, t: State)
    requires Good(s)
  {
    match a
    case Create(player, sell, ware, amount, price, fee, now) =>
      var o := Offer(player, sell, ware, amount, price, now);
      if MayCreate(s.books, rules.maxOfferCount, o, Fee(fee)) then
        && Entered(s.books, t.books, s.nextOffer, o, Fee(fee))
        && t.pending == s.pending && t.nextOffer == s.nextOffer + 1
      else t == s
    case Cancel(player, id) =>
      if MayCancel(s.books, player, id) then Cancelled(s.books, t.books, id) && t == s.(books := t.books) else t == s
    case Accept(player, id, amount) =>
      if MayAccept(s.books, rules.loadable, player, id, amount) then
        Served(s.books, t.books, player, id, amount) && t == s.(books := t.books)
      else t == s
    case Select(lastExpireDate) =>
      exists rows :: Reads(rows, s.books.offers, lastExpireDate) && t == s.(pending := s.pending + [rows])
    case Process =>
      if s.pending == [] then t == s else
        && WorkedOff(s.books, t.books, s.pending[0], rules.loadable)
        && t == s.(books := t.books, pending := s.pending[1..])
  }

  // A run begins and ends with a state; in between every action makes its step.
  ghost predicate Run(rules: Rules, trace: seq<State>, actions: seq<Action>)
    requires |trace| == |actions| + 1
  {
    && (forall k | 0 <= k < |trace| :: Good(trace[k]))
    && forall k | 0 <= k < |actions| :: Step(rules, trace[k], actions[k], trace[k + 1])
  }

  // ---------- what a run makes ----------

  // The slips of the rows that one action works off
  function StepSlips(rules: Rules, s: State, a: Action): seq<Slip>
  {
    if a.Process? && s.pending != [] then SlipsOf(s.pending[0], s.books.offers, rules.loadable) else []
  }

  function RunSlips(rules: Rules, trace: seq<State>, actions: seq<Action>): seq<Slip>
    requires |trace| == |actions| + 1
  {
    if actions == [] then [] else StepSlips(rules, trace[0], actions[0]) + RunSlips(rules, trace[1..], actions[1..])
  }

  lemma {:induction false} StepMakes(rules: Rules, s: State, a: Action, t: State)
    requires Good(s) && Step(rules, s, a, t)
    ensures Made(s.books, t.books, StepSlips(rules, s, a))
    ensures forall slip <- StepSlips(rules, s, a) :: Possible(slip)
  {
    hide Made, Valid, RowsOk, Entered, Cancelled, Served, WorkedOff, SlipsOf, Possible, Reads, MayCreate, MayAccept;
    NothingMade(s.books);
    match a {
      case Create(player, sell, ware, amount, price, fee, now) =>
        var o := Offer(player, sell, ware, amount, price, now);
        if MayCreate(s.books, rules.maxOfferCount, o, Fee(fee)) {
          EnteredConserves(s.books, t.books, s.nextOffer, o, Fee(fee));
          ConservedMakesNothing(s.books, t.books);
        }
      case Cancel(player, id) =>
        if MayCancel(s.books, player, id) {
          CancelledConserves(s.books, t.books, id);
          ConservedMakesNothing(s.books, t.books);
        }
      case Accept(player, id, amount) =>
        if MayAccept(s.books, rules.loadable, player, id, amount) {
          ServedConserves(s.books, t.books, player, id, amount);
          ConservedMakesNothing(s.books, t.books);
        }
      case Select(lastExpireDate) =>
      case Process =>
        if s.pending != [] {
          Members(s.books);
          RowsAre(s.pending, s.books.offers, s.books.bank, s.nextOffer);
          WorkedOffMakes(s.books, t.books, s.pending[0], rules.loadable, s.nextOffer);
        }
    }
  }

  lemma {:induction false} Behind(rules: Rules, trace: seq<State>, actions: seq<Action>)
    requires |trace| == |actions| + 1 && Run(rules, trace, actions) && actions != []
    ensures Run(rules, trace[1..], actions[1..])
    ensures Good(trace[0]) && Step(rules, trace[0], actions[0], trace[1])
    ensures trace[1..][|actions| - 1] == trace[|actions|]
  {
    hide Good, Step;
    forall k | 0 <= k < |actions| - 1
      ensures Step(rules, trace[1..][k], actions[1..][k], trace[1..][k + 1])
    {
      assert Step(rules, trace[k + 1], actions[k + 1], trace[k + 1 + 1]);
    }
  }

  /** Over a run gold and goods change by exactly what the rows it works off make or lose. */
  lemma {:induction false} RunMakes(rules: Rules, trace: seq<State>, actions: seq<Action>)
    requires |trace| == |actions| + 1 && Run(rules, trace, actions)
    ensures Made(trace[0].books, trace[|actions|].books, RunSlips(rules, trace, actions))
    ensures forall slip <- RunSlips(rules, trace, actions) :: Possible(slip)
    decreases |actions|
  {
    hide Made, Good, Step, Possible, StepSlips, Run;
    if actions == [] {
      NothingMade(trace[0].books);
    } else {
      Behind(rules, trace, actions);
      var first, rest := StepSlips(rules, trace[0], actions[0]), RunSlips(rules, trace[1..], actions[1..]);
      StepMakes(rules, trace[0], actions[0], trace[1]);
      RunMakes(rules, trace[1..], actions[1..]);
      MadeThen(trace[0].books, trace[1].books, trace[|actions|].books, first, rest);
    }
  }

  /** A run in which no expired offers are worked off conserves gold and goods. */
  lemma {:induction false} NoExpiryConserves(rules: Rules, trace: seq<State>, actions: seq<Action>)
    requires |trace| == |actions| + 1 && Run(rules, trace, actions)
    requires forall k | 0 <= k < |actions| :: !actions[k].Process?
    ensures Conserved(trace[0].books, trace[|actions|].books)
  {
    hide Made, Run, Conserved;
    RunMakes(rules, trace, actions);
    NoSlips(rules, trace, actions);
    MadeNothingExactly(trace[0].books, trace[|actions|].books, []);
  }

  lemma {:induction false} NoSlips(rules: Rules, trace: seq<State>, actions: seq<Action>)
    requires |trace| == |actions| + 1 && forall k | 0 <= k < |actions| :: !actions[k].Process?
    ensures RunSlips(rules, trace, actions) == []
    decreases |actions|
  {
    if actions != [] {
      NoSlips(rules, trace[1..], actions[1..]);
    }
  }

  // ---------- the rows of a run ----------

  // In step k of the run row r is worked off and finds its offer.
  ghost predicate Found(trace: seq<State>, actions: seq<Action>, k: int, r: Row)
    requires |trace| == |actions| + 1
  {
    && 0 <= k < |actions| && actions[k].Process? && trace[k].pending != []
    && r in trace[k].pending[0] && r.id in trace[k].books.offers
  }

  lemma {:induction false} SlipsAreRows(rows: seq<Row>, offers: map<int, Offer>, loadable: int -> bool, s: Slip)
    requires DistinctIds(rows)
    ensures s in SlipsOf(rows, offers, loadable) <==>
      exists r <- rows :: r.id in offers && s == SlipOf(r, offers, loadable)
    decreases |rows|
  {
    hide Lost;
    if rows != [] {
      var r, rest, others := rows[0], rows[1..], offers - {rows[0].id};
      SlipsAreRows(rest, others, loadable, s);
      assert rows == [r] + rest;
      forall q | q in rest
        ensures q.id != r.id
      {
        var i :| 0 <= i < |rest| && rest[i] == q;
        assert rows[i + 1] == q;
      }
    }
  }

  lemma {:induction false} RunSlipsAreRows(rules: Rules, trace: seq<State>, actions: seq<Action>, s: Slip)
    requires |trace| == |actions| + 1 && Run(rules, trace, actions)
    ensures s in RunSlips(rules, trace, actions) <==>
      exists k, r :: Found(trace, actions, k, r) && s == SlipOf(r, trace[k].books.offers, rules.loadable)
    decreases |actions|
  {
    hide Run, SlipOf, SlipsOf;
    if actions != [] {
      Behind(rules, trace, actions);
      RunSlipsAreRows(rules, trace[1..], actions[1..], s);
      FirstRows(rules, trace, actions, s);
      LaterRows(rules, trace, actions, s);
    }
  }

  lemma {:induction false} FirstRows(rules: Rules, trace: seq<State>, actions: seq<Action>, s: Slip)
    requires |trace| == |actions| + 1 && Run(rules, trace, actions) && actions != []
    ensures s in StepSlips(rules, trace[0], actions[0]) <==>
      exists r :: Found(trace, actions, 0, r) && s == SlipOf(r, trace[0].books.offers, rules.loadable)
  {
    hide Step, SlipOf, SlipsOf, Valid;
    var first := trace[0];
    assert Good(first);
    if actions[0].Process? && first.pending != [] {
      RowsAre(first.pending, first.books.offers, first.books.bank, first.nextOffer);
      SlipsAreRows(first.pending[0], first.books.offers, rules.loadable, s);
      assert forall r :: Found(trace, actions, 0, r) <==> r in first.pending[0] && r.id in first.books.offers;
    }
  }

  lemma {:induction false} LaterRows(rules: Rules, trace: seq<State>, actions: seq<Action>, s: Slip)
    requires |trace| == |actions| + 1 && actions != []
    ensures (exists k, r ::
        k > 0 && Found(trace, actions, k, r) && s == SlipOf(r, trace[k].books.offers, rules.loadable))
      <==> exists k, r ::
        Found(trace[1..], actions[1..], k, r) && s == SlipOf(r, trace[1..][k].books.offers, rules.loadable)
  {
    hide SlipOf;
    if k, r :| k > 0 && Found(trace, actions, k, r) && s == SlipOf(r, trace[k].books.offers, rules.loadable) {
      assert Found(trace[1..], actions[1..], k - 1, r);
    }
    if k, r :| Found(trace[1..], actions[1..], k, r) && s == SlipOf(r, trace[1..][k].books.offers, rules.loadable) {
      assert Found(trace, actions, k + 1, r);
    }
  }

  // Every row of the run that finds its offer finds it with the amount that was read; and every one of a buy offer
  ghost predicate AllAsRead(trace: seq<State>, actions: seq<Action>)
    requires |trace| == |actions| + 1
  {
    forall k, r :: Found(trace, actions, k, r) ==> trace[k].books.offers[r.id].amount == r.read.amount
  }

  ghost predicate BuysAsRead(trace: seq<State>, actions: seq<Action>)
    requires |trace| == |actions| + 1
  {
    forall k, r :: Found(trace, actions, k, r) && !r.read.sell ==> trace[k].books.offers[r.id].amount == r.read.amount
  }

  // Of every row of the run that finds its offer the goods, if any, can be returned.
  ghost predicate NoneLost(rules: Rules, trace: seq<State>, actions: seq<Action>)
    requires |trace| == |actions| + 1
  {
    forall k, r :: Found(trace, actions, k, r) ==> !Lost(rules.loadable, r.read)
  }

  /** Over every run gold is constant if and only if every row of a buy offer finds the amount it was read with, and
      goods too, while none are lost, if and only if that holds of every row. */
  lemma {:induction false} RunExactly(rules: Rules, trace: seq<State>, actions: seq<Action>)
    requires |trace| == |actions| + 1 && Run(rules, trace, actions)
    ensures var b, c := trace[0].books, trace[|actions|].books;
      && (Gold(b) == Gold(c) <==> BuysAsRead(trace, actions))
      && (NoneLost(rules, trace, actions) ==> (Conserved(b, c) <==> AllAsRead(trace, actions)))
  {
    hide Made, Run, Conserved, Possible, Gold, RunSlips;
    var slips := RunSlips(rules, trace, actions);
    RunMakes(rules, trace, actions);
    MadeNothingExactly(trace[0].books, trace[|actions|].books, slips);
    forall s
      ensures s in slips <==>
        exists k, r :: Found(trace, actions, k, r) && s == SlipOf(r, trace[k].books.offers, rules.loadable)
    {
      RunSlipsAreRows(rules, trace, actions, s);
    }
    forall k, r | Found(trace, actions, k, r)
      ensures SlipOf(r, trace[k].books.offers, rules.loadable) in slips
    {
    }
  }

  // ---------- the market goes through such a run ----------

  ghost function Now(ledger: MarketLedger): State
    reads ledger
  {
    State(ledger.View(), ledger.pending, ledger.nextOffer)
  }

  ghost function RulesOf(ledger: MarketLedger): Rules
  {
    Rules(ledger.loadable, ledger.maxOfferCount)
  }

  /** One action by anybody, or a step of the expiry */
  method Act(ledger: MarketLedger, a: Action)
    requires ledger.Ready()
    modifies ledger
    ensures ledger.Ready() && Good(Now(ledger)) && Step(RulesOf(ledger), old(Now(ledger)), a, Now(ledger))
  {
    hide Valid, AllFresh, RowsOk, Entered, Cancelled, Served, WorkedOff, Reads, MayCreate, MayAccept, Conserved, Made,
      SlipsOf;
    match a {
      case Create(player, sell, ware, amount, price, fee, now) =>
        var ok := ledger.CreateOffer(player, sell, ware, amount, price, Fee(fee), now);
      case Cancel(player, id) =>
        var ok := ledger.CancelOffer(player, id);
      case Accept(player, id, amount) =>
        var ok := ledger.AcceptOffer(player, id, amount);
      case Select(lastExpireDate) =>
        ledger.SelectExpired(lastExpireDate);
        ghost var rows := ledger.pending[|old(ledger.pending)|];
        assert ledger.pending == old(ledger.pending) + [rows];
      case Process =>
        ledger.ProcessExpired();
    }
  }

  /**
    Any sequence of actions.  The market goes through a run of just these actions, from the state it was in to the
    state it is in; what is conserved over it is told by the rows that its steps work off.
   */
  method Trade(ledger: MarketLedger, actions: seq<Action>) returns (ghost trace: seq<State>)
    requires ledger.Ready()
    modifies ledger
    ensures ledger.Ready() && |trace| == |actions| + 1 && Run(RulesOf(ledger), trace, actions)
    ensures trace[0] == old(Now(ledger)) && trace[|actions|] == Now(ledger)
    ensures Made(old(ledger.View()), ledger.View(), RunSlips(RulesOf(ledger), trace, actions))
    ensures Gold(ledger.View()) == Gold(old(ledger.View())) <==> BuysAsRead(trace, actions)
    ensures NoneLost(RulesOf(ledger), trace, actions) ==>
      (Conserved(old(ledger.View()), ledger.View()) <==> AllAsRead(trace, actions))
    ensures (forall k | 0 <= k < |actions| :: !actions[k].Process?) ==> Conserved(old(ledger.View()), ledger.View())
  {
    hide Good, Step, Made, Gold, Conserved, AllAsRead, BuysAsRead, NoneLost, RunSlips;
    NowGood(ledger);
    trace := [Now(ledger)];
    for i := 0 to |actions|
      invariant ledger.Ready() && Good(Now(ledger)) && |trace| == i + 1
      invariant trace[0] == old(Now(ledger)) && trace[i] == Now(ledger)
      invariant Run(RulesOf(ledger), trace, actions[..i])
    {
      Act(ledger, actions[i]);
      RunMore(RulesOf(ledger), trace, actions, i, Now(ledger));
      trace := trace + [Now(ledger)];
    }
    assert actions[..|actions|] == actions;
    RunMakes(RulesOf(ledger), trace, actions);
    RunExactly(RulesOf(ledger), trace, actions);
    if forall k | 0 <= k < |actions| :: !actions[k].Process? {
      NoExpiryConserves(RulesOf(ledger), trace, actions);
    }
  }

  lemma {:induction false} NowGood(ledger: MarketLedger)
    requires ledger.Ready()
    ensures Good(Now(ledger))
  {
  }

  lemma {:induction false} RunMore(rules: Rules, trace: seq<State>, actions: seq<Action>, i: nat, s: State)
    requires i < |actions| && |trace| == i + 1 && Run(rules, trace, actions[..i])
    requires Good(trace[i]) && Good(s) && Step(rules, trace[i], actions[i], s)
    ensures Run(rules, trace + [s], actions[..i + 1])
  {
    hide Good, Step;
    var longer := trace + [s];
    forall k | 0 <= k < i + 1
      ensures Step(rules, longer[k], actions[..i + 1][k], longer[k + 1])
    {
      assert k < i ==> actions[..i][k] == actions[k] && Step(rules, trace[k], actions[..i][k], trace[k + 1]);
    }
  }
}
