/**
  The trade between two players: one offers an item, the other makes a counter-offer, both accept, the items
  change hands.  Either can close the trade at any time, except while the items change hands.
 */
module TradeProtocol {
  import opened Options

  datatype TradeState = NoTrade | Initiated | Accepted | Acknowledged | Transfer
  datatype Trader = Trader(state: TradeState, partner: Option<nat>, item: Option<nat>)

  const IDLE := Trader(NoTrade, None, None)

  // What holds of a player and the one with whom he trades
  ghost predicate Fair(players: map<nat, Trader>, p: nat)
    requires p in players
  {
    var t := players[p];
    && (t.state.NoTrade? <==> t.partner.None?)
    && (t.state in {NoTrade, Acknowledged} ==> t.item.None?)
    && (t.state.Initiated? ==> t.item.Some?)
    && (t.partner.Some? ==>
      && var q := t.partner.value;
      && q != p && q in players && players[q].partner == Some(p)
      && (t.state.Transfer? <==> players[q].state.Transfer?)
      && (t.item.Some? || players[q].item.Some?)
      && !(t.state.Accepted? && players[q].state.Accepted?))
  }

  // The table of offered items names exactly the player's offer, unless it is changing hands.
  ghost predicate Listed(players: map<nat, Trader>, tradeItems: map<nat, nat>, p: nat)
    requires p in players
  {
    var t := players[p];
    && (t.item.Some? && !t.state.Transfer? ==> t.item.value in tradeItems && tradeItems[t.item.value] == p)
    && (forall i <- tradeItems :: tradeItems[i] == p ==> t.item == Some(i) && !t.state.Transfer?)
  }

  ghost predicate Consistent(players: map<nat, Trader>, tradeItems: map<nat, nat>)
  {
    && (forall p <- players :: Fair(players, p) && Listed(players, tradeItems, p))
    && (forall i <- tradeItems :: tradeItems[i] in players)
  }

  // Only the players p and q have changed, who were partners or free, and so are now.
  ghost predicate OnlyThese(players: map<nat, Trader>, players': map<nat, Trader>, p: nat, q: nat)
  {
    && players'.Keys == players.Keys && p in players && q in players && p != q
    && (forall x <- players :: x == p || x == q || players'[x] == players[x])
    && players[p].partner in {None, Some(q)} && players[q].partner in {None, Some(p)}
    && players'[p].partner in {None, Some(q)} && players'[q].partner in {None, Some(p)}
  }

  ghost predicate SameOffers(tradeItems: map<nat, nat>, tradeItems': map<nat, nat>, p: nat, q: nat)
  {
    && (forall i <- tradeItems :: tradeItems[i] in {p, q} || (i in tradeItems' && tradeItems'[i] == tradeItems[i]))
    && (forall i <- tradeItems' :: tradeItems'[i] in {p, q} || (i in tradeItems && tradeItems'[i] == tradeItems[i]))
  }

  lemma {:induction false} TwoChanged(players: map<nat, Trader>, tradeItems: map<nat, nat>, players': map<nat, Trader>,
                                      tradeItems': map<nat, nat>, p: nat, q: nat)
    requires Consistent(players, tradeItems) && OnlyThese(players, players', p, q)
      && SameOffers(tradeItems, tradeItems', p, q)
    requires Fair(players', p) && Fair(players', q) && Listed(players', tradeItems', p)
      && Listed(players', tradeItems', q)
    ensures Consistent(players', tradeItems')
  {
    hide Fair, Listed;
    forall x | x in players
      ensures Fair(players', x) && Listed(players', tradeItems', x)
    {
      assert Fair(players, x) && Listed(players, tradeItems, x);
      if x != p && x != q {
        StillFair(players, players', p, q, x);
        StillListed(players, tradeItems, players', tradeItems', p, q, x);
      }
    }
  }

  lemma {:induction false} StillFair(players: map<nat, Trader>, players': map<nat, Trader>, p: nat, q: nat, x: nat)
    requires OnlyThese(players, players', p, q) && x in players && x != p && x != q && Fair(players, x)
    ensures Fair(players', x)
  {
  }

  lemma {:induction false} StillListed(players: map<nat, Trader>, tradeItems: map<nat, nat>, players': map<nat, Trader>,
                                       tradeItems': map<nat, nat>, p: nat, q: nat, x: nat)
    requires OnlyThese(players, players', p, q) && SameOffers(tradeItems, tradeItems', p, q)
    requires x in players && x != p && x != q && Listed(players, tradeItems, x)
    ensures Listed(players', tradeItems', x)
  {
  }

  lemma {:induction false} TheTwo(players: map<nat, Trader>, tradeItems: map<nat, nat>, p: nat, q: nat)
    requires Consistent(players, tradeItems) && p in players && q in players
    ensures Fair(players, p) && Fair(players, q) && Listed(players, tradeItems, p) && Listed(players, tradeItems, q)
    ensures p != q && players[p].state.NoTrade? && players[q].state.NoTrade? ==> OnlyThese(players, players, p, q)
    ensures players[p].partner == Some(q) ==> OnlyThese(players, players, p, q)
    ensures forall i <- tradeItems :: tradeItems[i] in players && players[tradeItems[i]].item == Some(i)
  {
    assert Fair(players, p) && Fair(players, q);
    forall i | i in tradeItems
      ensures tradeItems[i] in players && players[tradeItems[i]].item == Some(i)
    {
      assert Listed(players, tradeItems, tradeItems[i]);
    }
  }

  function WithoutOffer(tradeItems: map<nat, nat>, item: Option<nat>): map<nat, nat>
  {
    if item.Some? then tradeItems - {item.value} else tradeItems
  }

  // Both sides begin to change hands, and their offers leave the table.
  lemma {:induction false} TransferBegins(players: map<nat, Trader>, tradeItems: map<nat, nat>,
                                          players': map<nat, Trader>,
                                          tradeItems': map<nat, nat>, p: nat, q: nat)
    requires Consistent(players, tradeItems) && p in players && q in players && players[p].partner == Some(q)
    requires players' == players[p := players[p].(state := Transfer)][q := players[q].(state := Transfer)]
    requires tradeItems' == WithoutOffer(WithoutOffer(tradeItems, players[p].item), players[q].item)
    requires !players[p].state.Transfer? && !players[p].state.NoTrade?
    ensures Consistent(players', tradeItems')
  {
    hide Consistent;
    TheTwo(players, tradeItems, p, q);
    TwoChanged(players, tradeItems, players', tradeItems', p, q);
  }

  class Game {
    var players: map<nat, Trader>
    var tradeItems: map<nat, nat>

    ghost predicate Valid()
      reads this
    {
      Consistent(players, tradeItems)
    }

    constructor (online: set<nat>)
      ensures Valid() && players.Keys == online
    {
      players, tradeItems := map p | p in online :: IDLE, map[];
    }

    /** A player offers an item to another; the other must be free, or have made his offer to this player. */
    method InternalStartTrade(player: nat, tradePartner: nat, tradeItem: nat) returns (started: bool)
      requires Valid() && player in players && tradePartner in players && player != tradePartner
      requires forall p <- players :: players[p].item != Some(tradeItem)
      modifies this
      ensures Valid() && players.Keys == old(players).Keys
      ensures var t, q := old(players)[player], old(players)[tradePartner];
        started <==>
          (t.state.NoTrade? && q.state.NoTrade?) || (t.state.Acknowledged? && t.partner == Some(tradePartner))
      ensures started ==>
        && players[player] == Trader(Initiated, Some(tradePartner), Some(tradeItem))
          && players[tradePartner].partner == Some(player)
        && (forall p <- players :: p in {player, tradePartner} || players[p] == old(players)[p])
        && tradeItems == old(tradeItems)[tradeItem := player]
      ensures !started ==> players == old(players) && tradeItems == old(tradeItems)
    {
      hide Consistent;
      var t, q := players[player], players[tradePartner];
      TheTwo(players, tradeItems, player, tradePartner);
      if !t.state.NoTrade? && !(t.state.Acknowledged? && t.partner == Some(tradePartner)) {
        return false;
      } else if !q.state.NoTrade? && q.partner != Some(player) {
        return false;
      }
      players := players[player := Trader(Initiated, Some(tradePartner), Some(tradeItem))];
      tradeItems := tradeItems[tradeItem := player];
      if q.state.NoTrade? {
        players := players[tradePartner := Trader(Acknowledged, Some(player), None)];
      }
      started := true;
      TwoChanged(old(players), old(tradeItems), players, tradeItems, player, tradePartner);
    }

    /** Closes a trade for both sides, unless the items are changing hands. */
    method InternalCloseTrade(player: nat)
      requires Valid() && player in players
      modifies this
      ensures Valid() && players.Keys == old(players).Keys
      ensures var t := old(players)[player];
        if t.state.Transfer? then players == old(players) && tradeItems == old(tradeItems)
        else
          && players[player] == IDLE && (t.partner.Some? ==>
            t.partner.value in players && players[t.partner.value] == IDLE)
          && (forall p <- players :: p == player || Some(p) == t.partner || players[p] == old(players)[p])
          && (forall i :: i in tradeItems <==>
            i in old(tradeItems) && old(tradeItems)[i] != player && Some(old(tradeItems)[i]) != t.partner)
    {
      hide Consistent;
      var t := players[player];
      TheTwo(players, tradeItems, player, player);
      if (t.partner.Some? && players[t.partner.value].state.Transfer?) || t.state.Transfer? {
        return;
      }
      if t.item.Some? {
        Withdraw(t.item.value);
      }
      players := players[player := IDLE];
      if t.partner.None? {
        assert players == old(players) && tradeItems == old(tradeItems);
        return;
      }
      var tradePartner := t.partner.value;
      TheTwo(old(players), old(tradeItems), player, tradePartner);
      var q := players[tradePartner];
      if q.item.Some? {
        Withdraw(q.item.value);
      }
      players := players[tradePartner := IDLE];
      TwoChanged(old(players), old(tradeItems), players, tradeItems, player, tradePartner);
    }

    method Withdraw(item: nat)
      modifies this`tradeItems
      ensures tradeItems == old(tradeItems) - {item}
    {
      if item in tradeItems {
        tradeItems := tradeItems - {item};
      }
    }

    /** A player accepts; when both have, the items begin to change hands, unless a script forbids it. */
    method PlayerAcceptTrade(player: nat, reachable: bool, allowed: bool) returns (transfer: bool)
      requires Valid() && player in players
      modifies this
      ensures Valid() && players.Keys == old(players).Keys
      ensures var t := old(players)[player];
        transfer <==>
          && (t.state.Acknowledged? || t.state.Initiated?) && reachable && allowed
          && t.partner.Some? && t.partner.value in old(players) && old(players)[t.partner.value].state.Accepted?
      ensures transfer ==>
        && players[player].state.Transfer? && players[player].partner.Some?
        && players[player] == old(players)[player].(state := Transfer)
        && players[player].partner.value in players && players[players[player].partner.value].state.Transfer?
        && (forall p <- players :: p == player || Some(p) == players[player].partner || players[p] == old(players)[p])
      ensures var t := old(players)[player];
        !((t.state.Acknowledged? || t.state.Initiated?) && reachable) ==>
          players == old(players) && tradeItems == old(tradeItems)
      ensures var t := old(players)[player];
        (t.state.Acknowledged? || t.state.Initiated?) && reachable && t.partner.Some? && !transfer ==>
          t.partner.value in old(players) && if old(players)[t.partner.value].state.Accepted?
            then players[player] == IDLE
          else players == old(players)[player := t.(state := Accepted)] && tradeItems == old(tradeItems)
    {
      hide Consistent;
      transfer := false;
      var t := players[player];
      TheTwo(players, tradeItems, player, player);
      if !(t.state.Acknowledged? || t.state.Initiated?) {
        return;
      }
      if t.partner.None? {
        return;
      }
      var tradePartner := t.partner.value;
      if !reachable {
        return;
      }
      var q := players[tradePartner];
      TheTwo(players, tradeItems, player, tradePartner);
      if !q.state.Accepted? {
        players := players[player := t.(state := Accepted)];
        TwoChanged(old(players), tradeItems, players, tradeItems, player, tradePartner);
        return;
      }
      if !allowed {
        InternalCloseTrade(player);
        return;
      }
      players := players[player := t.(state := Transfer)][tradePartner := q.(state := Transfer)];
      if t.item.Some? {
        Withdraw(t.item.value);
      }
      if q.item.Some? {
        Withdraw(q.item.value);
      }
      TransferBegins(old(players), old(tradeItems), players, tradeItems, player, tradePartner);
      transfer := true;
    }

    /** The end of the transfer, whether or not the items could be moved: both players are free again. */
    method FinishTransfer(player: nat)
      requires Valid() && player in players && players[player].state.Transfer?
      modifies this`players
      ensures Valid() && players.Keys == old(players).Keys
      ensures old(players)[player].partner.Some? && old(players)[player].partner.value in players
      ensures players[player] == IDLE && players[old(players)[player].partner.value] == IDLE
      ensures forall p <- players ::
        p == player || Some(p) == old(players)[player].partner || players[p] == old(players)[p]
    {
      assert Fair(players, player);
      var tradePartner := players[player].partner.value;
      players := players[player := IDLE][tradePartner := IDLE];
    }
  }

  // Partners belong to each other, and at rest no item is offered by two players.
  lemma {:induction false} PartnersBelong(players: map<nat, Trader>, tradeItems: map<nat, nat>, p: nat, q: nat)
    requires Consistent(players, tradeItems) && p in players && q in players
    ensures players[p].partner == Some(q) <==> players[q].partner == Some(p)
    ensures players[p].partner == players[q].partner && players[p].partner.Some? ==> p == q
    ensures players[p].item.Some? && players[p].item == players[q].item && !players[p].state.Transfer?
      && !players[q].state.Transfer?
      ==> p == q
    ensures players[p].state.Acknowledged? && players[p].partner == Some(q) ==>
      players[q].state in {Initiated, Accepted}
  {
    TheTwo(players, tradeItems, p, q);
  }
}
