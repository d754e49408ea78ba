/** The trade engine: buying from and selling back to the market at the
    current round's price. A rejected order leaves the game as it was. */
module Trading {

  import opened Base
  import opened Schedule
  import opened Market
  import opened Game

  /** The buyer's record after paying `cost` for `quantity` shares of `name`. */
  function AfterBuy(p: Player, name: StockName, cost: int, quantity: int): Player {
    p.(cash := p.cash - cost, portfolio := p.portfolio[name := HoldingOf(p.portfolio, name) + quantity])
  }

  /** The seller's record after receiving `proceeds` for `quantity` shares of
      `name`; a holding that reaches zero is removed from the portfolio. */
  function AfterSell(p: Player, name: StockName, proceeds: int, quantity: int): Player
    requires name in p.portfolio
  {
    var left := p.portfolio[name] - quantity;
    p.(cash := p.cash + proceeds,
       portfolio := if left == 0 then p.portfolio - {name} else p.portfolio[name := left])
  }

  /** A buy order of player `id` (`None`: the connection never registered). */
  function Buy(g: Game, id: Option<PlayerId>, name: StockName, quantity: int): (r: Game)
    ensures r.order == g.order && r.settings == g.settings && r.players.Keys == g.players.Keys
    ensures forall q :: q in g.players && Some(q) != id ==> r.players[q] == g.players[q]
    ensures |r.market| == |g.market|
  {
    if id.None? || id.value !in g.players then g
    else match FindStock(g.market, name)
      case None => g
      case Some(i) =>
        if quantity <= 0 then g
        else
          var p := g.players[id.value];
          var cost := g.market[i].price * quantity;
          if p.cash >= cost && g.market[i].quantity >= quantity then
            Settle(g, id.value, AfterBuy(p, name, cost, quantity), i, -quantity)
          else g
  }

  /** A sell order; it needs a non-zero holding of at least `quantity`. A
      holding that reaches zero is removed from the portfolio. */
  function Sell(g: Game, id: Option<PlayerId>, name: StockName, quantity: int): (r: Game)
    ensures r.order == g.order && r.settings == g.settings && r.players.Keys == g.players.Keys
    ensures forall q :: q in g.players && Some(q) != id ==> r.players[q] == g.players[q]
    ensures |r.market| == |g.market|
  {
    if id.None? || id.value !in g.players then g
    else match FindStock(g.market, name)
      case None => g
      case Some(i) =>
        var p := g.players[id.value];
        if quantity <= 0 || !(name in p.portfolio && p.portfolio[name] != 0) || p.portfolio[name] < quantity then g
        else
          Settle(g, id.value, AfterSell(p, name, g.market[i].price * quantity, quantity), i, quantity)
  }

  /** The conditions under which a buy goes through. */
  predicate CanBuy(g: Game, id: Option<PlayerId>, name: StockName, quantity: int) {
    && id.Some? && id.value in g.players
    && FindStock(g.market, name).Some?
    && quantity > 0
    && g.players[id.value].cash >= PriceOf(g.market, name) * quantity
    && Remaining(g.market, name) >= quantity
  }

  /** The conditions under which a sell goes through. */
  predicate CanSell(g: Game, id: Option<PlayerId>, name: StockName, quantity: int) {
    && id.Some? && id.value in g.players
    && FindStock(g.market, name).Some?
    && quantity > 0
    && HoldingOf(g.players[id.value].portfolio, name) >= quantity
  }

  /** A buy changes the game exactly when the player and the stock are
      known, the quantity is positive, the player can pay and the market
      has the shares; otherwise nothing changes. */
  lemma BuyTakesEffectIff(g: Game, id: Option<PlayerId>, name: StockName, quantity: int)
    ensures Buy(g, id, name, quantity) != g <==> CanBuy(g, id, name, quantity)
  {
    if CanBuy(g, id, name, quantity) {
      var i := FindStock(g.market, name).value;
      assert Buy(g, id, name, quantity).market[i].quantity == g.market[i].quantity - quantity;
    }
  }

  /** A sell changes the game exactly when the player and the stock are
      known, the quantity is positive and the player holds at least that
      many shares; otherwise nothing changes. */
  lemma SellTakesEffectIff(g: Game, id: Option<PlayerId>, name: StockName, quantity: int)
    ensures Sell(g, id, name, quantity) != g <==> CanSell(g, id, name, quantity)
  {
    if CanSell(g, id, name, quantity) {
      var i := FindStock(g.market, name).value;
      assert Sell(g, id, name, quantity).market[i].quantity == g.market[i].quantity + quantity;
    }
  }

  /** A successful buy debits price x quantity, takes the shares from the
      market and adds them to the buyer's holding; nothing else changes. */
  lemma BuyEffect(g: Game, id: Option<PlayerId>, name: StockName, quantity: int)
    requires CanBuy(g, id, name, quantity)
    ensures var g' := Buy(g, id, name, quantity); var p, p' := g.players[id.value], g'.players[id.value];
      && g'.players.Keys == g.players.Keys
      && p'.cash == p.cash - PriceOf(g.market, name) * quantity
      && HoldingOf(p'.portfolio, name) == HoldingOf(p.portfolio, name) + quantity
      && (forall s :: s != name ==> HoldingOf(p'.portfolio, s) == HoldingOf(p.portfolio, s))
      && p'.nickname == p.nickname && p'.id == p.id
      && (forall other :: other in g.players && other != id.value ==> g'.players[other] == g.players[other])
      && Remaining(g'.market, name) == Remaining(g.market, name) - quantity
      && (forall s :: s != name ==> Remaining(g'.market, s) == Remaining(g.market, s))
      && (forall s :: PriceOf(g'.market, s) == PriceOf(g.market, s))
      && g'.order == g.order && g'.settings == g.settings
  {
    var g' := Buy(g, id, name, quantity);
    var i := FindStock(g.market, name).value;
    forall s ensures FindStock(g'.market, s) == FindStock(g.market, s) {
      SameNamesSameFind(g'.market, g.market, s);
    }
  }

  /** A successful sell credits price x quantity, returns the shares to the
      market and lowers the seller's holding, dropping the entry when it
      reaches zero; nothing else changes. */
  lemma SellEffect(g: Game, id: Option<PlayerId>, name: StockName, quantity: int)
    requires CanSell(g, id, name, quantity)
    ensures var g' := Sell(g, id, name, quantity); var p, p' := g.players[id.value], g'.players[id.value];
      && g'.players.Keys == g.players.Keys
      && p'.cash == p.cash + PriceOf(g.market, name) * quantity
      && HoldingOf(p'.portfolio, name) == HoldingOf(p.portfolio, name) - quantity
      && (name in p'.portfolio <==> HoldingOf(p.portfolio, name) != quantity)
      && (forall s :: s != name ==> HoldingOf(p'.portfolio, s) == HoldingOf(p.portfolio, s))
      && p'.nickname == p.nickname && p'.id == p.id
      && (forall other :: other in g.players && other != id.value ==> g'.players[other] == g.players[other])
      && Remaining(g'.market, name) == Remaining(g.market, name) + quantity
      && (forall s :: s != name ==> Remaining(g'.market, s) == Remaining(g.market, s))
      && (forall s :: PriceOf(g'.market, s) == PriceOf(g.market, s))
      && g'.order == g.order && g'.settings == g.settings
  {
    var g' := Sell(g, id, name, quantity);
    forall s ensures FindStock(g'.market, s) == FindStock(g.market, s) {
      SameNamesSameFind(g'.market, g.market, s);
    }
  }

  /** Buying moves shares between the market and a player: for every stock
      the shares held plus the shares offered stay the same. */
  lemma BuyConservesShares(g: Game, id: Option<PlayerId>, name: StockName, quantity: int, s: StockName)
    ensures Outstanding(Buy(g, id, name, quantity), s) == Outstanding(g, s)
  {
    if CanBuy(g, id, name, quantity) {
      BuyEffect(g, id, name, quantity);
      HeldUpdate(g.players, id.value, Buy(g, id, name, quantity).players[id.value], s);
    } else {
      BuyTakesEffectIff(g, id, name, quantity);
    }
  }

  /** Selling moves shares between a player and the market: for every stock
      the shares held plus the shares offered stay the same. */
  lemma SellConservesShares(g: Game, id: Option<PlayerId>, name: StockName, quantity: int, s: StockName)
    ensures Outstanding(Sell(g, id, name, quantity), s) == Outstanding(g, s)
  {
    if CanSell(g, id, name, quantity) {
      SellEffect(g, id, name, quantity);
      HeldUpdate(g.players, id.value, Sell(g, id, name, quantity).players[id.value], s);
    } else {
      SellTakesEffectIff(g, id, name, quantity);
    }
  }

  /** An accepted buy settles at the current price. */
  lemma BuySettles(g: Game, id: Option<PlayerId>, name: StockName, quantity: int)
    requires CanBuy(g, id, name, quantity)
    ensures var i := FindStock(g.market, name).value;
      Buy(g, id, name, quantity)
        == Settle(g, id.value, AfterBuy(g.players[id.value], name, g.market[i].price * quantity, quantity), i, -quantity)
  {
  }

  /** An accepted sell settles at the current price. */
  lemma SellSettles(g: Game, id: Option<PlayerId>, name: StockName, quantity: int)
    requires CanSell(g, id, name, quantity)
    ensures var i := FindStock(g.market, name).value;
      && name in g.players[id.value].portfolio
      && Sell(g, id, name, quantity)
        == Settle(g, id.value, AfterSell(g.players[id.value], name, g.market[i].price * quantity, quantity), i, quantity)
  {
  }

  /** An accepted buy keeps the registry, the holdings and the market's
      shape well formed. */
  lemma BuyAcceptedWellFormed(g: Game, schedule: seq<Stock>, id: Option<PlayerId>, name: StockName, quantity: int)
    requires WellFormed(g, schedule) && CanBuy(g, id, name, quantity)
    ensures WellFormed(Buy(g, id, name, quantity), schedule)
  {
    var i := FindStock(g.market, name).value;
    var p' := AfterBuy(g.players[id.value], name, g.market[i].price * quantity, quantity);
    BuySettles(g, id, name, quantity);
    assert HoldingsPositive(p');
    SettleWellFormed(g, schedule, id.value, p', i, -quantity);
  }

  /** An accepted buy keeps cash and supply non-negative: the cost and the
      supply are both checked. */
  lemma BuyAcceptedSolvent(g: Game, id: Option<PlayerId>, name: StockName, quantity: int)
    requires Solvent(g) && CanBuy(g, id, name, quantity)
    ensures Solvent(Buy(g, id, name, quantity))
  {
    var i := FindStock(g.market, name).value;
    var p' := AfterBuy(g.players[id.value], name, g.market[i].price * quantity, quantity);
    BuySettles(g, id, name, quantity);
    SettleSolvent(g, id.value, p', i, -quantity);
  }

  /** A buy keeps the invariant, whether it is accepted or not. */
  lemma BuyPreservesInv(g: Game, schedule: seq<Stock>, id: Option<PlayerId>, name: StockName, quantity: int)
    requires Inv(g, schedule)
    ensures Inv(Buy(g, id, name, quantity), schedule)
  {
    BuyTakesEffectIff(g, id, name, quantity);
    if CanBuy(g, id, name, quantity) {
      BuyAcceptedWellFormed(g, schedule, id, name, quantity);
      if ScheduleValid(schedule) {
        BuyAcceptedSolvent(g, id, name, quantity);
      }
    }
  }

  lemma ProceedsNonNegative(price: int, quantity: int)
    requires price >= 0 && quantity > 0
    ensures price * quantity >= 0
  {
  }

  /** An accepted sell keeps the registry, the holdings and the market's
      shape well formed; an emptied holding is dropped. */
  lemma SellAcceptedWellFormed(g: Game, schedule: seq<Stock>, id: Option<PlayerId>, name: StockName, quantity: int)
    requires WellFormed(g, schedule) && CanSell(g, id, name, quantity)
    ensures WellFormed(Sell(g, id, name, quantity), schedule)
  {
    var i := FindStock(g.market, name).value;
    SellSettles(g, id, name, quantity);
    var p' := AfterSell(g.players[id.value], name, g.market[i].price * quantity, quantity);
    assert HoldingsPositive(p');
    SettleWellFormed(g, schedule, id.value, p', i, quantity);
  }

  /** An accepted sell keeps cash and supply non-negative when the price it
      pays is non-negative. */
  lemma SellAcceptedSolvent(g: Game, id: Option<PlayerId>, name: StockName, quantity: int)
    requires Solvent(g) && CanSell(g, id, name, quantity) && PriceOf(g.market, name) >= 0
    ensures Solvent(Sell(g, id, name, quantity))
  {
    var i := FindStock(g.market, name).value;
    SellSettles(g, id, name, quantity);
    var p' := AfterSell(g.players[id.value], name, g.market[i].price * quantity, quantity);
    ProceedsNonNegative(g.market[i].price, quantity);
    SettleSolvent(g, id.value, p', i, quantity);
  }

  /** A sell keeps the invariant, whether it is accepted or not. */
  lemma SellPreservesInv(g: Game, schedule: seq<Stock>, id: Option<PlayerId>, name: StockName, quantity: int)
    requires Inv(g, schedule)
    ensures Inv(Sell(g, id, name, quantity), schedule)
  {
    SellTakesEffectIff(g, id, name, quantity);
    if CanSell(g, id, name, quantity) {
      SellAcceptedWellFormed(g, schedule, id, name, quantity);
      if ScheduleValid(schedule) {
        MarketPricesNonNegative(g, schedule, FindStock(g.market, name).value);
        SellAcceptedSolvent(g, id, name, quantity);
      }
    }
  }
}
