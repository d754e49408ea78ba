/** The game master's commands over the session settings and the market. */
module Admin {

  import opened Base
  import opened Decimal
  import opened Schedule
  import opened Market
  import opened Game
  import Registry

  /** `broadcast_news`: the message becomes the news line verbatim. */
  function BroadcastNews(g: Game, message: string): (r: Game)
    ensures r.settings.news == message
    ensures r.settings.round == g.settings.round && r.settings.tradingOpen == g.settings.tradingOpen
    ensures r.players == g.players && r.order == g.order && r.market == g.market
  {
    g.(settings := g.settings.(news := message))
  }

  function TradingNews(open: bool): string {
    "--- Trading is now " + (if open then "OPEN" else "CLOSED") + " ---"
  }

  /** `toggle_trading`: flips the trading window and announces its state. */
  function ToggleTrading(g: Game): (r: Game)
    ensures r.settings.tradingOpen == !g.settings.tradingOpen && r.settings.round == g.settings.round
    ensures r.players == g.players && r.order == g.order && r.market == g.market
  {
    var open := !g.settings.tradingOpen;
    g.(settings := g.settings.(tradingOpen := open, news := TradingNews(open)))
  }

  function RoundNews(round: nat): string {
    "--- Round " + NatToString(round) + " has begun! ---"
  }

  /** `advance_round`: the next round's market is derived from the current
      one, trading opens and the round is announced. */
  function AdvanceRound(g: Game, schedule: seq<Stock>): (r: Game)
    ensures r.settings.round == g.settings.round + 1 && r.settings.tradingOpen
    ensures r.players == g.players && r.order == g.order && Aligned(r.market, schedule)
  {
    var round := g.settings.round + 1;
    g.(market := DeriveRound(schedule, g.market, round),
       settings := Settings(round, true, RoundNews(round)))
  }

  const RestartNews: string := "Welcome! A new game is starting."

  /** `reset_game`: every player is dropped, and round 1 is derived afresh
      from the schedule, so every stock offers its initial quantity again. */
  function ResetGame(g: Game, schedule: seq<Stock>): (r: Game)
    ensures r.players == map[] && r.order == []
    ensures r.settings.round == 1 && r.settings.tradingOpen && Aligned(r.market, schedule)
  {
    Game(map[], [], DeriveRound(schedule, [], 1), Settings(1, true, RestartNews))
  }

  /** The initial quantity the schedule gives `name` (its first stock of
      that name), 0 for a name it does not list. */
  function InitialQuantityOf(schedule: seq<Stock>, name: StockName): int {
    match IndexOf(StockNames(schedule), name)
    case Some(i) => schedule[i].initialQuantity
    case None => 0
  }

  // ---------------------------------------------------------------------
  // Properties

  /** News and the trading toggle touch only the settings; toggling twice
      restores the trading window. */
  lemma SettingsOnly(g: Game, message: string)
    ensures BroadcastNews(g, message).settings.news == message
    ensures ToggleTrading(g).settings.tradingOpen == !g.settings.tradingOpen
    ensures ToggleTrading(ToggleTrading(g)).settings.tradingOpen == g.settings.tradingOpen
    ensures var n, t := BroadcastNews(g, message), ToggleTrading(g);
      && n.players == t.players == g.players && n.order == t.order == g.order
      && n.market == t.market == g.market
      && n.settings.round == t.settings.round == g.settings.round
      && n.settings.tradingOpen == g.settings.tradingOpen
  {
  }

  /** Advancing a round moves to the next round number with trading open,
      keeps every player's record, carries every stock's remaining quantity
      over, and shifts the prices: the previous price of a stock whose price
      was defined is that price. */
  lemma AdvanceOutcome(g: Game, schedule: seq<Stock>)
    requires Inv(g, schedule)
    ensures var g' := AdvanceRound(g, schedule);
      && g'.settings.round == g.settings.round + 1 && g'.settings.tradingOpen
      && g'.players == g.players && g'.order == g.order
      && (forall s :: Outstanding(g', s) == Outstanding(g, s))
      && (forall i :: 0 <= i < |schedule| && PriceAt(schedule[i].prices, g.settings.round - 1).Some? ==>
            g'.market[i].previousPrice == Some(g.market[i].price))
      && (forall i :: 0 <= i < |schedule| ==> g'.market[i].price == PriceOrZero(schedule[i].prices, g.settings.round))
  {
    var g' := AdvanceRound(g, schedule);
    forall s ensures Outstanding(g', s) == Outstanding(g, s) {
      DeriveRoundCarriesQuantities(schedule, g.market, g.settings.round + 1, s);
    }
    forall i | 0 <= i < |schedule| && PriceAt(schedule[i].prices, g.settings.round - 1).Some?
      ensures g'.market[i].previousPrice == Some(g.market[i].price)
    {
      AdvanceShiftsPrices(schedule, g.market, g.settings.round, i);
    }
  }

  /** A reset leaves no player, round 1, trading open, and every stock of
      the schedule back at its initial quantity, all of it on offer. */
  lemma ResetOutcome(g: Game, schedule: seq<Stock>)
    ensures var g' := ResetGame(g, schedule);
      && g'.players == map[] && g'.order == []
      && g'.settings.round == 1 && g'.settings.tradingOpen
      && (forall i :: 0 <= i < |schedule| ==> g'.market[i].quantity == schedule[i].initialQuantity)
      && (forall s :: Outstanding(g', s) == InitialQuantityOf(schedule, s))
  {
    var g' := ResetGame(g, schedule);
    DeriveRoundFromScratch(schedule, 1);
    forall s ensures Outstanding(g', s) == InitialQuantityOf(schedule, s) {
      assert HeldMap(g'.players, s) == map[];
      assert Names(g'.market) == StockNames(schedule);
    }
  }

  /** Posting news and toggling trading keep the invariant: neither touches
      the registry, the market or the round. */
  lemma SettingsChangeKeepsInv(g: Game, schedule: seq<Stock>, message: string)
    requires Inv(g, schedule)
    ensures Inv(BroadcastNews(g, message), schedule)
    ensures Inv(ToggleTrading(g), schedule)
  {
  }

  /** Advancing keeps the invariant: the new market is priced for the new
      round and carries over non-negative quantities. */
  lemma AdvanceKeepsInv(g: Game, schedule: seq<Stock>)
    requires Inv(g, schedule)
    ensures Inv(AdvanceRound(g, schedule), schedule)
  {
    var round := g.settings.round + 1;
    DeriveRoundPrices(schedule, g.market, round);
    if ScheduleValid(schedule) {
      var m := DeriveRound(schedule, g.market, round);
      forall i | 0 <= i < |m| ensures m[i].quantity >= 0 {
        var j := FindStock(g.market, schedule[i].name).value;
        assert g.market[i].name == schedule[i].name;
      }
    }
  }

  /** A reset yields a valid game: no player, and round 1 priced afresh. */
  lemma ResetKeepsInv(g: Game, schedule: seq<Stock>)
    ensures Inv(ResetGame(g, schedule), schedule)
  {
    var r := ResetGame(g, schedule);
    DeriveRoundPrices(schedule, [], 1);
    if ScheduleValid(schedule) {
      forall i | 0 <= i < |r.market| ensures r.market[i].quantity >= 0 {
        assert schedule[i] in schedule;
      }
    }
  }

  /** Every admin command keeps the invariant: news, the toggle, advancing
      the round, `delete_player` and the reset. */
  lemma AdminPreservesInv(g: Game, schedule: seq<Stock>, message: string, nickname: string)
    requires Inv(g, schedule)
    ensures Inv(BroadcastNews(g, message), schedule)
    ensures Inv(ToggleTrading(g), schedule)
    ensures Inv(AdvanceRound(g, schedule), schedule)
    ensures Inv(Registry.DeleteByNickname(g, nickname).0, schedule)
    ensures Inv(ResetGame(g, schedule), schedule)
  {
    SettingsChangeKeepsInv(g, schedule, message);
    AdvanceKeepsInv(g, schedule);
    ResetKeepsInv(g, schedule);
    match Registry.FindByNickname(g.players, g.order, nickname)
    case None =>
    case Some(id) => Registry.RemovePreservesInv(g, schedule, id);
  }
}
