/** The leaderboard sent with every broadcast: each player's total value,
    cash plus holdings at current prices, ranked from highest to lowest. */
module Leaderboard {

  import opened Base
  import opened MapSum
  import opened Schedule
  import opened Market
  import opened Game
  import Trading

  datatype Standing = Standing(nickname: string, totalValue: int)

  /** What each holding is worth at the market's current price; a stock the
      market does not list is worth nothing. */
  ghost function Valuation(portfolio: map<StockName, int>, market: seq<MarketEntry>): map<StockName, int> {
    map k | k in portfolio :: portfolio[k] * PriceOf(market, k)
  }

  ghost function HoldingsValue(portfolio: map<StockName, int>, market: seq<MarketEntry>): int {
    Sum(Valuation(portfolio, market))
  }

  /** A player's worth: cash plus the value of every holding. */
  ghost function TotalValue(p: Player, market: seq<MarketEntry>): int {
    p.cash + HoldingsValue(p.portfolio, market)
  }

  function Restrict(m: map<StockName, int>, keys: set<StockName>): map<StockName, int> {
    map k | k in m && k in keys :: m[k]
  }

  /** Adds up the value of a portfolio, one holding at a time, in whatever
      order the keys are visited. */
  method PortfolioValue(portfolio: map<StockName, int>, market: seq<MarketEntry>) returns (v: int)
    ensures v == HoldingsValue(portfolio, market)
  {
    ghost var whole := Valuation(portfolio, market);
    var keys := portfolio.Keys;
    v := 0;
    assert Restrict(whole, keys) == whole;
    while keys != {}
      invariant keys <= portfolio.Keys
      invariant v + Sum(Restrict(whole, keys)) == Sum(whole)
      decreases keys
    {
      var k :| k in keys;
      SumRemove(Restrict(whole, keys), k);
      assert Restrict(whole, keys) - {k} == Restrict(whole, keys - {k});
      v := v + portfolio[k] * PriceOf(market, k);
      keys := keys - {k};
    }
    assert Restrict(whole, keys) == map[];
  }

  /** The players in registration order (the server's enumeration order). */
  function Roster(players: map<PlayerId, Player>, order: seq<PlayerId>): (r: seq<Player>)
    requires forall id :: id in order ==> id in players
    ensures |r| == |order| && forall i :: 0 <= i < |order| ==> r[i] == players[order[i]]
  {
    seq(|order|, i requires 0 <= i < |order| => players[order[i]])
  }

  /** One standing per roster entry, in roster order. */
  ghost function Standings(roster: seq<Player>, market: seq<MarketEntry>): (r: seq<Standing>)
    ensures |r| == |roster|
  {
    seq(|roster|, i requires 0 <= i < |roster| => Standing(roster[i].nickname, TotalValue(roster[i], market)))
  }

  predicate SortedByValue(board: seq<Standing>) {
    forall i, j :: 0 <= i < j < |board| ==> board[i].totalValue >= board[j].totalValue
  }

  lemma ConsSorted(x: Standing, s: seq<Standing>)
    requires SortedByValue(s) && (s == [] || x.totalValue >= s[0].totalValue)
    ensures SortedByValue([x] + s)
  {
    var r := [x] + s;
    forall i, j | 0 <= i < j < |r| ensures r[i].totalValue >= r[j].totalValue {
      if i == 0 && j > 1 {
        assert r[j] == s[j - 1] && s[0].totalValue >= s[j - 1].totalValue;
      }
    }
  }

  /** Puts `x` in front of the first standing that is not worth more. */
  function Insert(x: Standing, sorted: seq<Standing>): (r: seq<Standing>)
    requires SortedByValue(sorted)
    ensures SortedByValue(r) && multiset(r) == multiset(sorted) + multiset{x}
    ensures |r| == |sorted| + 1
    ensures r[0] == x || (sorted != [] && r[0] == sorted[0])
  {
    if sorted == [] || x.totalValue >= sorted[0].totalValue then
      ConsSorted(x, sorted);
      [x] + sorted
    else
      var rest := Insert(x, sorted[1..]);
      assert sorted == [sorted[0]] + sorted[1..];
      ConsSorted(sorted[0], rest);
      [sorted[0]] + rest
  }

  /** The ranking order: by total value, highest first. */
  function SortByValue(s: seq<Standing>): (r: seq<Standing>)
    ensures SortedByValue(r) && multiset(r) == multiset(s)
  {
    if s == [] then []
    else
      assert s == [s[0]] + s[1..];
      Insert(s[0], SortByValue(s[1..]))
  }

  /** The leaderboard of a roster: every player's standing exactly once,
      ranked from the highest total value to the lowest. */
  method ComputeLeaderboard(roster: seq<Player>, market: seq<MarketEntry>) returns (board: seq<Standing>)
    ensures |board| == |roster|
    ensures SortedByValue(board)
    ensures multiset(board) == multiset(Standings(roster, market))
  {
    var entries: seq<Standing> := [];
    var i := 0;
    while i < |roster|
      invariant 0 <= i <= |roster| && |entries| == i
      invariant forall j :: 0 <= j < i ==> entries[j] == Standing(roster[j].nickname, TotalValue(roster[j], market))
    {
      var v := PortfolioValue(roster[i].portfolio, market);
      entries := entries + [Standing(roster[i].nickname, roster[i].cash + v)];
      i := i + 1;
    }
    assert entries == Standings(roster, market);
    board := SortByValue(entries);
    assert |board| == |multiset(board)| == |multiset(entries)| == |entries|;
  }

  // ---------------------------------------------------------------------
  // Properties

  /** A portfolio's value depends on the market only through its prices. */
  lemma ValueDependsOnPrices(portfolio: map<StockName, int>, m1: seq<MarketEntry>, m2: seq<MarketEntry>)
    requires forall s :: PriceOf(m1, s) == PriceOf(m2, s)
    ensures HoldingsValue(portfolio, m1) == HoldingsValue(portfolio, m2)
  {
    assert Valuation(portfolio, m1) == Valuation(portfolio, m2);
  }

  /** With no negative price and no empty holding, a player is worth at
      least the cash held. */
  lemma TotalValueAtLeastCash(p: Player, market: seq<MarketEntry>)
    requires forall s :: PriceOf(market, s) >= 0
    requires forall s :: s in p.portfolio ==> p.portfolio[s] > 0
    ensures TotalValue(p, market) >= p.cash
  {
    var val := Valuation(p.portfolio, market);
    forall k | k in val ensures val[k] >= 0 {
      assert PriceOf(market, k) >= 0;
    }
    SumNonNegative(val);
  }

  /** Setting one holding changes a portfolio's value by the difference,
      at that stock's price. */
  lemma ValueAfterSet(portfolio: map<StockName, int>, market: seq<MarketEntry>, name: StockName, h: int)
    ensures HoldingsValue(portfolio[name := h], market)
         == HoldingsValue(portfolio, market) + (h - HoldingOf(portfolio, name)) * PriceOf(market, name)
  {
    var val := Valuation(portfolio, market);
    var price := PriceOf(market, name);
    var old_h := HoldingOf(portfolio, name);
    var worth, old_worth := h * price, old_h * price;
    assert HoldingsValue(portfolio[name := h], market) == Sum(val) + (worth - old_worth) by {
      assert Valuation(portfolio[name := h], market) == val[name := worth];
      SumUpdate(val, name, worth);
      assert (if name in val then val[name] else 0) == old_worth;
    }
    assert (h - old_h) * price == worth - old_worth by {
      Distribute(h, old_h, price);
    }
  }

  lemma Distribute(a: int, b: int, c: int)
    ensures (a - b) * c == a * c - b * c
  {
  }

  /** Dropping one holding lowers a portfolio's value by its worth. */
  lemma ValueAfterDrop(portfolio: map<StockName, int>, market: seq<MarketEntry>, name: StockName)
    ensures HoldingsValue(portfolio - {name}, market)
         == HoldingsValue(portfolio, market) - HoldingOf(portfolio, name) * PriceOf(market, name)
  {
    assert Valuation(portfolio - {name}, market) == Valuation(portfolio, market) - {name};
    SumDelete(Valuation(portfolio, market), name);
  }

  /** Moving `dq` shares of `name` into a portfolio against `price` each,
      with prices unchanged, leaves the player's total value unchanged. */
  lemma ExchangeKeepsValue(p: Player, p': Player, m: seq<MarketEntry>, m': seq<MarketEntry>, name: StockName, dq: int)
    requires forall s :: PriceOf(m', s) == PriceOf(m, s)
    requires p'.cash == p.cash - PriceOf(m, name) * dq
    requires p'.portfolio == p.portfolio[name := HoldingOf(p.portfolio, name) + dq]
          || (HoldingOf(p.portfolio, name) + dq == 0 && p'.portfolio == p.portfolio - {name})
    ensures TotalValue(p', m') == TotalValue(p, m)
  {
    var price := PriceOf(m, name);
    var h := HoldingOf(p.portfolio, name);
    ValueDependsOnPrices(p'.portfolio, m', m);
    if p'.portfolio == p.portfolio[name := h + dq] {
      ValueAfterSet(p.portfolio, m, name, h + dq);
      assert (h + dq) - h == dq;
    } else {
      ValueAfterDrop(p.portfolio, m, name);
      assert h == -dq;
      Distribute(0, dq, price);
    }
    assert dq * price == price * dq;
  }

  /** Trading happens at the current price, so a buy leaves every player's
      total value, the buyer's included, exactly as it was. */
  lemma BuyKeepsTotalValues(g: Game, id: Option<PlayerId>, name: StockName, quantity: int, who: PlayerId)
    requires who in g.players
    ensures var g' := Trading.Buy(g, id, name, quantity);
      who in g'.players && TotalValue(g'.players[who], g'.market) == TotalValue(g.players[who], g.market)
  {
    var g' := Trading.Buy(g, id, name, quantity);
    if Trading.CanBuy(g, id, name, quantity) {
      Trading.BuyEffect(g, id, name, quantity);
      if who == id.value {
        ExchangeKeepsValue(g.players[who], g'.players[who], g.market, g'.market, name, quantity);
      } else {
        ValueDependsOnPrices(g.players[who].portfolio, g'.market, g.market);
      }
    } else {
      Trading.BuyTakesEffectIff(g, id, name, quantity);
    }
  }

  /** Likewise a sell leaves every player's total value as it was. */
  lemma SellKeepsTotalValues(g: Game, id: Option<PlayerId>, name: StockName, quantity: int, who: PlayerId)
    requires who in g.players
    ensures var g' := Trading.Sell(g, id, name, quantity);
      who in g'.players && TotalValue(g'.players[who], g'.market) == TotalValue(g.players[who], g.market)
  {
    var g' := Trading.Sell(g, id, name, quantity);
    if Trading.CanSell(g, id, name, quantity) {
      Trading.SellEffect(g, id, name, quantity);
      if who == id.value {
        var price := PriceOf(g.market, name);
        assert price * -quantity == -(price * quantity);
        ExchangeKeepsValue(g.players[who], g'.players[who], g.market, g'.market, name, -quantity);
      } else {
        ValueDependsOnPrices(g.players[who].portfolio, g'.market, g.market);
      }
    } else {
      Trading.SellTakesEffectIff(g, id, name, quantity);
    }
  }
}
