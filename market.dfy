/** The market: each stock's live state for the current round, and how it is
    derived from the schedule when a round starts. */
module Market {

  import opened Base
  import opened Schedule

  /** A stock's state in the current round. `previousPrice` is read from the
      schedule without a default, so it may be undefined. */
  datatype MarketEntry = MarketEntry(name: StockName, price: int, previousPrice: Option<int>, quantity: int)

  /** The position of the first occurrence of `name` (JavaScript's `find`). */
  function IndexOf(names: seq<StockName>, name: StockName): (r: Option<nat>)
    ensures r.Some? ==> r.value < |names| && names[r.value] == name
    ensures r.Some? ==> forall j :: 0 <= j < r.value ==> names[j] != name
    ensures r.None? <==> name !in names
  {
    if names == [] then None
    else if names[0] == name then Some(0)
    else match IndexOf(names[1..], name)
      case None => None
      case Some(j) => Some(j + 1)
  }

  function Names(market: seq<MarketEntry>): (names: seq<StockName>)
    ensures |names| == |market|
    ensures forall i :: 0 <= i < |market| ==> names[i] == market[i].name
  {
    seq(|market|, i requires 0 <= i < |market| => market[i].name)
  }

  /** The entry a trade or a valuation for `name` uses: the first one. */
  function FindStock(market: seq<MarketEntry>, name: StockName): Option<nat> {
    IndexOf(Names(market), name)
  }

  /** The current price of `name`, 0 when the market does not list it. */
  function PriceOf(market: seq<MarketEntry>, name: StockName): int {
    match FindStock(market, name)
    case Some(i) => market[i].price
    case None => 0
  }

  /** The shares of `name` the market still offers (0 when not listed). */
  function Remaining(market: seq<MarketEntry>, name: StockName): int {
    match FindStock(market, name)
    case Some(i) => market[i].quantity
    case None => 0
  }

  /** The market lists the schedule's stocks, one entry each, in order. */
  predicate Aligned(market: seq<MarketEntry>, schedule: seq<Stock>) {
    Names(market) == StockNames(schedule)
  }

  /** A market whose names did not change finds every name where it did. */
  lemma SameNamesSameFind(m1: seq<MarketEntry>, m2: seq<MarketEntry>, name: StockName)
    requires |m1| == |m2| && forall i :: 0 <= i < |m1| ==> m1[i].name == m2[i].name
    ensures FindStock(m1, name) == FindStock(m2, name)
  {
    assert Names(m1) == Names(m2);
  }

  /** The quantity a new round starts with: carried from the prior snapshot,
      or the initial quantity when there is no snapshot (start, reset) or
      the snapshot does not list the stock. */
  function CarriedQuantity(prior: seq<MarketEntry>, stock: Stock): (q: int)
    ensures forall j ::
      (0 <= j < |prior| && prior[j].name == stock.name && forall k :: 0 <= k < j ==> prior[k].name != stock.name)
      ==> q == prior[j].quantity
    ensures (forall j :: 0 <= j < |prior| ==> prior[j].name != stock.name) ==> q == stock.initialQuantity
  {
    if prior == [] then stock.initialQuantity
    else match FindStock(prior, stock.name)
      case Some(j) => prior[j].quantity
      case None => stock.initialQuantity
  }

  /** The market of round `round`, rebuilt from the schedule and the prior
      snapshot. */
  function DeriveRound(schedule: seq<Stock>, prior: seq<MarketEntry>, round: int): (m: seq<MarketEntry>)
    ensures Aligned(m, schedule)
  {
    seq(|schedule|, i requires 0 <= i < |schedule| =>
      MarketEntry(
        schedule[i].name,
        PriceOrZero(schedule[i].prices, round - 1),
        if round - 1 > 0 then PriceAt(schedule[i].prices, round - 2) else PriceAt(schedule[i].prices, round - 1),
        CarriedQuantity(prior, schedule[i])))
  }

  /** The prices of a market are those the schedule gives for `round`:
      the current one (0 if undefined) and the one of the round before
      (in round 1, the round's own). */
  ghost predicate PricedFor(market: seq<MarketEntry>, schedule: seq<Stock>, round: int) {
    && |market| == |schedule|
    && forall i :: 0 <= i < |market| ==>
         && market[i].price == PriceOrZero(schedule[i].prices, round - 1)
         && market[i].previousPrice ==
              (if round > 1 then PriceAt(schedule[i].prices, round - 2) else PriceAt(schedule[i].prices, round - 1))
  }

  lemma DeriveRoundPrices(schedule: seq<Stock>, prior: seq<MarketEntry>, round: int)
    ensures PricedFor(DeriveRound(schedule, prior, round), schedule, round)
  {
  }

  /** A round derived from an aligned snapshot carries every stock's
      remaining quantity over unchanged: deriving a round creates and
      destroys no shares. */
  lemma DeriveRoundCarriesQuantities(schedule: seq<Stock>, prior: seq<MarketEntry>, round: int, name: StockName)
    requires Aligned(prior, schedule)
    ensures Remaining(DeriveRound(schedule, prior, round), name) == Remaining(prior, name)
  {
    var m := DeriveRound(schedule, prior, round);
    assert FindStock(m, name) == FindStock(prior, name);
    match FindStock(prior, name)
    case None =>
    case Some(j) =>
      assert prior != [] && schedule[j].name == name;
  }

  /** A round derived with no snapshot (start-up, reset) offers every stock's
      initial quantity. */
  lemma DeriveRoundFromScratch(schedule: seq<Stock>, round: int)
    ensures forall i :: 0 <= i < |schedule| ==>
      DeriveRound(schedule, [], round)[i].quantity == schedule[i].initialQuantity
  {
  }

  /** No two stocks of the schedule share a name. */
  predicate DistinctNames(schedule: seq<Stock>) {
    forall i, j :: 0 <= i < j < |schedule| ==> schedule[i].name != schedule[j].name
  }

  /** Deriving the same round again from its own result changes nothing
      (when company names are distinct: a repeated name would take the
      first entry's quantity). */
  lemma DeriveRoundIdempotent(schedule: seq<Stock>, prior: seq<MarketEntry>, round: int)
    requires DistinctNames(schedule)
    ensures DeriveRound(schedule, DeriveRound(schedule, prior, round), round) == DeriveRound(schedule, prior, round)
  {
    var m := DeriveRound(schedule, prior, round);
    var m2 := DeriveRound(schedule, m, round);
    forall i | 0 <= i < |schedule|
      ensures m2[i] == m[i]
    {
      var name := schedule[i].name;
      assert Names(m)[i] == name;
      var j := FindStock(m, name).value;
      assert j == i by {
        assert m[j].name == name;
      }
    }
  }

  /** Advancing from round r to r+1: every stock whose round-r price is
      defined shows that price as its previous price, and its current price
      is the schedule's round-(r+1) value (0 if undefined). */
  lemma AdvanceShiftsPrices(schedule: seq<Stock>, market: seq<MarketEntry>, round: int, i: int)
    requires round >= 1 && PricedFor(market, schedule, round)
    requires 0 <= i < |schedule| && PriceAt(schedule[i].prices, round - 1).Some?
    ensures DeriveRound(schedule, market, round + 1)[i].previousPrice == Some(market[i].price)
    ensures DeriveRound(schedule, market, round + 1)[i].price == PriceOrZero(schedule[i].prices, round)
  {
  }
}
