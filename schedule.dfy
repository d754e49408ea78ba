/** The immutable price schedule: one definition per company, read once at
    start-up, and the rule that places a `Round<N>Price` column at index N-1. */
module Schedule {

  import opened Base
  import opened Decimal

  /** A company as the schedule defines it. `prices` is sparse: index r-1
      holds the price of round r, `None` where the sheet has no value. */
  datatype Stock = Stock(name: StockName, initialQuantity: int, prices: seq<Option<int>>)

  /** Reading a sparse price array: outside the array, or in a hole, the
      value is undefined. */
  function PriceAt(prices: seq<Option<int>>, i: int): (r: Option<int>)
    ensures r.Some? ==> 0 <= i < |prices| && prices[i] == r
    ensures !(0 <= i < |prices|) ==> r.None?
  {
    if 0 <= i < |prices| then prices[i] else None
  }

  /** A price, or 0 where the schedule defines none (`prices[i] || 0`). */
  function PriceOrZero(prices: seq<Option<int>>, i: int): int {
    match PriceAt(prices, i)
    case Some(p) => p
    case None => 0
  }

  /** The data a game can rely on: no negative price and no negative supply. */
  ghost predicate ScheduleValid(schedule: seq<Stock>) {
    forall s :: s in schedule ==>
      s.initialQuantity >= 0 && forall i :: 0 <= i < |s.prices| && s.prices[i].Some? ==> s.prices[i].value >= 0
  }

  /** The names of the schedule's stocks, in schedule order. `Market.Names`
      is the same projection over market entries, a different element type. */
  function StockNames(schedule: seq<Stock>): (names: seq<StockName>)
    ensures |names| == |schedule|
    ensures forall i :: 0 <= i < |schedule| ==> names[i] == schedule[i].name
  {
    seq(|schedule|, i requires 0 <= i < |schedule| => schedule[i].name)
  }

  // ---------------------------------------------------------------------
  // Loading a sheet row

  /** What a column header of the sheet means to the loader. */
  datatype Column =
    | PriceColumn(round: nat)  // `Round<N>Price`, with N read from its first run of digits
    | OtherColumn              // any other header; ignored
    | MalformedColumn          // `Round...Price` with no digit in it: the loader throws

  predicate IsRoundPriceHeader(key: string) {
    |key| >= 5 && key[..5] == "Round" && key[|key| - 5..] == "Price"
  }

  function ClassifyColumn(key: string): (c: Column)
    ensures c.OtherColumn? <==> !IsRoundPriceHeader(key)
    ensures c.MalformedColumn? <==> IsRoundPriceHeader(key) && forall k :: 0 <= k < |key| ==> !IsDigit(key[k])
  {
    if !IsRoundPriceHeader(key) then OtherColumn
    else
      match FirstDigitRun(key)
      case None => MalformedColumn
      case Some(ds) => PriceColumn(DigitsValue(ds))
  }

  /** The header written for round `n` is read back as round `n`. */
  lemma HeaderRoundTrip(n: nat)
    ensures ClassifyColumn("Round" + NatToString(n) + "Price") == PriceColumn(n)
  {
    var key := "Round" + NatToString(n) + "Price";
    assert key[..5] == "Round";
    assert key[|key| - 5..] == "Price";
    FirstDigitRunFinds("Round", NatToString(n), "Price");
    DigitsValueOfNatToString(n);
  }

  /** The price a row gives to round `n`: that of its last column read as
      round `n` (a later column overwrites an earlier one). */
  function LastPriceFor(cells: seq<(string, int)>, n: nat): Option<int> {
    if cells == [] then None
    else if ClassifyColumn(cells[|cells| - 1].0) == PriceColumn(n) then Some(cells[|cells| - 1].1)
    else LastPriceFor(cells[..|cells| - 1], n)
  }

  /** The length of the price array the row produces: its highest round. */
  function Extent(cells: seq<(string, int)>): nat {
    if cells == [] then 0
    else
      var before := Extent(cells[..|cells| - 1]);
      match ClassifyColumn(cells[|cells| - 1].0)
      case PriceColumn(n) => if n > before then n else before
      case _ => before
  }

  /** `prices[k] = v` on a JavaScript array: writing past the end extends it
      with holes. */
  function Store(prices: seq<Option<int>>, k: nat, v: int): (r: seq<Option<int>>)
    ensures |r| == if k < |prices| then |prices| else k + 1
    ensures forall i :: 0 <= i < |r| ==> r[i] == (if i == k then Some(v) else PriceAt(prices, i))
  {
    if k < |prices| then prices[k := Some(v)]
    else prices + seq(k - |prices|, _ => None) + [Some(v)]
  }

  /** The array after handling one cell: a round-`n` column writes slot
      `n - 1`; any other column leaves the array as it is. */
  function PlaceCell(prices: seq<Option<int>>, cell: (string, int)): seq<Option<int>> {
    var c := ClassifyColumn(cell.0);
    if c.PriceColumn? && c.round >= 1 then Store(prices, c.round - 1, cell.1) else prices
  }

  /** `prices` is the array that `cells` produce: as long as their highest
      round, with each round's last value at its slot. */
  ghost predicate Records(prices: seq<Option<int>>, cells: seq<(string, int)>) {
    && |prices| == Extent(cells)
    && forall n: nat :: n >= 1 ==> PriceAt(prices, n - 1) == LastPriceFor(cells, n)
  }

  /** One step of `PlaceRoundPrices`: handling `cell` extends what the
      array records from the cells before it to the cells up to it. */
  lemma PlaceStep(prices: seq<Option<int>>, before: seq<(string, int)>, cell: (string, int))
    requires ClassifyColumn(cell.0) != MalformedColumn
    requires Records(prices, before)
    ensures Records(PlaceCell(prices, cell), before + [cell])
  {
    var ext := before + [cell];
    assert ext[..|ext| - 1] == before && ext[|ext| - 1] == cell;
    var c := ClassifyColumn(cell.0);
    assert forall n: nat :: LastPriceFor(ext, n) == if c == PriceColumn(n) then Some(cell.1) else LastPriceFor(before, n);
    if c.PriceColumn? && c.round >= 1 {
      var next := Store(prices, c.round - 1, cell.1);
      forall n: nat | n >= 1 ensures PriceAt(next, n - 1) == LastPriceFor(ext, n) {
        if n != c.round {
          assert PriceAt(next, n - 1) == PriceAt(prices, n - 1);
        }
      }
    }
  }

  /** Builds one row's price array from its cells, in column order; `None`
      when a header is malformed, which aborts loading. A `Round0Price`
      column would be stored at index -1, which is not an array slot, so it
      is dropped. */
  method PlaceRoundPrices(cells: seq<(string, int)>) returns (r: Option<seq<Option<int>>>)
    ensures r.None? <==> exists j :: 0 <= j < |cells| && ClassifyColumn(cells[j].0) == MalformedColumn
    ensures r.Some? ==> Records(r.value, cells)
  {
    var prices: seq<Option<int>> := [];
    var i := 0;
    while i < |cells|
      invariant 0 <= i <= |cells|
      invariant forall j :: 0 <= j < i ==> ClassifyColumn(cells[j].0) != MalformedColumn
      invariant Records(prices, cells[..i])
    {
      var column := ClassifyColumn(cells[i].0);
      if column == MalformedColumn {
        return None;
      }
      PlaceStep(prices, cells[..i], cells[i]);
      assert cells[..i + 1] == cells[..i] + [cells[i]];
      prices := PlaceCell(prices, cells[i]);
      i := i + 1;
    }
    assert cells[..i] == cells;
    r := Some(prices);
  }

  /** One sheet row: the company name, the initial quantity, and all of the
      row's (header, value) cells in column order. */
  datatype Row = Row(companyName: string, initialQuantity: int, cells: seq<(string, int)>)

  ghost predicate RowMalformed(row: Row) {
    exists j :: 0 <= j < |row.cells| && ClassifyColumn(row.cells[j].0) == MalformedColumn
  }

  /** Turns every row into a stock definition; `None` (start-up fails) when
      any row has a malformed header. */
  method LoadSchedule(rows: seq<Row>) returns (r: Option<seq<Stock>>)
    ensures r.None? <==> exists k :: 0 <= k < |rows| && RowMalformed(rows[k])
    ensures r.Some? ==> |r.value| == |rows|
    ensures r.Some? ==> forall k :: 0 <= k < |rows| ==>
      && r.value[k].name == rows[k].companyName
      && r.value[k].initialQuantity == rows[k].initialQuantity
      && Records(r.value[k].prices, rows[k].cells)
  {
    var stocks: seq<Stock> := [];
    var k := 0;
    while k < |rows|
      invariant 0 <= k <= |rows| && |stocks| == k
      invariant forall m :: 0 <= m < k ==> !RowMalformed(rows[m])
      invariant forall m :: 0 <= m < k ==>
        && stocks[m].name == rows[m].companyName
        && stocks[m].initialQuantity == rows[m].initialQuantity
        && Records(stocks[m].prices, rows[m].cells)
    {
      var prices := PlaceRoundPrices(rows[k].cells);
      if prices.None? {
        return None;
      }
      stocks := stocks + [Stock(rows[k].companyName, rows[k].initialQuantity, prices.value)];
      k := k + 1;
    }
    r := Some(stocks);
  }
}
