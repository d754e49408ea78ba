# Stock trading game server — a Dafny model

This project models the authoritative game-state engine of a multiplayer
stock-trading game server (`server.js`). The server keeps one mutable state:
- a table of players, each with a nickname, cash and a portfolio of shares;
- the market of the current round, with a price, a previous price and a
  remaining quantity per company;
- the game settings: the round number, whether trading is open, and a news line.

Messages are handled one at a time, and each is handled completely before the next.

The model follows the program's structure:

- `Schedule` holds the immutable price schedule loaded at start-up. It also holds
  the loader rule that places a `Round<N>Price` column at array index N−1.
  A header with no digit aborts loading.
  `Decimal` models `/\d+/` and `parseInt` on a header, and the decimal rendering
  of a round number.
- `Market` rebuilds the market for a round from the schedule and the previous
  snapshot (`updateActiveStockDataForRound`).
- `Game` holds the state as a value, the invariant the handlers keep, and the
  share accounting. It also holds `Settle`, the write-back of an accepted trade.
- `Trading` is `handleBuy` / `handleSell`. `Registry` covers registration,
  `delete_player` and the removal on disconnect. `Admin` covers the game master's
  commands. `Router` is the dispatcher: the admin claim, routing by role, the
  trading gate and which messages end in a broadcast.
- `Leaderboard` computes the standings sent with every broadcast.
- `Server.GameServer` is a class whose fields are the server's state.
  Its handler methods update those fields in place. Each handler is proved to
  leave the state equal to the corresponding value-level function, and to keep
  the invariant:
  - `HandleBuy` / `HandleSell` match `Trading.Buy` / `Trading.Sell`;
  - `RegisterPlayer` matches `Registry.Register`;
  - `Disconnect` matches `Registry.Disconnect`;
  - `DeletePlayer` matches `Registry.DeleteByNickname`;
  - `PostNews` matches `Admin.BroadcastNews`;
  - `ToggleTrading`, `AdvanceRound` and `ResetGame` match the `Admin` functions of the same name;
  - `Handle` matches `Router.Step`.

  The helper `UpdateMarketForRound` only matches `Market.DeriveRound` on the
  market and promises no invariant: `AdvanceRound` calls it after raising the
  round, when the market is not yet priced for it. The invariant is
  re-established by its callers, the constructor, `AdvanceRound` and
  `ResetGame`.

The invariant (`Game.Inv`) has two parts.
- It always says:
  - the registration order lists each player id once;
  - every record carries its own id;
  - nicknames are unique;
  - no portfolio keeps an empty or negative holding;
  - the market has one entry per schedule company, in schedule order,
    priced for the current round;
  - the round is at least 1.
- Cash and remaining quantities are non-negative whenever the schedule has no
  negative price or quantity. No handler checks the schedule's numbers: a
  negative price would make a sale debit cash.

## Model

| member | source | states |
|---|---|---|
| Decimal.FirstDigitRun | server.js:41 | The first maximal run of digits in a header, as `/\d+/` matches it; there is none exactly when the header contains no digit |
| Decimal.NatToString | server.js:119 | The round number in the announcement is written in decimal: non-empty, all digits, no leading zero |
| Decimal.DigitsValueOfNatToString | server.js:41 | Reading back the decimal rendering of n with `parseInt` gives n |
| Decimal.FirstDigitRunFinds | server.js:41 | A digit run preceded by non-digits and followed by a non-digit is what the match returns, whole |
| Schedule.ClassifyColumn | server.js:40-41 | A header is a price column exactly when it starts with `Round` and ends with `Price`; such a header with no digit at all is malformed (the match is null and loading aborts); HeaderRoundTrip gives the round it reads |
| Schedule.HeaderRoundTrip | server.js:40-41 | The header `Round<N>Price` is recognised as a price column for round N |
| Schedule.Store | server.js:42 | Writing slot k of a JavaScript array sets that slot, leaves every other slot as it was, and extends the array with holes when k is past the end |
| Schedule.PlaceStep | server.js:39-43 | Handling one more column keeps the array equal to what the columns read so far define |
| Schedule.PlaceRoundPrices | server.js:38-44 | A row's price array: loading fails exactly when some `Round…Price` header has no digit; otherwise the array is as long as the highest round, and slot N−1 holds the value of the last round-N column (undefined if none) |
| Schedule.LoadSchedule | server.js:37-51 | One stock per sheet row, in row order, with the row's company name, initial quantity and price array; start-up fails exactly when some row has a malformed header |
| Market.IndexOf | server.js:61 | The lookup by name finds the first entry with that name, and finds nothing exactly when no entry has it |
| Market.CarriedQuantity | server.js:58-62 | A company the snapshot lists takes the remaining quantity of its first snapshot entry; a company it does not list, or any company when there is no snapshot, takes its initial quantity |
| Market.DeriveRound | server.js:60-69 | The derived market lists every schedule company once, in schedule order |
| Market.DeriveRoundPrices | server.js:65-66 | Each entry's price is the round's price, or 0 where it is undefined; its previous price is the price of the round before, or in round 1 the round's own price |
| Market.DeriveRoundCarriesQuantities | server.js:58-62 | Derived from a snapshot aligned with the schedule, every company keeps its remaining quantity |
| Market.DeriveRoundFromScratch | server.js:58-62 | With no snapshot (start-up, reset), every company offers its initial quantity |
| Market.DeriveRoundIdempotent | server.js:55-69 | When company names are distinct, deriving a round again from its own result changes nothing |
| Market.AdvanceShiftsPrices | server.js:65-66 | Moving from round r to r+1, a company whose round-r price is defined shows that price as its previous price, and the round-(r+1) price as its current one |
| Game.Initial | server.js:13-20 | At start-up there is no player, the round is 1, trading is open and the market lists the schedule's companies in order; InitialValid adds the invariant and the initial quantities |
| Game.InitialValid | server.js:13-20 | The start-up state satisfies the invariant: no player, round 1, trading open, the welcome news, and every company's whole initial quantity on offer |
| Game.MarketPricesNonNegative | server.js:65 | With a schedule free of negative numbers, no current price is negative |
| Game.Settle | server.js:174-176 | Writing back a trade replaces only the trader's record and moves only one market entry's remaining quantity by the given amount; its name, price, every other entry, the order and the settings are unchanged |
| Game.SettleWellFormed | server.js:174-176 | Writing back a trader's record, with the same id and nickname and no empty holding, and moving one market quantity, keeps the game well formed |
| Trading.Buy | server.js:168-179 | A buy never adds or drops a player, changes no other player's record and touches neither the settings nor the market's length; BuyTakesEffectIff, BuyEffect and BuySettles state when it takes effect and the whole new state |
| Trading.BuyTakesEffectIff | server.js:171-173 | A buy changes the game exactly when the player and the company are known, the quantity is positive, the player can pay price × quantity and the market has that many shares |
| Trading.BuyEffect | server.js:172-176 | An accepted buy debits exactly price × quantity, lowers the company's remaining quantity by quantity and raises the buyer's holding by quantity (creating it if absent); nothing else changes |
| Trading.BuyConservesShares | server.js:174-176 | For every company, the shares players hold plus the shares on offer are the same after a buy |
| Trading.BuyAcceptedWellFormed | server.js:174-176 | An accepted buy keeps the registry, the holdings and the market's shape well formed |
| Trading.BuyAcceptedSolvent | server.js:173-175 | An accepted buy leaves cash and remaining quantities non-negative, because both are checked first |
| Trading.BuyPreservesInv | server.js:168-179 | Every buy, accepted or not, keeps the invariant |
| Trading.Sell | server.js:181-191 | A sell never adds or drops a player, changes no other player's record and touches neither the settings nor the market's length; SellTakesEffectIff, SellEffect and SellSettles state when it takes effect and the whole new state |
| Trading.SellTakesEffectIff | server.js:184 | A sell changes the game exactly when the player and the company are known, the quantity is positive and the player holds at least that many shares |
| Trading.SellEffect | server.js:185-189 | An accepted sell credits price × quantity, returns quantity to the market and lowers the holding, removing it exactly when it reaches 0; nothing else changes |
| Trading.SellConservesShares | server.js:186-189 | For every company, the shares players hold plus the shares on offer are the same after a sell |
| Trading.SellAcceptedWellFormed | server.js:188-189 | An accepted sell keeps the game well formed; in particular no zero holding remains |
| Trading.SellAcceptedSolvent | server.js:185-187 | At a non-negative price, an accepted sell leaves cash and remaining quantities non-negative |
| Trading.SellPreservesInv | server.js:181-191 | Every sell, accepted or not, keeps the invariant |
| Registry.Register | server.js:155-163 | Refused exactly when the nickname is taken, and then nothing changes; otherwise the reply carries the drawn id and the record under it has the nickname, the initial cash and no shares; market and settings are untouched. RegisterOutcome adds the rest of the new state |
| Registry.RegisterOutcome | server.js:155-163 | A taken nickname changes nothing and is refused. Otherwise, under a new id, exactly one player is added, with the initial cash, no shares and the next place in the order; every other record is unchanged |
| Registry.RegisterPreservesInv | server.js:155-163 | Registration keeps the invariant, unique nicknames included, even when the id drawn is already in use |
| Registry.AdmitKeepsRegistry | server.js:163 | Writing a record with a free nickname under its id keeps the registry valid |
| Registry.SecondRegistrationRefused | server.js:156-159 | Registering the same nickname twice: the first succeeds, the second is refused and changes nothing, and exactly one player has the nickname |
| Registry.RegisterConservesShares | server.js:163 | A new player holds nothing, so no company's outstanding shares change |
| Registry.FindByNickname | server.js:122 | The player found has the nickname and no player before it in enumeration order has it, as `find` returns the first match; none is found exactly when no player has it |
| Registry.DeleteByNickname | server.js:121-131 | With no player of that nickname nothing changes; otherwise the player removed is one with the nickname, its record is gone from the table and the order, and market and settings are untouched |
| Registry.DeleteOutcome | server.js:121-131 | `delete_player` removes exactly the record of the player with the nickname, if there is one, after which nobody has it; otherwise nothing changes |
| Registry.Disconnect | server.js:89-96 | After a close the table holds exactly the records it held, less the connection's own player unless the connection is the admin's; records kept are unchanged; market and settings are untouched |
| Registry.RemovePreservesInv | server.js:89-96 | Removing a player, on disconnect or by deletion, keeps the invariant |
| Registry.RemoveDropsShares | server.js:94 | A removed player's shares leave the game: they are not returned to the market |
| Admin.BroadcastNews | server.js:110 | The news line becomes the message verbatim; round, trading flag, players and market are unchanged |
| Admin.ToggleTrading | server.js:111-114 | The trading flag flips; the round, players and market are unchanged |
| Admin.SettingsOnly | server.js:110-114 | News replaces the news line verbatim; the toggle flips the trading flag, twice restores it; neither touches players, market or round |
| Admin.SettingsChangeKeepsInv | server.js:110-114 | Posting news and toggling trading keep the invariant |
| Admin.AdvanceRound | server.js:115-120 | The round goes up by one and trading opens; the players are kept and the market lists the schedule's companies in order |
| Admin.AdvanceOutcome | server.js:115-120 | `advance_round` increments the round, opens trading, keeps every player record, conserves every company's outstanding shares and shifts the prices to the new round |
| Admin.AdvanceKeepsInv | server.js:115-120 | Advancing the round keeps the invariant |
| Admin.ResetGame | server.js:143-149 | No player remains, the round is 1, trading is open and the market lists the schedule's companies in order |
| Admin.ResetOutcome | server.js:143-149 | `reset_game` leaves no player, round 1, trading open, and every company's whole initial quantity on offer |
| Admin.ResetKeepsInv | server.js:143-149 | The state after a reset satisfies the invariant |
| Admin.AdminPreservesInv | server.js:108-153 | Every admin command keeps the invariant: `broadcast_news`, `toggle_trading`, `advance_round`, `delete_player` and `reset_game` |
| Router.PlayerStep | server.js:100-106 | A player message never changes the settings or the admin flag and never removes a player; while trading is closed only a registration can change the game |
| Router.AdminStep | server.js:108-153 | Every admin message ends in a broadcast and keeps the connection; no admin message adds a player |
| Router.Step | server.js:76-88 | A connection becomes the admin exactly when it is one already or its claim matches the secret, and the claim changes no game state; a player connection never changes the settings or drops a player |
| Router.TradingGate | server.js:103-104 | While trading is closed no buy or sell changes the game, and no trade changes the settings |
| Router.BroadcastPolicy | server.js:100-153 | Every admin message is broadcast. A player's trade or unrecognised message is broadcast exactly when it changed the game |
| Router.StepPreservesInv | server.js:76-88 | Every message, from any connection, keeps the invariant |
| Router.StepConservesShares | server.js:100-120 | Every message except `delete_player` and `reset_game` conserves each company's outstanding shares; a registration is covered when its id is new |
| Router.RoundMonotone | server.js:108-150 | Only `advance_round` (by one) and `reset_game` (back to 1) change the round |
| Leaderboard.PortfolioValue | server.js:195-199 | The loop over a portfolio adds up holding × current price for every holding, counting a company the market does not list as worth nothing |
| Leaderboard.SortByValue | server.js:201 | The ranking is a permutation of its input, sorted by total value from highest to lowest |
| Leaderboard.ComputeLeaderboard | server.js:194-201 | One standing per player, with total value cash + Σ holding × price, sorted by value from highest to lowest |
| Leaderboard.TotalValueAtLeastCash | server.js:200 | With no negative price and no empty holding, a player is worth at least their cash |
| Leaderboard.ValueDependsOnPrices | server.js:197-198 | A portfolio's value depends on the market only through its prices |
| Leaderboard.BuyKeepsTotalValues | server.js:172-176 | Trading at the current price: after a buy every player's total value, the buyer's included, is what it was |
| Leaderboard.SellKeepsTotalValues | server.js:185-189 | Likewise after a sell |
| Server.GameServer.constructor | server.js:13-20 | The server starts in the initial state, derived for round 1 with no snapshot, and valid |
| Server.GameServer.UpdateMarketForRound | server.js:55-71 | Replaces the market with the round derived from the current snapshot and changes nothing else; the invariant is left to its callers |
| Server.GameServer.HandleBuy | server.js:168-179 | In place, the state becomes the buy's outcome; it reports a broadcast exactly when the buy is accepted; the invariant holds |
| Server.GameServer.HandleSell | server.js:181-191 | In place, the state becomes the sell's outcome; it reports a broadcast exactly when the sell is accepted; the invariant holds |
| Server.GameServer.RegisterPlayer | server.js:155-166 | In place, the registry becomes the registration's outcome, with the reply sent; the invariant holds |
| Server.GameServer.Disconnect | server.js:89-96 | An admin connection changes nothing; a registered player's record is deleted and a broadcast follows |
| Server.GameServer.PostNews | server.js:110 | The news line becomes the message |
| Server.GameServer.ToggleTrading | server.js:111-114 | The trading flag flips and the news announces the new state |
| Server.GameServer.AdvanceRound | server.js:115-120 | The round advances, the market is rebuilt from the current snapshot, trading opens, the round is announced |
| Server.GameServer.DeletePlayer | server.js:121-132 | Deletes the first player with the nickname and returns the id to kick |
| Server.GameServer.ResetGame | server.js:134-150 | The registry is emptied, the snapshot is discarded, round 1 is derived afresh and the restart news is set |
| Server.GameServer.Handle | server.js:76-88 | One message, routed by the connection's role, leaves the state, the connection and the notices as the routing function says, and keeps the invariant |
| Server.GameServer.Leaderboard | server.js:194-201 | The leaderboard of the current state has one standing per registered player, sorted, and is a permutation of the players' standings |

## Left out

- The HTTP server, static file serving and the WebSocket transport are I/O. The model does not cover connections, `wss.clients`, `readyState`, `send` or `close`. Outbound messages appear as abstract notices (`Router.Notice`). The full-state broadcast is the single notice `Update`. `kicked` is addressed by player id; `game_over` goes to every player connection.
- A connection that is closed after a refused registration, a kick or a reset reaches the model as a separate `Disconnect` step.
- Reading `companies.xlsx` from the file system (the XLSX library) and `process.exit` are not modelled. The loader works on rows already parsed into (header, value) cells. A failed load is `None`.
- JSON parsing and JavaScript `Number()` coercion are not modelled. Quantities and prices are mathematical integers, so string or fractional quantities, `NaN` and floating-point rounding are outside the model. Cells of the sheet are integers too.
- The admin secret comparison becomes a boolean carried by `ClaimAdmin`. The `adminWs` variable is not modelled; the connection's admin flag decides the routing.
- Player ids come from the clock (`Date.now()`). Here they are a parameter, `freshId`. An id that is already in use overwrites that record and keeps its place in the enumeration order, as the table write does.
- The enumeration order of the player table is the registration order. This holds because clock-based ids are not array-index keys. Under the invariant at most one player has a given nickname, so the order does not change which player `delete_player` removes. It decides only the leaderboard's tie order.
- Logging to the console is not modelled.
- `maxPlayers` (20) is declared in the settings but no handler checks it, so the model has no player limit.
- Message types that no handler recognises are `Router.Unrecognised`. A player's unrecognised message does nothing. An admin's still ends in a broadcast.
- Leaderboard.SortByValue: the contract states sortedness and permutation, but not that players with equal value keep their enumeration order. The JavaScript sort is stable, and the insertion this model uses also keeps equal standings in order, but that is not proved.
- Leaderboard.PortfolioValue: the total is stated as a sum over the portfolio. It does not depend on the order in which keys are visited; the model does not fix an order.
- Market.DeriveRoundIdempotent: requires distinct company names. With a repeated name, the lookup takes the first entry's quantity for both companies, so re-deriving is not idempotent.
- Sums over players and over portfolios (`MapSum.Sum`, the share totals and portfolio values) are ghost specifications. The server computes no share total.
