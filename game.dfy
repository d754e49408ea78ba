/** The server's whole mutable state, as a value: the player registry, the
    market and the session settings, with the invariants the game keeps. */
module Game {

  import opened Base
  import opened MapSum
  import opened Schedule
  import opened Market

  /** The cash every new player starts with. */
  const InitialCash: int := 1000000

  /** A registered player; `portfolio` maps a stock name to the shares held. */
  datatype Player = Player(id: PlayerId, nickname: string, cash: int, portfolio: map<StockName, int>)

  /** Round number, whether trades are accepted, and the news line. */
  datatype Settings = Settings(round: nat, tradingOpen: bool, news: string)

  /** `order` lists the registered ids in registration order, which is the
      order in which the server enumerates its player table. */
  datatype Game = Game(players: map<PlayerId, Player>, order: seq<PlayerId>, market: seq<MarketEntry>, settings: Settings)

  /** The shares of `name` in a portfolio; no entry means none. */
  function HoldingOf(portfolio: map<StockName, int>, name: StockName): int {
    if name in portfolio then portfolio[name] else 0
  }

  /** Some registered player already uses `nickname`. */
  predicate NicknameTaken(players: map<PlayerId, Player>, nickname: string) {
    exists id :: id in players && players[id].nickname == nickname
  }

  /** The ids of the players called `nickname`. */
  ghost function Holders(players: map<PlayerId, Player>, nickname: string): set<PlayerId> {
    set id | id in players && players[id].nickname == nickname
  }

  // ---------------------------------------------------------------------
  // Invariants

  ghost predicate NicknamesUnique(players: map<PlayerId, Player>) {
    forall a, b :: a in players && b in players && players[a].nickname == players[b].nickname ==> a == b
  }

  /** Registration order lists every registered id exactly once, and each
      record carries its own id. */
  ghost predicate RegistryValid(players: map<PlayerId, Player>, order: seq<PlayerId>) {
    && (forall i, j :: 0 <= i < j < |order| ==> order[i] != order[j])
    && (forall id :: id in order <==> id in players)
    && (forall id :: id in players ==> players[id].id == id)
    && NicknamesUnique(players)
  }

  /** The portfolio keeps no empty (or negative) entry. */
  ghost predicate HoldingsPositive(p: Player) {
    forall s :: s in p.portfolio ==> p.portfolio[s] > 0
  }

  /** What every handler keeps, whatever numbers the schedule holds. */
  ghost predicate WellFormed(g: Game, schedule: seq<Stock>) {
    && RegistryValid(g.players, g.order)
    && (forall id :: id in g.players ==> HoldingsPositive(g.players[id]))
    && Aligned(g.market, schedule)
    && PricedFor(g.market, schedule, g.settings.round)
    && g.settings.round >= 1
  }

  /** No player's cash and no stock's remaining quantity is negative. */
  ghost predicate Solvent(g: Game) {
    && (forall id :: id in g.players ==> g.players[id].cash >= 0)
    && (forall i :: 0 <= i < |g.market| ==> g.market[i].quantity >= 0)
  }

  /** The game's invariant: always well formed, and solvent whenever the
      schedule has no negative price or quantity (the handlers never check
      the schedule's numbers; with a negative price a sale debits cash). */
  ghost predicate Inv(g: Game, schedule: seq<Stock>) {
    WellFormed(g, schedule) && (ScheduleValid(schedule) ==> Solvent(g))
  }

  // ---------------------------------------------------------------------
  // Share accounting

  /** Each player's holding of `name`. */
  ghost function HeldMap(players: map<PlayerId, Player>, name: StockName): map<PlayerId, int> {
    map id | id in players :: HoldingOf(players[id].portfolio, name)
  }

  /** The shares of `name` that players hold, summed over the registry. */
  ghost function Held(players: map<PlayerId, Player>, name: StockName): int {
    Sum(HeldMap(players, name))
  }

  /** All shares of `name` in the game: held by players plus still offered. */
  ghost function Outstanding(g: Game, name: StockName): int {
    Held(g.players, name) + Remaining(g.market, name)
  }

  /** Changing one player's record changes the shares held by the
      difference of that player's holdings. */
  lemma HeldUpdate(players: map<PlayerId, Player>, id: PlayerId, p: Player, name: StockName)
    requires id in players
    ensures Held(players[id := p], name) == Held(players, name) - HoldingOf(players[id].portfolio, name) + HoldingOf(p.portfolio, name)
  {
    assert HeldMap(players[id := p], name) == HeldMap(players, name)[id := HoldingOf(p.portfolio, name)];
    SumUpdate(HeldMap(players, name), id, HoldingOf(p.portfolio, name));
  }

  /** Adding a player with an empty portfolio changes no holding total. */
  lemma HeldAddEmpty(players: map<PlayerId, Player>, id: PlayerId, p: Player, name: StockName)
    requires id !in players && p.portfolio == map[]
    ensures Held(players[id := p], name) == Held(players, name)
  {
    assert HeldMap(players[id := p], name) == HeldMap(players, name)[id := 0];
    SumUpdate(HeldMap(players, name), id, 0);
  }

  /** Removing a player removes that player's holding from the total. */
  lemma HeldRemove(players: map<PlayerId, Player>, id: PlayerId, name: StockName)
    requires id in players
    ensures Held(players - {id}, name) == Held(players, name) - HoldingOf(players[id].portfolio, name)
  {
    assert HeldMap(players - {id}, name) == HeldMap(players, name) - {id};
    SumDelete(HeldMap(players, name), id);
  }

  // ---------------------------------------------------------------------
  // Settling a trade

  /** Replaces player `pid`'s record with `p` and moves the remaining
      quantity of market entry `i` by `delta`. */
  function Settle(g: Game, pid: PlayerId, p: Player, i: nat, delta: int): (r: Game)
    requires i < |g.market|
    ensures r.order == g.order && r.settings == g.settings
    ensures r.players.Keys == g.players.Keys + {pid} && r.players[pid] == p
    ensures forall q :: q in g.players && q != pid ==> r.players[q] == g.players[q]
    ensures |r.market| == |g.market| && r.market[i].quantity == g.market[i].quantity + delta
    ensures r.market[i].name == g.market[i].name && r.market[i].price == g.market[i].price
    ensures forall k :: 0 <= k < |g.market| && k != i ==> r.market[k] == g.market[k]
  {
    g.(players := g.players[pid := p],
       market := g.market[i := g.market[i].(quantity := g.market[i].quantity + delta)])
  }

  /** Settling keeps the game well formed when the player keeps its id and
      nickname and holds no empty entry. */
  lemma SettleWellFormed(g: Game, schedule: seq<Stock>, pid: PlayerId, p: Player, i: nat, delta: int)
    requires WellFormed(g, schedule) && pid in g.players && i < |g.market|
    requires p.id == pid && p.nickname == g.players[pid].nickname && HoldingsPositive(p)
    ensures WellFormed(Settle(g, pid, p, i, delta), schedule)
  {
    var g' := Settle(g, pid, p, i, delta);
    assert Names(g'.market) == Names(g.market);
    ReplaceKeepsRegistry(g.players, g.order, pid, p);
  }

  /** Rewriting a record under its own id with its own nickname keeps the
      registry valid. */
  lemma ReplaceKeepsRegistry(players: map<PlayerId, Player>, order: seq<PlayerId>, pid: PlayerId, p: Player)
    requires RegistryValid(players, order) && pid in players
    requires p.id == pid && p.nickname == players[pid].nickname
    ensures RegistryValid(players[pid := p], order)
  {
    var players' := players[pid := p];
    assert forall a :: a in players' ==> players'[a].nickname == players[a].nickname;
  }

  /** Settling keeps the game solvent when neither the player's cash nor
      the entry's quantity ends up negative. */
  lemma SettleSolvent(g: Game, pid: PlayerId, p: Player, i: nat, delta: int)
    requires Solvent(g) && i < |g.market|
    requires p.cash >= 0 && g.market[i].quantity + delta >= 0
    ensures Solvent(Settle(g, pid, p, i, delta))
  {
  }

  // ---------------------------------------------------------------------
  // Start-up

  const WelcomeNews: string := "Welcome to the Stock Trading Adventure! A new game is starting."

  /** The state after loading: no player, round 1 derived from the
      schedule with no snapshot, trading open. */
  function Initial(schedule: seq<Stock>): (r: Game)
    ensures r.players == map[] && r.order == []
    ensures r.settings.round == 1 && r.settings.tradingOpen && Aligned(r.market, schedule)
  {
    Game(map[], [], DeriveRound(schedule, [], 1), Settings(1, true, WelcomeNews))
  }

  /** The initial state satisfies the invariant, and every stock's shares
      are all on offer. */
  lemma InitialValid(schedule: seq<Stock>)
    ensures Inv(Initial(schedule), schedule)
    ensures forall i :: 0 <= i < |schedule| ==> Initial(schedule).market[i].quantity == schedule[i].initialQuantity
  {
    var g := Initial(schedule);
    DeriveRoundPrices(schedule, [], 1);
    if ScheduleValid(schedule) {
      forall i | 0 <= i < |g.market| ensures g.market[i].quantity >= 0 {
        assert schedule[i] in schedule;
      }
    }
  }

  /** Under the invariant, every price on the market is non-negative. */
  lemma MarketPricesNonNegative(g: Game, schedule: seq<Stock>, i: int)
    requires Inv(g, schedule) && ScheduleValid(schedule)
    requires 0 <= i < |g.market|
    ensures g.market[i].price >= 0
  {
    assert schedule[i] in schedule;
  }
}
