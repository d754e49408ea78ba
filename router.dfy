/** The command router: each inbound message is handled completely, by the
    admin handler or the player handler according to the connection's role,
    before the next one is read. */
module Router {

  import opened Base
  import opened Schedule
  import opened Market
  import opened Game
  import Trading
  import Registry
  import Admin

  /** An inbound message. `ClaimAdmin` carries whether the secret matched. */
  datatype Command =
    | ClaimAdmin(secretMatches: bool)
    | RegisterNickname(nickname: string)
    | BuyOrder(stock: StockName, quantity: int)
    | SellOrder(stock: StockName, quantity: int)
    | PostNews(message: string)
    | ToggleTrading
    | AdvanceRound
    | DeletePlayer(nickname: string)
    | ResetGame
    | Unrecognised

  /** What the server knows about a connection: its admin flag and the id it
      registered, if any. */
  datatype Conn = Conn(isAdmin: bool, id: Option<PlayerId>)

  /** Outbound messages. `Update` is the full-state broadcast to every
      client; `GameOver` goes to every player connection. */
  datatype Notice = AdminOk | Registered(id: PlayerId) | NicknameError | Kicked(id: PlayerId) | GameOver | Update

  datatype Outcome = Outcome(game: Game, conn: Conn, notices: seq<Notice>)

  /** A player's trade is broadcast only when it took effect. */
  function TradeOutcome(before: Game, after: Game, conn: Conn): Outcome {
    Outcome(after, conn, if after != before then [Update] else [])
  }

  function PlayerStep(g: Game, conn: Conn, cmd: Command, freshId: PlayerId): (r: Outcome)
    ensures r.game.settings == g.settings && r.conn.isAdmin == conn.isAdmin
    ensures !g.settings.tradingOpen && !cmd.RegisterNickname? ==> r.game == g
    ensures r.game.players.Keys >= g.players.Keys
  {
    match cmd
    case RegisterNickname(nickname) =>
      var (g', reply) := Registry.Register(g, nickname, freshId);
      if reply.NicknameRejected? then Outcome(g, conn, [NicknameError])
      else Outcome(g', conn.(id := Some(freshId)), [Registered(freshId), Update])
    case BuyOrder(stock, quantity) =>
      if g.settings.tradingOpen then TradeOutcome(g, Trading.Buy(g, conn.id, stock, quantity), conn)
      else Outcome(g, conn, [])
    case SellOrder(stock, quantity) =>
      if g.settings.tradingOpen then TradeOutcome(g, Trading.Sell(g, conn.id, stock, quantity), conn)
      else Outcome(g, conn, [])
    case _ => Outcome(g, conn, [])
  }

  /** Every admin message ends in a broadcast, even one that changes nothing. */
  function AdminStep(g: Game, schedule: seq<Stock>, conn: Conn, cmd: Command): (r: Outcome)
    requires forall id :: id in g.order ==> id in g.players
    ensures r.conn == conn && Update in r.notices
    ensures r.game.players.Keys <= g.players.Keys
  {
    match cmd
    case PostNews(message) => Outcome(Admin.BroadcastNews(g, message), conn, [Update])
    case ToggleTrading => Outcome(Admin.ToggleTrading(g), conn, [Update])
    case AdvanceRound => Outcome(Admin.AdvanceRound(g, schedule), conn, [Update])
    case DeletePlayer(nickname) =>
      var (g', kicked) := Registry.DeleteByNickname(g, nickname);
      Outcome(g', conn, (if kicked.Some? then [Kicked(kicked.value)] else []) + [Update])
    case ResetGame => Outcome(Admin.ResetGame(g, schedule), conn, [GameOver, Update])
    case _ => Outcome(g, conn, [Update])
  }

  /** Handles one message from `conn`; `freshId` is the id a registration
      would receive. A matching admin claim makes any connection the admin. */
  function Step(g: Game, schedule: seq<Stock>, conn: Conn, cmd: Command, freshId: PlayerId): (r: Outcome)
    requires forall id :: id in g.order ==> id in g.players
    ensures r.conn.isAdmin <==> conn.isAdmin || cmd == ClaimAdmin(true)
    ensures cmd == ClaimAdmin(true) ==> r.game == g
    ensures !conn.isAdmin ==> r.game.settings == g.settings && r.game.players.Keys >= g.players.Keys
  {
    if cmd == ClaimAdmin(true) then Outcome(g, conn.(isAdmin := true), [AdminOk, Update])
    else if conn.isAdmin then AdminStep(g, schedule, conn, cmd)
    else PlayerStep(g, conn, cmd, freshId)
  }

  // ---------------------------------------------------------------------
  // Properties

  /** While trading is closed, no buy or sell order changes the game, from
      any connection; and no player message changes the settings. */
  lemma TradingGate(g: Game, schedule: seq<Stock>, conn: Conn, cmd: Command, freshId: PlayerId)
    requires forall id :: id in g.order ==> id in g.players
    requires cmd.BuyOrder? || cmd.SellOrder?
    ensures !g.settings.tradingOpen ==> Step(g, schedule, conn, cmd, freshId).game == g
    ensures Step(g, schedule, conn, cmd, freshId).game.settings == g.settings
  {
    if !conn.isAdmin && g.settings.tradingOpen {
      if cmd.BuyOrder? {
        if Trading.CanBuy(g, conn.id, cmd.stock, cmd.quantity) {
          Trading.BuyEffect(g, conn.id, cmd.stock, cmd.quantity);
        } else {
          Trading.BuyTakesEffectIff(g, conn.id, cmd.stock, cmd.quantity);
        }
      } else {
        if Trading.CanSell(g, conn.id, cmd.stock, cmd.quantity) {
          Trading.SellEffect(g, conn.id, cmd.stock, cmd.quantity);
        } else {
          Trading.SellTakesEffectIff(g, conn.id, cmd.stock, cmd.quantity);
        }
      }
    }
  }

  /** A player message is broadcast exactly when it changed the game or
      registered the connection; an admin message is always broadcast. */
  lemma BroadcastPolicy(g: Game, schedule: seq<Stock>, conn: Conn, cmd: Command, freshId: PlayerId)
    requires forall id :: id in g.order ==> id in g.players
    requires cmd != ClaimAdmin(true)
    ensures var o := Step(g, schedule, conn, cmd, freshId);
      && (conn.isAdmin ==> Update in o.notices)
      && (!conn.isAdmin && !cmd.RegisterNickname? ==> (Update in o.notices <==> o.game != g))
  {
  }

  /** Every message keeps the invariant: unique nicknames, no empty holding,
      a market aligned with the schedule and priced for the current round,
      and, for a schedule without negative numbers, non-negative cash and
      supply. */
  lemma StepPreservesInv(g: Game, schedule: seq<Stock>, conn: Conn, cmd: Command, freshId: PlayerId)
    requires Inv(g, schedule)
    ensures Inv(Step(g, schedule, conn, cmd, freshId).game, schedule)
  {
    if cmd != ClaimAdmin(true) {
      if conn.isAdmin {
        Admin.AdminPreservesInv(g, schedule, if cmd.PostNews? then cmd.message else "",
                                if cmd.DeletePlayer? then cmd.nickname else "");
      } else {
        match cmd
        case RegisterNickname(nickname) => Registry.RegisterPreservesInv(g, schedule, nickname, freshId);
        case BuyOrder(stock, quantity) => Trading.BuyPreservesInv(g, schedule, conn.id, stock, quantity);
        case SellOrder(stock, quantity) => Trading.SellPreservesInv(g, schedule, conn.id, stock, quantity);
        case _ =>
      }
    }
  }

  /** Shares are conserved by every message except the two that drop
      players (`delete_player`, `reset_game`); a registration is covered
      only under a new id. */
  lemma StepConservesShares(g: Game, schedule: seq<Stock>, conn: Conn, cmd: Command, freshId: PlayerId, s: StockName)
    requires Inv(g, schedule)
    requires !cmd.DeletePlayer? && !cmd.ResetGame?
    requires cmd.RegisterNickname? ==> freshId !in g.players
    ensures Outstanding(Step(g, schedule, conn, cmd, freshId).game, s) == Outstanding(g, s)
  {
    if cmd != ClaimAdmin(true) {
      if conn.isAdmin {
        if cmd.AdvanceRound? {
          Admin.AdvanceOutcome(g, schedule);
        }
      } else {
        match cmd
        case RegisterNickname(nickname) => Registry.RegisterConservesShares(g, nickname, freshId, s);
        case BuyOrder(stock, quantity) => Trading.BuyConservesShares(g, conn.id, stock, quantity, s);
        case SellOrder(stock, quantity) => Trading.SellConservesShares(g, conn.id, stock, quantity, s);
        case _ =>
      }
    }
  }

  /** Only `advance_round` and `reset_game` change the round: the first by
      one, the second back to 1. */
  lemma RoundMonotone(g: Game, schedule: seq<Stock>, conn: Conn, cmd: Command, freshId: PlayerId)
    requires forall id :: id in g.order ==> id in g.players
    ensures var r' := Step(g, schedule, conn, cmd, freshId).game.settings.round;
      r' == if conn.isAdmin && cmd == AdvanceRound then g.settings.round + 1
            else if conn.isAdmin && cmd == ResetGame then 1
            else g.settings.round
  {
    if !conn.isAdmin && (cmd.BuyOrder? || cmd.SellOrder?) {
      TradingGate(g, schedule, conn, cmd, freshId);
    }
  }
}
