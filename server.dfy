/** The server process: its single mutable state and the handlers that
    change it in place, one message at a time. */
module Server {

  import opened Base
  import opened Schedule
  import opened Market
  import opened Game
  import Trading
  import Registry
  import Admin
  import opened Router
  import opened Leaderboard

  class GameServer {
    /** The price schedule, loaded once. */
    const schedule: seq<Stock>
    /** The player table, keyed by id, and its enumeration order. */
    var players: map<PlayerId, Player>
    var order: seq<PlayerId>
    /** The market of the current round. */
    var market: seq<MarketEntry>
    var round: nat
    var tradingOpen: bool
    var news: string

    /** The state as a value, for the specifications. */
    function State(): Game
      reads this
    {
      Game(players, order, market, Settings(round, tradingOpen, news))
    }

    ghost predicate Valid()
      reads this
    {
      Inv(State(), schedule)
    }

    /** Start-up after the schedule is loaded: round 1 is derived with no
        prior snapshot. */
    constructor (schedule: seq<Stock>)
      ensures Valid() && this.schedule == schedule
      ensures State() == Initial(schedule)
    {
      this.schedule := schedule;
      players, order := map[], [];
      round, tradingOpen, news := 1, true, WelcomeNews;
      market := [];
      new;
      UpdateMarketForRound(1);
      InitialValid(schedule);
    }

    /** Rebuilds the market for `r` from the schedule and the current
        snapshot; the one assignment is the only mutation. */
    method UpdateMarketForRound(r: nat)
      modifies this
      ensures market == DeriveRound(schedule, old(market), r)
      ensures players == old(players) && order == old(order)
      ensures round == old(round) && tradingOpen == old(tradingOpen) && news == old(news)
    {
      market := DeriveRound(schedule, market, r);
    }

    /** Writes back the trader's record and moves the remaining quantity of
        market entry `i` by `delta`. */
    method ApplySettlement(pid: PlayerId, p: Player, i: nat, delta: int)
      requires i < |market|
      modifies this
      ensures State() == Settle(old(State()), pid, p, i, delta)
    {
      market := market[i := market[i].(quantity := market[i].quantity + delta)];
      players := players[pid := p];
    }

    /** `buy`: the record and the market entry are rewritten in place when
        the order is accepted; otherwise nothing changes. */
    method HandleBuy(id: Option<PlayerId>, stockName: StockName, quantity: int) returns (broadcast: bool)
      requires Valid()
      modifies this
      ensures Valid()
      ensures State() == Trading.Buy(old(State()), id, stockName, quantity)
      ensures broadcast <==> Trading.CanBuy(old(State()), id, stockName, quantity)
    {
      ghost var g := State();
      ghost var after := Trading.Buy(g, id, stockName, quantity);
      broadcast := false;
      if id.Some? && id.value in players {
        var found := FindStock(market, stockName);
        if found.Some? && quantity > 0 {
          var i := found.value;
          var player := players[id.value];
          var cost := market[i].price * quantity;
          if player.cash >= cost && market[i].quantity >= quantity {
            ApplySettlement(id.value, Trading.AfterBuy(player, stockName, cost, quantity), i, -quantity);
            broadcast := true;
            Trading.BuySettles(g, id, stockName, quantity);
            assert State() == after;
          }
        }
      }
      assert broadcast <==> Trading.CanBuy(g, id, stockName, quantity);
      if !broadcast {
        assert after == g by {
          Trading.BuyTakesEffectIff(g, id, stockName, quantity);
        }
        assert State() == after;
      }
      assert Valid() by {
        Trading.BuyPreservesInv(g, schedule, id, stockName, quantity);
      }
    }

    /** `sell`: the record and the market entry are rewritten in place when
        the order is accepted; an emptied holding is deleted. */
    method HandleSell(id: Option<PlayerId>, stockName: StockName, quantity: int) returns (broadcast: bool)
      requires Valid()
      modifies this
      ensures Valid()
      ensures State() == Trading.Sell(old(State()), id, stockName, quantity)
      ensures broadcast <==> Trading.CanSell(old(State()), id, stockName, quantity)
    {
      ghost var g := State();
      ghost var after := Trading.Sell(g, id, stockName, quantity);
      broadcast := false;
      if id.Some? && id.value in players {
        var found := FindStock(market, stockName);
        var player := players[id.value];
        if found.Some? && !(quantity <= 0 || !(stockName in player.portfolio && player.portfolio[stockName] != 0)
                            || player.portfolio[stockName] < quantity) {
          var i := found.value;
          ApplySettlement(id.value, Trading.AfterSell(player, stockName, market[i].price * quantity, quantity), i, quantity);
          broadcast := true;
          Trading.SellSettles(g, id, stockName, quantity);
          assert State() == after;
        }
      }
      assert broadcast <==> Trading.CanSell(g, id, stockName, quantity);
      if !broadcast {
        assert after == g by {
          Trading.SellTakesEffectIff(g, id, stockName, quantity);
        }
        assert State() == after;
      }
      assert Valid() by {
        Trading.SellPreservesInv(g, schedule, id, stockName, quantity);
      }
    }

    /** `register`: refuses a taken nickname; otherwise records the player
        under `freshId`. */
    method RegisterPlayer(nickname: string, freshId: PlayerId) returns (reply: Registry.RegisterReply)
      requires Valid()
      modifies this
      ensures Valid()
      ensures (State(), reply) == Registry.Register(old(State()), nickname, freshId)
    {
      Registry.RegisterPreservesInv(State(), schedule, nickname, freshId);
      if NicknameTaken(players, nickname) {
        return Registry.NicknameRejected;
      }
      if freshId !in players {
        order := order + [freshId];
      }
      players := players[freshId := Player(freshId, nickname, InitialCash, map[])];
      reply := Registry.Registered(freshId);
    }

    /** A connection closed; a player connection's record goes with it. */
    method Disconnect(isAdmin: bool, id: Option<PlayerId>) returns (broadcast: bool)
      requires Valid()
      modifies this
      ensures Valid()
      ensures State() == Registry.Disconnect(old(State()), isAdmin, id)
      ensures broadcast <==> !isAdmin && id.Some?
    {
      broadcast := false;
      if isAdmin {
        return;
      }
      if id.Some? {
        Registry.RemovePreservesInv(State(), schedule, id.value);
        players := players - {id.value};
        order := Registry.Without(order, id.value);
        broadcast := true;
      }
    }

    method PostNews(message: string)
      requires Valid()
      modifies this
      ensures Valid()
      ensures State() == Admin.BroadcastNews(old(State()), message)
    {
      Admin.SettingsChangeKeepsInv(State(), schedule, message);
      news := message;
    }

    method ToggleTrading()
      requires Valid()
      modifies this
      ensures Valid()
      ensures State() == Admin.ToggleTrading(old(State()))
    {
      Admin.SettingsChangeKeepsInv(State(), schedule, "");
      tradingOpen := !tradingOpen;
      news := Admin.TradingNews(tradingOpen);
    }

    method AdvanceRound()
      requires Valid()
      modifies this
      ensures Valid()
      ensures State() == Admin.AdvanceRound(old(State()), schedule)
    {
      Admin.AdvanceKeepsInv(State(), schedule);
      round := round + 1;
      UpdateMarketForRound(round);
      tradingOpen := true;
      news := Admin.RoundNews(round);
    }

    /** `delete_player`: returns the id whose connection is kicked. */
    method DeletePlayer(nickname: string) returns (kicked: Option<PlayerId>)
      requires Valid()
      modifies this
      ensures Valid()
      ensures (State(), kicked) == Registry.DeleteByNickname(old(State()), nickname)
    {
      kicked := Registry.FindByNickname(players, order, nickname);
      if kicked.Some? {
        Registry.RemovePreservesInv(State(), schedule, kicked.value);
        players := players - {kicked.value};
        order := Registry.Without(order, kicked.value);
      }
    }

    /** `reset_game`: the snapshot is discarded before round 1 is derived,
        so every quantity restarts from the schedule. */
    method ResetGame()
      requires Valid()
      modifies this
      ensures Valid()
      ensures State() == Admin.ResetGame(old(State()), schedule)
    {
      Admin.ResetKeepsInv(State(), schedule);
      players, order := map[], [];
      round, tradingOpen, news := 1, true, Admin.RestartNews;
      market := [];
      UpdateMarketForRound(1);
    }

    /** One inbound message from `conn`, routed by the connection's role. */
    method Handle(conn: Conn, cmd: Command, freshId: PlayerId) returns (conn': Conn, notices: seq<Notice>)
      requires Valid()
      modifies this
      ensures Valid()
      ensures Outcome(State(), conn', notices) == Step(old(State()), schedule, conn, cmd, freshId)
    {
      conn', notices := conn, [];
      if cmd == ClaimAdmin(true) {
        conn' := conn.(isAdmin := true);
        notices := [AdminOk, Update];
        return;
      }
      if conn.isAdmin {
        match cmd {
        case PostNews(message) => PostNews(message);
        case ToggleTrading => ToggleTrading();
        case AdvanceRound => AdvanceRound();
        case DeletePlayer(nickname) =>
          var kicked := DeletePlayer(nickname);
          if kicked.Some? {
            notices := [Kicked(kicked.value)];
          }
        case ResetGame =>
          ResetGame();
          notices := [GameOver];
        case _ =>
        }
        notices := notices + [Update];
      } else {
        ghost var before := State();
        match cmd {
        case RegisterNickname(nickname) =>
          var reply := RegisterPlayer(nickname, freshId);
          if reply.NicknameRejected? {
            notices := [NicknameError];
          } else {
            conn' := conn.(id := Some(freshId));
            notices := [Registered(freshId), Update];
          }
        case BuyOrder(stock, quantity) =>
          if tradingOpen {
            var broadcast := HandleBuy(conn.id, stock, quantity);
            Trading.BuyTakesEffectIff(before, conn.id, stock, quantity);
            if broadcast {
              notices := [Update];
            }
          }
        case SellOrder(stock, quantity) =>
          if tradingOpen {
            var broadcast := HandleSell(conn.id, stock, quantity);
            Trading.SellTakesEffectIff(before, conn.id, stock, quantity);
            if broadcast {
              notices := [Update];
            }
          }
        case _ =>
        }
      }
    }

    /** The leaderboard of the current state. */
    method Leaderboard() returns (board: seq<Standing>)
      requires Valid()
      ensures |board| == |players|
      ensures SortedByValue(board)
      ensures multiset(board) == multiset(Standings(Roster(players, order), market))
    {
      board := ComputeLeaderboard(Roster(players, order), market);
      DistinctCoversCardinality(players, order);
    }
  }

  /** A registration order that lists each key once has as many entries as
      the table has players. */
  lemma DistinctCoversCardinality(players: map<PlayerId, Player>, order: seq<PlayerId>)
    requires RegistryValid(players, order)
    ensures |order| == |players|
  {
    var keys := set i | 0 <= i < |order| :: order[i];
    assert keys == players.Keys;
    DistinctSeqCardinality(order);
  }

  lemma {:induction false} DistinctSeqCardinality(s: seq<PlayerId>)
    requires forall i, j :: 0 <= i < j < |s| ==> s[i] != s[j]
    ensures |set i | 0 <= i < |s| :: s[i]| == |s|
  {
    if s != [] {
      var last := s[|s| - 1];
      var init := s[..|s| - 1];
      DistinctSeqCardinality(init);
      assert (set i | 0 <= i < |s| :: s[i]) == (set i | 0 <= i < |init| :: init[i]) + {last};
      assert last !in (set i | 0 <= i < |init| :: init[i]);
    }
  }
}
