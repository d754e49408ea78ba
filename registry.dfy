/** The player registry's operations: registration with a unique nickname,
    deletion by nickname, and removal when a player's connection closes. */
module Registry {

  import opened Base
  import opened Schedule
  import opened Market
  import opened Game

  /** What registration answers the connection. */
  datatype RegisterReply = Registered(id: PlayerId) | NicknameRejected

  /** Registers `nickname` under `freshId`, the id the server draws from its
      clock. A taken nickname is refused. The id is written into the table
      as is: an id already present is overwritten, keeping its place in the
      registration order. */
  function Register(g: Game, nickname: string, freshId: PlayerId): (r: (Game, RegisterReply))
    ensures r.1 == NicknameRejected <==> NicknameTaken(g.players, nickname)
    ensures r.1 == NicknameRejected ==> r.0 == g
    ensures r.1 != NicknameRejected ==>
      r.1 == Registered(freshId) && freshId in r.0.players && r.0.players[freshId] == Player(freshId, nickname, InitialCash, map[])
    ensures r.0.market == g.market && r.0.settings == g.settings
  {
    if NicknameTaken(g.players, nickname) then (g, NicknameRejected)
    else
      (g.(players := g.players[freshId := Player(freshId, nickname, InitialCash, map[])],
          order := if freshId in g.players then g.order else g.order + [freshId]),
       Registered(freshId))
  }

  /** `order` without `id`. */
  function Without(order: seq<PlayerId>, id: PlayerId): (r: seq<PlayerId>)
    ensures forall x :: x in r <==> x in order && x != id
    ensures |r| <= |order|
  {
    if order == [] then []
    else if order[0] == id then Without(order[1..], id)
    else [order[0]] + Without(order[1..], id)
  }

  /** Drops the record of `id` (a no-op when there is none). Its shares are
      not returned to the market. */
  function RemovePlayer(g: Game, id: PlayerId): Game {
    g.(players := g.players - {id}, order := Without(g.order, id))
  }

  /** The first player, in registration order, called `nickname`. */
  function FindByNickname(players: map<PlayerId, Player>, order: seq<PlayerId>, nickname: string): (r: Option<PlayerId>)
    requires forall id :: id in order ==> id in players
    ensures r.Some? ==> r.value in order && players[r.value].nickname == nickname
    ensures r.Some? ==> exists k :: 0 <= k < |order| && order[k] == r.value &&
                          forall j :: 0 <= j < k ==> players[order[j]].nickname != nickname
    ensures r.None? ==> forall id :: id in order ==> players[id].nickname != nickname
  {
    if order == [] then None
    else if players[order[0]].nickname == nickname then Some(order[0])
    else
      var r := FindByNickname(players, order[1..], nickname);
      if r.None? then r
      else
        var k :| 0 <= k < |order[1..]| && order[1..][k] == r.value &&
                 forall j :: 0 <= j < k ==> players[order[1..][j]].nickname != nickname;
        assert order[k + 1] == r.value;
        assert forall j :: 0 <= j < k + 1 ==> players[order[j]].nickname != nickname by {
          forall j | 0 <= j < k + 1 ensures players[order[j]].nickname != nickname {
            if j > 0 { assert order[j] == order[1..][j - 1]; }
          }
        }
        r
  }

  /** The admin's `delete_player`: removes the player called `nickname`, if
      any, and names the id whose connection is to be kicked. */
  function DeleteByNickname(g: Game, nickname: string): (r: (Game, Option<PlayerId>))
    requires forall id :: id in g.order ==> id in g.players
    ensures r.1.None? ==> r.0 == g && forall id :: id in g.order ==> g.players[id].nickname != nickname
    ensures r.1.Some? ==> r.1.value in g.order && g.players[r.1.value].nickname == nickname
    ensures r.1.Some? ==> r.0.players == g.players - {r.1.value} && r.1.value !in r.0.order
    ensures r.0.market == g.market && r.0.settings == g.settings
  {
    match FindByNickname(g.players, g.order, nickname)
    case None => (g, None)
    case Some(id) => (RemovePlayer(g, id), Some(id))
  }

  /** A connection closes: an admin connection changes no game state; a
      connection that registered takes its player record with it. */
  function Disconnect(g: Game, isAdmin: bool, id: Option<PlayerId>): (r: Game)
    ensures forall q :: q in r.players <==> q in g.players && (isAdmin || Some(q) != id)
    ensures forall q :: q in r.players ==> r.players[q] == g.players[q]
    ensures r.market == g.market && r.settings == g.settings
  {
    if isAdmin || id.None? then g else RemovePlayer(g, id.value)
  }

  // ---------------------------------------------------------------------
  // Properties

  /** A taken nickname creates no record and changes nothing; a free one
      under a fresh id adds exactly one player, with the initial cash and no
      shares, at the end of the registration order. */
  lemma RegisterOutcome(g: Game, nickname: string, freshId: PlayerId)
    ensures NicknameTaken(g.players, nickname) ==> Register(g, nickname, freshId) == (g, NicknameRejected)
    ensures !NicknameTaken(g.players, nickname) && freshId !in g.players ==>
      var (g', reply) := Register(g, nickname, freshId);
      && reply == Registered(freshId)
      && g'.players.Keys == g.players.Keys + {freshId}
      && |g'.players| == |g.players| + 1
      && g'.players[freshId] == Player(freshId, nickname, InitialCash, map[])
      && (forall id :: id in g.players ==> g'.players[id] == g.players[id])
      && g'.order == g.order + [freshId]
      && g'.market == g.market && g'.settings == g.settings
  {
  }

  /** Registration keeps the invariant; in particular nicknames stay unique,
      even when the id drawn collides with an existing one. */
  lemma RegisterPreservesInv(g: Game, schedule: seq<Stock>, nickname: string, freshId: PlayerId)
    requires Inv(g, schedule)
    ensures Inv(Register(g, nickname, freshId).0, schedule)
  {
    if !NicknameTaken(g.players, nickname) {
      AdmitKeepsRegistry(g.players, g.order, freshId, Player(freshId, nickname, InitialCash, map[]));
    }
  }

  /** Writing a record with a free nickname under `id` keeps the registry
      valid, with `id` appended to the order when it is new. */
  lemma AdmitKeepsRegistry(players: map<PlayerId, Player>, order: seq<PlayerId>, id: PlayerId, p: Player)
    requires RegistryValid(players, order) && p.id == id && !NicknameTaken(players, p.nickname)
    ensures RegistryValid(players[id := p], if id in players then order else order + [id])
  {
    assert forall a :: a in players ==> players[a].nickname != p.nickname;
    if id !in players {
      var order' := order + [id];
      forall i, j | 0 <= i < j < |order'| ensures order'[i] != order'[j] {
        if j == |order| { assert order'[i] == order[i]; assert order[i] in order; }
      }
    }
  }

  /** Two registrations of the same nickname in a row, from a valid registry
      with no such player: the second is refused and exactly one player
      carries the nickname afterwards. */
  lemma SecondRegistrationRefused(g: Game, schedule: seq<Stock>, nickname: string, first: PlayerId, second: PlayerId)
    requires Inv(g, schedule) && !NicknameTaken(g.players, nickname)
    ensures var (g1, r1) := Register(g, nickname, first);
            var (g2, r2) := Register(g1, nickname, second);
      && r1 == Registered(first) && r2 == NicknameRejected && g2 == g1
      && Holders(g2.players, nickname) == {first}
  {
    var g1 := Register(g, nickname, first).0;
    RegisterPreservesInv(g, schedule, nickname, first);
    assert g1.players[first].nickname == nickname;
    assert NicknameTaken(g1.players, nickname);
  }

  /** Removing a player keeps the invariant. */
  lemma RemovePreservesInv(g: Game, schedule: seq<Stock>, id: PlayerId)
    requires Inv(g, schedule)
    ensures Inv(RemovePlayer(g, id), schedule)
  {
    WithoutDistinct(g.order, id);
  }

  lemma {:induction false} WithoutDistinct(order: seq<PlayerId>, id: PlayerId)
    requires forall i, j :: 0 <= i < j < |order| ==> order[i] != order[j]
    ensures forall i, j :: 0 <= i < j < |Without(order, id)| ==> Without(order, id)[i] != Without(order, id)[j]
  {
    if order != [] {
      var rest := Without(order[1..], id);
      WithoutDistinct(order[1..], id);
      if order[0] != id {
        assert order[0] !in rest by {
          assert forall k :: 0 < k < |order| ==> order[k] != order[0];
        }
        var r := [order[0]] + rest;
        forall i, j | 0 <= i < j < |r| ensures r[i] != r[j] {
          if i == 0 {
            assert r[j] == rest[j - 1] && rest[j - 1] in rest;
          } else {
            assert r[i] == rest[i - 1] && r[j] == rest[j - 1];
          }
        }
        assert Without(order, id) == r;
      }
    }
  }

  /** `delete_player` removes the named player, if there is one, and only
      that record; no player keeps the nickname. Otherwise nothing changes. */
  lemma DeleteOutcome(g: Game, schedule: seq<Stock>, nickname: string)
    requires Inv(g, schedule)
    ensures var (g', kicked) := DeleteByNickname(g, nickname);
      && (kicked.Some? <==> NicknameTaken(g.players, nickname))
      && (kicked.None? ==> g' == g)
      && (kicked.Some? ==>
            && g.players[kicked.value].nickname == nickname
            && g'.players == g.players - {kicked.value}
            && !NicknameTaken(g'.players, nickname)
            && g'.market == g.market && g'.settings == g.settings)
  {
    var (g', kicked) := DeleteByNickname(g, nickname);
    if NicknameTaken(g.players, nickname) {
      var id :| id in g.players && g.players[id].nickname == nickname;
      assert id in g.order;
    }
  }

  /** Removing a player destroys that player's shares: they are not given
      back to the market. */
  lemma RemoveDropsShares(g: Game, id: PlayerId, s: StockName)
    requires id in g.players
    ensures Outstanding(RemovePlayer(g, id), s) == Outstanding(g, s) - HoldingOf(g.players[id].portfolio, s)
  {
    HeldRemove(g.players, id, s);
  }

  /** Registering a fresh id leaves every stock's outstanding shares as they
      were: a new player holds nothing. */
  lemma RegisterConservesShares(g: Game, nickname: string, freshId: PlayerId, s: StockName)
    requires freshId !in g.players
    ensures Outstanding(Register(g, nickname, freshId).0, s) == Outstanding(g, s)
  {
    if !NicknameTaken(g.players, nickname) {
      HeldAddEmpty(g.players, freshId, Player(freshId, nickname, InitialCash, map[]), s);
    }
  }
}
