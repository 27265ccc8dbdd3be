/** The registry of live lobbies and the public matchmaking queue. */
module Manager {
  import opened Wrappers
  import opened Sequences
  import opened Models

  /** A lobby id as the server draws it: six decimal digits. */
  predicate IsLobbyCode(s: string)
  {
    |s| == 6 && forall i :: 0 <= i < |s| ==> '0' <= s[i] <= '9'
  }

  class LobbyManager {
    /** Live lobbies by id. */
    var lobbies: map<string, Lobby>
    /** The ids of `lobbies` in insertion order, the order in which the
        server's dictionary yields them. */
    var order: seq<string>
    /** Players waiting for a public game, oldest first. */
    var publicQueue: seq<string>

    /** Every lobby is registered under its own id, is valid and has a player;
        `order` lists each registered id exactly once. */
    ghost predicate Valid()
      reads this, lobbies.Values
    {
      && NoDuplicates(order)
      && (forall k :: k in order <==> k in lobbies)
      && (forall k :: k in lobbies ==> lobbies[k].id == k && lobbies[k].Valid() && lobbies[k].players != [])
    }

    constructor ()
      ensures Valid()
      ensures lobbies == map[] && order == [] && publicQueue == []
    {
      lobbies := map[];
      order := [];
      publicQueue := [];
    }

    /** Draws lobby ids from `draws` (the random generator's successive
        six-digit codes) until one is not in use, and returns it. */
    method GenerateLobbyId(draws: seq<string>) returns (lobbyId: string)
      requires forall i :: 0 <= i < |draws| ==> IsLobbyCode(draws[i])
      requires exists i :: 0 <= i < |draws| && draws[i] !in lobbies
      ensures lobbyId !in lobbies && IsLobbyCode(lobbyId)
      ensures exists i :: 0 <= i < |draws| && draws[i] == lobbyId
                          && forall j :: 0 <= j < i ==> draws[j] in lobbies
    {
      ghost var w :| 0 <= w < |draws| && draws[w] !in lobbies;
      var i := 0;
      lobbyId := draws[0];
      while lobbyId in lobbies
        invariant 0 <= i <= w && lobbyId == draws[i]
        invariant forall j :: 0 <= j < i ==> draws[j] in lobbies
        decreases w - i
      {
        i := i + 1;
        lobbyId := draws[i];
      }
    }

    /** Registers a new lobby under a fresh id, with `player` as its only
        player and its owner. The lobbies already registered and the queue
        are left as they were. */
    method CreateLobby(player: string, isPublic: bool, draws: seq<string>) returns (lobby: Lobby)
      requires Valid()
      requires forall i :: 0 <= i < |draws| ==> IsLobbyCode(draws[i])
      requires exists i :: 0 <= i < |draws| && draws[i] !in lobbies
      modifies this
      ensures Valid() && fresh(lobby)
      ensures lobby.id !in old(lobbies) && IsLobbyCode(lobby.id)
      ensures lobbies == old(lobbies)[lobby.id := lobby]
      ensures order == old(order) + [lobby.id]
      ensures publicQueue == old(publicQueue)
      ensures lobby.isPublic == isPublic
      ensures lobby.players == [player] && lobby.ownerId == Some(player)
      ensures lobby.boards == map[player := Boards.Blank()]
      ensures lobby.gameState == GameState(Waiting, None, None)
    {
      var lobbyId := GenerateLobbyId(draws);
      lobby := new Lobby(lobbyId, isPublic);
      var joined := lobby.AddPlayer(player);
      lobby.ownerId := Some(player);
      lobbies := lobbies[lobbyId := lobby];
      order := order + [lobbyId];
    }

    /** Adds `player` to the lobby `lobbyId` as `Lobby.AddPlayer` does. Yields
        the lobby when it exists and admits the player (already a member, or
        room left), and nothing otherwise. */
    method JoinLobby(player: string, lobbyId: string) returns (r: Option<Lobby>)
      requires Valid()
      modifies if lobbyId in lobbies then {lobbies[lobbyId]} else {}
      ensures Valid()
      ensures lobbyId !in lobbies ==> r == None
      ensures lobbyId in lobbies ==>
                var l := lobbies[lobbyId];
                var admitted := player !in old(l.players) && |old(l.players)| < MaxPlayers;
                && (r.Some? <==> player in old(l.players) || |old(l.players)| < MaxPlayers)
                && (r.Some? ==> r.value == l)
                && l.players == (if admitted then old(l.players) + [player] else old(l.players))
                && l.ownerId == (if admitted && Falsy(old(l.ownerId)) then Some(player) else old(l.ownerId))
                && l.boards == (if admitted && player !in old(l.boards) then old(l.boards)[player := Boards.Blank()]
                                else old(l.boards))
                && l.gameState == old(l.gameState)
    {
      if lobbyId !in lobbies {
        return None;
      }
      var lobby := lobbies[lobbyId];
      var ok := lobby.AddPlayer(player);
      if ok {
        return Some(lobby);
      }
      return None;
    }

    /** Public matchmaking: with nobody waiting, `player` joins the queue and
        gets nothing; otherwise the longest-waiting player leaves the queue and
        a new public lobby owned by them is made with `player` as second player. */
    method JoinPublicGame(player: string, draws: seq<string>) returns (r: Option<Lobby>)
      requires Valid()
      requires forall i :: 0 <= i < |draws| ==> IsLobbyCode(draws[i])
      requires publicQueue != [] ==> exists i :: 0 <= i < |draws| && draws[i] !in lobbies
      modifies this
      ensures Valid()
      ensures old(publicQueue) == [] ==>
                r == None && publicQueue == [player] && lobbies == old(lobbies) && order == old(order)
      ensures old(publicQueue) != [] ==>
                var head := old(publicQueue)[0];
                && r.Some? && fresh(r.value)
                && publicQueue == old(publicQueue)[1..]
                && lobbies == old(lobbies)[r.value.id := r.value]
                && r.value.id !in old(lobbies)
                && r.value.isPublic
                && r.value.ownerId == (if head == "" && player != head then Some(player) else Some(head))
                && r.value.players == (if player == head then [head] else [head, player])
                && r.value.boards == map[head := Boards.Blank(), player := Boards.Blank()]
                && r.value.gameState == GameState(Waiting, None, None)
                && order == old(order) + [r.value.id]
    {
      if publicQueue == [] {
        publicQueue := publicQueue + [player];
        return None;
      }
      var opponent := publicQueue[0];
      publicQueue := publicQueue[1..];
      var lobby := CreateLobby(opponent, true, draws);
      var joined := lobby.AddPlayer(player);
      return Some(lobby);
    }

    /** Removes `player` from the lobby `lobbyId`. Reports whether the player
        was removed (never, for an unknown lobby) and drops the lobby from the
        registry exactly when the removal left it without players. */
    method LeaveLobby(player: string, lobbyId: string) returns (removed: bool)
      requires Valid()
      modifies this, if lobbyId in lobbies then {lobbies[lobbyId]} else {}
      ensures Valid()
      ensures publicQueue == old(publicQueue)
      ensures lobbyId !in old(lobbies) ==> !removed && lobbies == old(lobbies) && order == old(order)
      ensures lobbyId in old(lobbies) ==>
                var lobby := old(lobbies)[lobbyId];
                && removed == (player in old(lobby.players))
                && lobby.players == Without(old(lobby.players), player)
                && lobby.ownerId == (if old(lobby.ownerId) == Some(player)
                                     then (if lobby.players == [] then None else Some(lobby.players[0]))
                                     else old(lobby.ownerId))
                && lobby.boards == old(lobby.boards) && lobby.gameState == old(lobby.gameState)
                && (if removed && lobby.players == []
                    then lobbies == old(lobbies) - {lobbyId} && order == Without(old(order), lobbyId)
                    else lobbies == old(lobbies) && order == old(order))
    {
      if lobbyId !in lobbies {
        return false;
      }
      var lobby := lobbies[lobbyId];
      removed := lobby.RemovePlayer(player);
      if removed && lobby.players == [] {
        lobbies := lobbies - {lobbyId};
        order := Without(order, lobbyId);
      }
    }

    /** The lobby registered as `lobbyId`, if any. */
    function GetLobby(lobbyId: string): (r: Option<Lobby>)
      reads this
      ensures r.Some? <==> lobbyId in lobbies
      ensures r.Some? ==> r.value == lobbies[lobbyId]
    {
      if lobbyId in lobbies then Some(lobbies[lobbyId]) else None
    }

    /** All registered lobbies, each once, in insertion order. */
    function GetLobbies(): (r: seq<Lobby>)
      reads this, lobbies.Values
      requires Valid()
      ensures |r| == |order| == |lobbies|
      ensures forall i :: 0 <= i < |r| ==> r[i] == lobbies[order[i]]
      ensures forall k :: k in lobbies ==> lobbies[k] in r
    {
      var m, ks := lobbies, order;
      DistinctCard(ks);
      assert (set k | k in ks) == m.Keys;
      var r := seq(|ks|, i requires 0 <= i < |ks| && ks[i] in m => m[ks[i]]);
      assert forall k :: k in m ==> m[k] in r by {
        forall k | k in m
          ensures m[k] in r
        {
          var i :| 0 <= i < |ks| && ks[i] == k;
          assert r[i] == m[k];
        }
      }
      r
    }

    /** The first lobby, in insertion order, that lists `player`; nothing when
        no registered lobby does. */
    method GetLobbyByPlayer(player: string) returns (r: Option<Lobby>)
      requires Valid()
      ensures r.None? <==> forall k :: k in lobbies ==> player !in lobbies[k].players
      ensures r.Some? ==>
                exists i :: 0 <= i < |order| && r.value == lobbies[order[i]] && player in r.value.players
                            && forall j :: 0 <= j < i ==> player !in lobbies[order[j]].players
    {
      var i := 0;
      while i < |order|
        invariant 0 <= i <= |order|
        invariant forall j :: 0 <= j < i ==> player !in lobbies[order[j]].players
      {
        var lobby := lobbies[order[i]];
        if player in lobby.players {
          return Some(lobby);
        }
        i := i + 1;
      }
      return None;
    }
  }
}
