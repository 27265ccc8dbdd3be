/** One match between at most two players: its members, owner, game state and
    one board per player, with the placement, start and shooting rules. */
module Models {
  import opened Wrappers
  import opened Sequences
  import opened Boards

  /** A lobby never admits more than this many players. */
  const MaxPlayers: nat := 2

  /** The lobby's `ships_required`, never changed from its default. */
  const ShipsRequired: nat := 3

  /** The `"state"` entry of the lobby's game state. */
  datatype Phase = Waiting | Playing | Finished

  /** The lobby's `game_state` record: phase, whose turn it is, who won. */
  datatype GameState = GameState(state: Phase, turn: Option<string>, winner: Option<string>)

  /** The error texts the lobby returns, one constructor per message. */
  datatype LobbyError =
    | OutOfBounds             // "Out of bounds"
    | BoardNotFound           // "Board not found"
    | AlreadyShip             // "Already ship"
    | MaxShipsPlaced          // "Max ships placed"
    | NoShipAtPosition        // "No ship at position"
    | NotEnoughPlayers        // "Not enough players"
    | NotEnoughShips(player: string)  // "Player <id> has not placed enough ships"
    | NoOpponent              // "No opponent"
    | NotYourTurn             // "Not your turn"
    | OpponentBoardNotFound   // "Opponent board not found"

  /** Reply of `place_ship` / `remove_ship`: `{"ok": True, "placed": n}` or an error. */
  datatype Placement = Placed(count: nat) | PlacementError(error: LobbyError)

  /** Reply of `start_game`. */
  datatype Outcome = Ok | Fail(error: LobbyError)

  /** Reply of `shoot`: a repeated shot (`already: True`), a resolved shot with
      the game's winner afterwards, or an error. */
  datatype ShotReport =
    | Repeat(hit: bool)
    | Fired(hit: bool, winner: Option<string>)
    | ShotError(error: LobbyError)

  /** Python truthiness of an optional id: `None` and `""` both count as absent. */
  predicate Falsy(o: Option<string>)
  {
    o.None? || o.value == ""
  }

  /** The first player other than `p`, in join order (the loop of `_opponent_id`). */
  function FirstOther(players: seq<string>, p: string): (r: Option<string>)
    ensures r.None? <==> forall q :: q in players ==> q == p
    ensures r.Some? ==> r.value != p && exists i :: 0 <= i < |players| && players[i] == r.value
                                                  && forall j :: 0 <= j < i ==> players[j] == p
  {
    if players == [] then None
    else if players[0] != p then
      assert players[0] in players;
      Some(players[0])
    else
      assert forall q :: q in players <==> q == p || q in players[1..];
      var r := FirstOther(players[1..], p);
      assert r.Some? ==> exists i :: 0 <= i < |players[1..]| && players[1..][i] == r.value
                                     && forall j :: 0 <= j < i ==> players[1..][j] == p;
      r
  }

  /** In a lobby of two distinct players each one's opponent is the other, so
      handing the turn to the opponent alternates between them. */
  lemma OpponentsAlternate(players: seq<string>)
    requires |players| == 2 && players[0] != players[1]
    ensures FirstOther(players, players[0]) == Some(players[1])
    ensures FirstOther(players, players[1]) == Some(players[0])
  {
  }

  class Lobby {
    const id: string
    const isPublic: bool
    var ownerId: Option<string>
    /** Player ids in join order; `players[0]` moves first. */
    var players: seq<string>
    var gameState: GameState
    var boards: map<string, Board>

    /** What every operation keeps: at most two distinct players, each with a
        board, every board of the lobby's shape, and an owner among the players
        whenever there are players. */
    ghost predicate Valid()
      reads this
    {
      && |players| <= MaxPlayers
      && NoDuplicates(players)
      && (forall p :: p in players ==> p in boards)
      && (forall p :: p in boards ==> WellFormed(boards[p]))
      && (ownerId.Some? ==> ownerId.value in players)
      && (players != [] ==> ownerId.Some?)
    }

    constructor (id: string, isPublic: bool)
      ensures Valid()
      ensures this.id == id && this.isPublic == isPublic
      ensures ownerId == None && players == [] && boards == map[]
      ensures gameState == GameState(Waiting, None, None)
    {
      this.id := id;
      this.isPublic := isPublic;
      ownerId := None;
      players := [];
      gameState := GameState(Waiting, None, None);
      boards := map[];
    }

    /** Joins `p`: a member rejoining is accepted with no change, a newcomer to
        a full lobby is refused with no change, any other newcomer is appended,
        becomes owner if there is none, and gets a blank board if it has none. */
    method AddPlayer(p: string) returns (ok: bool)
      requires Valid()
      modifies this
      ensures Valid()
      ensures ok <==> p in old(players) || |old(players)| < MaxPlayers
      ensures p in old(players) || |old(players)| >= MaxPlayers ==>
                players == old(players) && ownerId == old(ownerId) && boards == old(boards)
      ensures p !in old(players) && |old(players)| < MaxPlayers ==>
                && players == old(players) + [p]
                && ownerId == (if Falsy(old(ownerId)) then Some(p) else old(ownerId))
                && boards == (if p in old(boards) then old(boards) else old(boards)[p := Blank()])
      ensures gameState == old(gameState)
    {
      if p in players {
        return true;
      }
      if |players| >= MaxPlayers {
        return false;
      }
      players := players + [p];
      if Falsy(ownerId) {
        ownerId := Some(p);
      }
      if p !in boards {
        boards := boards[p := Blank()];
      }
      return true;
    }

    /** Drops every entry `p` from the players, hands ownership to the new first
        player (or nobody) if `p` owned the lobby, and reports whether the
        player list changed. The board of `p` is kept. */
    method RemovePlayer(p: string) returns (removed: bool)
      requires Valid()
      modifies this
      ensures Valid()
      ensures players == Without(old(players), p)
      ensures removed <==> |players| != |old(players)|
      ensures removed <==> p in old(players)
      ensures ownerId == if old(ownerId) == Some(p)
                         then (if players == [] then None else Some(players[0]))
                         else old(ownerId)
      ensures boards == old(boards) && gameState == old(gameState)
    {
      var before := |players|;
      players := Without(players, p);
      if ownerId == Some(p) {
        ownerId := if players != [] then Some(players[0]) else None;
      }
      removed := |players| != before;
    }

    /** The board of `p`, or the empty list when `p` has none. */
    function GetBoard(p: string): (b: Board)
      reads this
      requires Valid()
      ensures b == [] <==> p !in boards
      ensures p in boards ==> b == boards[p]
    {
      if p in boards then boards[p] else []
    }

    /** Resets the game state from the number of players: waiting below two,
        otherwise playing with the first player to move. */
    method UpdateGameState()
      requires Valid()
      modifies this
      ensures Valid()
      ensures gameState == if |players| < MaxPlayers then GameState(Waiting, None, None)
                           else GameState(Playing, Some(players[0]), None)
      ensures players == old(players) && ownerId == old(ownerId) && boards == old(boards)
    {
      if |players| < MaxPlayers {
        gameState := GameState(Waiting, None, None);
      } else {
        gameState := GameState(Playing, Some(players[0]), None);
      }
    }

    /** Number of ship cells on the board of `p`, 0 when it has no board. */
    function ShipsPlaced(p: string): (n: nat)
      reads this
      requires Valid()
      ensures p !in boards ==> n == 0
      ensures n <= BoardSize * BoardSize
    {
      if p in boards then
        WellFormedCountBound(boards[p], Ship);
        Count(boards[p], Ship)
      else 0
    }

    /** Places a ship on the board of `p`. It fails, changing nothing, off the
        board, without a board, on a cell that is already a ship, or once
        `ShipsRequired` ships are on the board; otherwise exactly that cell
        becomes a ship (whatever it held) and the reply is the new ship count. */
    method PlaceShip(p: string, x: int, y: int) returns (r: Placement)
      requires Valid()
      modifies this
      ensures Valid()
      ensures players == old(players) && ownerId == old(ownerId) && gameState == old(gameState)
      ensures !InBounds(x, y) ==> r == PlacementError(OutOfBounds)
      ensures InBounds(x, y) && p !in old(boards) ==> r == PlacementError(BoardNotFound)
      ensures InBounds(x, y) && p in old(boards) && old(boards)[p][y][x] == Ship ==>
                r == PlacementError(AlreadyShip)
      ensures (InBounds(x, y) && p in old(boards) && old(boards)[p][y][x] != Ship
               && old(ShipsPlaced(p)) >= ShipsRequired) ==> r == PlacementError(MaxShipsPlaced)
      ensures r.PlacementError? ==> boards == old(boards)
      ensures r.Placed? <==> InBounds(x, y) && p in old(boards) && old(boards)[p][y][x] != Ship
                             && old(ShipsPlaced(p)) < ShipsRequired
      ensures r.Placed? ==>
                && InBounds(x, y) && p in old(boards)
                && boards == old(boards)[p := SetCell(old(boards)[p], x, y, Ship)]
                && r.count == old(ShipsPlaced(p)) + 1 == ShipsPlaced(p)
                && r.count <= ShipsRequired
    {
      if !InBounds(x, y) {
        return PlacementError(OutOfBounds);
      }
      if p !in boards {
        return PlacementError(BoardNotFound);
      }
      if boards[p][y][x] == Ship {
        return PlacementError(AlreadyShip);
      }
      var placed := ShipsPlaced(p);
      if placed >= ShipsRequired {
        return PlacementError(MaxShipsPlaced);
      }
      CountSetCell(boards[p], x, y, Ship, Ship);
      boards := boards[p := SetCell(boards[p], x, y, Ship)];
      return Placed(placed + 1);
    }

    /** Removes the ship at `(x, y)` from the board of `p`. It fails, changing
        nothing, off the board, without a board, or where there is no ship;
        otherwise exactly that cell becomes water and the reply is the new
        ship count, one less than before. */
    method RemoveShip(p: string, x: int, y: int) returns (r: Placement)
      requires Valid()
      modifies this
      ensures Valid()
      ensures players == old(players) && ownerId == old(ownerId) && gameState == old(gameState)
      ensures !InBounds(x, y) ==> r == PlacementError(OutOfBounds)
      ensures InBounds(x, y) && p !in old(boards) ==> r == PlacementError(BoardNotFound)
      ensures InBounds(x, y) && p in old(boards) && old(boards)[p][y][x] != Ship ==>
                r == PlacementError(NoShipAtPosition)
      ensures r.PlacementError? ==> boards == old(boards)
      ensures r.Placed? <==> InBounds(x, y) && p in old(boards) && old(boards)[p][y][x] == Ship
      ensures r.Placed? ==>
                && InBounds(x, y) && p in old(boards)
                && boards == old(boards)[p := SetCell(old(boards)[p], x, y, Water)]
                && r.count == ShipsPlaced(p) == old(ShipsPlaced(p)) - 1
    {
      if !InBounds(x, y) {
        return PlacementError(OutOfBounds);
      }
      if p !in boards {
        return PlacementError(BoardNotFound);
      }
      if boards[p][y][x] != Ship {
        return PlacementError(NoShipAtPosition);
      }
      CountSetCell(boards[p], x, y, Water, Ship);
      boards := boards[p := SetCell(boards[p], x, y, Water)];
      return Placed(ShipsPlaced(p));
    }

    /** Fills free cells of the board of `p` with ships, taking them in the
        order `shuffled` (the shuffled list of free cells). It places
        `numShips` ships, `ShipsRequired` when absent, but never more than
        there are free cells and none for a negative request; it changes only
        water cells, and nothing at all when `p` has no board. */
    method PlaceShipsRandomly(p: string, numShips: Option<int>, shuffled: seq<Pos>)
      requires Valid()
      requires p in boards ==> IsShuffleOfFree(shuffled, boards[p])
      modifies this
      ensures Valid()
      ensures players == old(players) && ownerId == old(ownerId) && gameState == old(gameState)
      ensures p !in old(boards) ==> boards == old(boards)
      ensures p in old(boards) ==>
                && boards.Keys == old(boards).Keys
                && (forall q :: q in boards && q != p ==> boards[q] == old(boards)[q])
                && ShipsPlaced(p) == old(ShipsPlaced(p)) + Quota(numShips, Count(old(boards)[p], Water))
                && (forall i :: 0 <= i < Quota(numShips, |shuffled|) ==>
                      boards[p][shuffled[i].1][shuffled[i].0] == Ship)
                && (forall x, y :: InBounds(x, y) && (x, y) !in shuffled[..Quota(numShips, |shuffled|)] ==>
                      boards[p][y][x] == old(boards)[p][y][x])
    {
      if p !in boards {
        return;
      }
      // The Python code writes each cell into the board held by the lobby; the
      // local copy is written back at the end, with no observer in between.
      var board := boards[p];
      var n := Quota(numShips, |shuffled|);
      var i := 0;
      while i < n
        invariant 0 <= i <= n
        invariant unchanged(this)
        invariant WellFormed(board)
        invariant forall j :: 0 <= j < i ==> board[shuffled[j].1][shuffled[j].0] == Ship
        invariant forall x, y :: InBounds(x, y) && (x, y) !in shuffled[..i] ==>
                    board[y][x] == old(boards)[p][y][x]
        invariant Count(board, Ship) == Count(old(boards)[p], Ship) + i
      {
        var (x, y) := shuffled[i];
        assert (x, y) !in shuffled[..i];
        CountSetCell(board, x, y, Ship, Ship);
        board := SetCell(board, x, y, Ship);
        i := i + 1;
        assert shuffled[..i] == shuffled[..i - 1] + [(x, y)];
      }
      boards := boards[p := board];
    }

    /** Starts the game when there are two players and each has at least
        `ShipsRequired` ships: the first player moves, nobody has won. On
        failure nothing changes and the error names the first player short
        of ships. */
    method StartGame() returns (r: Outcome)
      requires Valid()
      modifies this
      ensures Valid()
      ensures players == old(players) && ownerId == old(ownerId) && boards == old(boards)
      ensures r == Ok <==> |players| >= MaxPlayers && forall q :: q in players ==> ShipsPlaced(q) >= ShipsRequired
      ensures |players| < MaxPlayers ==> r == Fail(NotEnoughPlayers)
      ensures |players| >= MaxPlayers && r.Fail? ==>
                r.error.NotEnoughShips? &&
                exists i :: 0 <= i < |players| && players[i] == r.error.player
                            && ShipsPlaced(players[i]) < ShipsRequired
                            && forall j :: 0 <= j < i ==> ShipsPlaced(players[j]) >= ShipsRequired
      ensures r == Ok ==> gameState == GameState(Playing, Some(players[0]), None)
      ensures r.Fail? ==> gameState == old(gameState)
    {
      if |players| < MaxPlayers {
        return Fail(NotEnoughPlayers);
      }
      var i := 0;
      while i < |players|
        invariant 0 <= i <= |players|
        invariant forall j :: 0 <= j < i ==> ShipsPlaced(players[j]) >= ShipsRequired
      {
        if ShipsPlaced(players[i]) < ShipsRequired {
          return Fail(NotEnoughShips(players[i]));
        }
        i := i + 1;
      }
      gameState := GameState(Playing, Some(players[0]), None);
      return Ok;
    }

    /** The opponent of `p`: the first other player, if any. */
    function OpponentId(p: string): (r: Option<string>)
      reads this
      requires Valid()
      ensures r.Some? ==> r.value in players && r.value != p
      ensures r.None? <==> forall q :: q in players ==> q == p
    {
      FirstOther(players, p)
    }

    /** Fires at `(x, y)` on the opponent's board. It fails, changing nothing,
        with no opponent, out of turn, without an opponent board, or off the
        board. A cell already hit or missed is reported again with nothing
        changed. Otherwise a ship becomes a hit and water a miss, the turn
        passes to the opponent (also after a hit), and the game is finished
        with the shooter as winner exactly when the opponent has no ship left. */
    method Shoot(shooter: string, x: int, y: int) returns (r: ShotReport)
      requires Valid()
      modifies this
      ensures Valid()
      ensures players == old(players) && ownerId == old(ownerId) && boards.Keys == old(boards).Keys
      ensures Falsy(OpponentId(shooter)) ==> r == ShotError(NoOpponent)
      ensures !Falsy(OpponentId(shooter)) && old(gameState).turn != Some(shooter) ==>
                r == ShotError(NotYourTurn)
      ensures !Falsy(OpponentId(shooter)) && old(gameState).turn == Some(shooter) && !InBounds(x, y) ==>
                r == ShotError(OutOfBounds)
      ensures r.ShotError? || r.Repeat? ==> boards == old(boards) && gameState == old(gameState)
      ensures !Falsy(OpponentId(shooter)) && old(gameState).turn == Some(shooter) && InBounds(x, y) ==>
                var opp := OpponentId(shooter).value;
                var before := old(boards)[opp][y][x];
                if before == Hit || before == Miss then
                  r == Repeat(before == Hit)
                else
                  && boards == old(boards)[opp := SetCell(old(boards)[opp], x, y, if before == Ship then Hit else Miss)]
                  && Count(boards[opp], Ship) == Count(old(boards)[opp], Ship) - Indicator(before == Ship)
                  && gameState.turn == Some(opp)
                  && (if Count(boards[opp], Ship) == 0
                      then gameState.state == Finished && gameState.winner == Some(shooter)
                      else gameState.state == old(gameState).state && gameState.winner == old(gameState).winner)
                  && r == Fired(before == Ship, gameState.winner)
    {
      var opponent := OpponentId(shooter);
      if Falsy(opponent) {
        return ShotError(NoOpponent);
      }
      if gameState.turn != Some(shooter) {
        return ShotError(NotYourTurn);
      }
      var opp := opponent.value;
      if opp !in boards {
        return ShotError(OpponentBoardNotFound);
      }
      if !InBounds(x, y) {
        return ShotError(OutOfBounds);
      }
      var board := boards[opp];
      var cell := board[y][x];
      if cell == Hit || cell == Miss {
        return Repeat(cell == Hit);
      }
      var hit := false;
      if cell == Ship {
        CountSetCell(board, x, y, Hit, Ship);
        board := SetCell(board, x, y, Hit);
        hit := true;
      } else {
        CountSetCell(board, x, y, Miss, Ship);
        board := SetCell(board, x, y, Miss);
      }
      boards := boards[opp := board];
      gameState := gameState.(turn := Some(opp));
      CountOccurs(board, Ship);
      var shipsLeft := Occurs(board, Ship);
      if !shipsLeft {
        gameState := gameState.(state := Finished, winner := Some(shooter));
      }
      return Fired(hit, gameState.winner);
    }

    /** What `p` may see of the opponent's board: a board of the lobby's shape
        showing the opponent's hits and misses and water everywhere else, or a
        blank board when there is no opponent. It never shows a ship. */
    function OpponentView(p: string): (v: Board)
      reads this
      requires Valid()
      ensures WellFormed(v)
      ensures Count(v, Ship) == 0
      ensures Falsy(OpponentId(p)) ==> v == Blank()
      ensures !Falsy(OpponentId(p)) ==>
                var b := boards[OpponentId(p).value];
                forall x, y :: InBounds(x, y) ==>
                  && ((b[y][x] == Hit || b[y][x] == Miss) ==> v[y][x] == b[y][x])
                  && ((b[y][x] == Water || b[y][x] == Ship) ==> v[y][x] == Water)
    {
      var opponent := OpponentId(p);
      if Falsy(opponent) then
        BlankCounts();
        Blank()
      else
        var board := if opponent.value in boards then boards[opponent.value] else Blank();
        MaskCount(board, Ship);
        Mask(board)
    }
  }

  /** How many ships `place_ships_randomly` sets: `min(numShips, free)`, with
      `numShips` defaulting to `ShipsRequired`, and none when that is negative. */
  function Quota(numShips: Option<int>, free: nat): (n: nat)
    ensures n <= free
  {
    var num := if numShips.Some? then numShips.value else ShipsRequired;
    if num <= 0 then 0 else if num <= free then num else free
  }
}
