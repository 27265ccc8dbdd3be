/** Sequences of lobby operations and what their contracts alone guarantee. */
module Scenarios {
  import opened Wrappers
  import opened Boards
  import opened Models

  /** Placing a ship on a water cell and removing it again leaves every board
      as it was. */
  method PlaceThenRemove(l: Lobby, p: string, x: int, y: int) returns (placed: Placement, removed: Placement)
    requires l.Valid() && p in l.boards && InBounds(x, y) && l.boards[p][y][x] == Water
    requires l.ShipsPlaced(p) < ShipsRequired
    modifies l
    ensures l.Valid()
    ensures placed == Placed(old(l.ShipsPlaced(p)) + 1)
    ensures removed == Placed(old(l.ShipsPlaced(p)))
    ensures l.boards == old(l.boards)
  {
    ghost var before := l.boards;
    placed := l.PlaceShip(p, x, y);
    removed := l.RemoveShip(p, x, y);
    PlaceRemoveRoundTrip(before[p], x, y);
    assert l.boards == before[p := before[p]];
  }

  /** Two consecutive shots that are not repeats: the turn goes from the first
      player to the second and back, hit or miss. */
  method ShotsAlternate(l: Lobby, x1: int, y1: int, x2: int, y2: int) returns (first: ShotReport, second: ShotReport)
    requires l.Valid() && |l.players| == 2 && l.players[0] != "" && l.players[1] != ""
    requires l.gameState.turn == Some(l.players[0])
    requires InBounds(x1, y1) && InBounds(x2, y2)
    requires l.boards[l.players[1]][y1][x1] in {Water, Ship}
    requires l.boards[l.players[0]][y2][x2] in {Water, Ship}
    modifies l
    ensures l.Valid() && l.players == old(l.players)
    ensures first.Fired? && first.hit == (old(l.boards[l.players[1]][y1][x1]) == Ship)
    ensures second.Fired? && second.hit == (old(l.boards[l.players[0]][y2][x2]) == Ship)
    ensures l.gameState.turn == Some(l.players[0])
  {
    var a, b := l.players[0], l.players[1];
    OpponentsAlternate(l.players);
    first := l.Shoot(a, x1, y1);
    assert l.gameState.turn == Some(b);
    second := l.Shoot(b, x2, y2);
  }

  /** Two players who have not placed all their ships are filled up with
      random ships; the game then starts with the first player to move. */
  method FillAndStart(l: Lobby, fillFirst: seq<Pos>, fillSecond: seq<Pos>) returns (r: Outcome)
    requires l.Valid() && |l.players| == 2
    requires forall q :: q in l.players ==> l.ShipsPlaced(q) + Count(l.boards[q], Water) >= ShipsRequired
    requires IsShuffleOfFree(fillFirst, l.boards[l.players[0]])
    requires IsShuffleOfFree(fillSecond, l.boards[l.players[1]])
    modifies l
    ensures l.Valid() && l.players == old(l.players)
    ensures r == Ok && l.gameState == GameState(Playing, Some(l.players[0]), None)
  {
    var a, b := l.players[0], l.players[1];
    assert a in l.players && b in l.players;
    l.PlaceShipsRandomly(a, Some(ShipsRequired - l.ShipsPlaced(a)), fillFirst);
    l.PlaceShipsRandomly(b, Some(ShipsRequired - l.ShipsPlaced(b)), fillSecond);
    r := l.StartGame();
  }

  /** Shots stay open after the game is finished, and the turn is with the
      loser after the winning shot: when the loser then sinks the winner's last
      ship, the winner becomes the loser, whose own board holds no ship. */
  method WinnerFlips(l: Lobby, x: int, y: int) returns (r: ShotReport)
    requires l.Valid() && |l.players| == 2 && l.players[0] != "" && l.players[1] != ""
    requires l.gameState == GameState(Finished, Some(l.players[1]), Some(l.players[0]))
    requires Count(l.boards[l.players[1]], Ship) == 0
    requires InBounds(x, y) && l.boards[l.players[0]][y][x] == Ship
    requires Count(l.boards[l.players[0]], Ship) == 1
    modifies l
    ensures l.Valid() && l.players == old(l.players)
    ensures r == Fired(true, Some(l.players[1]))
    ensures l.gameState == GameState(Finished, Some(l.players[0]), Some(l.players[1]))
    ensures Count(l.boards[l.players[1]], Ship) == 0
  {
    OpponentsAlternate(l.players);
    r := l.Shoot(l.players[1], x, y);
  }
}
