# HackTheFleet game-state engine in Dafny

This project models the game-state engine of the HackTheFleet server, a two-player Battleship game with single-cell ships.

- **`Lobby`** is one match. It holds up to two players in join order, an owner, a game state (phase, turn, winner) and one 5×5 board per player. A board cell is water `'~'`, ship `'S'`, hit `'X'` or miss `'O'`.
  - Its operations are joining and leaving, placing and removing ships by hand, filling free cells with random ships, starting the game, shooting, and the masked view of the opponent's board.
- **`LobbyManager`** is the registry of live lobbies. It creates lobbies under fresh six-digit ids, joins and leaves them, deletes lobbies that become empty, runs a first-in-first-out public matchmaking queue, and finds a player's lobby.

Layout:

- `wrappers.dfy` (`Wrappers`): the `Option` type.
- `sequences.dfy` (`Sequences`): duplicate-free sequences and the filtering used when a player is removed.
- `boards.dfy` (`Boards`): cells, boards, cell update, counting, and the opponent mask, with lemmas about them.
- `models.dfy` (`Models`): class `Lobby`.
- `lobby_manager.dfy` (`Manager`): class `LobbyManager`.
- `scenarios.dfy` (`Scenarios`): sequences of lobby calls, proved from the contracts alone.

Both classes keep their state in fields and change it in place.

- `Lobby` holds `players: seq<string>`, `ownerId`, `gameState` and `boards: map<string, Board>`.
- `LobbyManager` holds `lobbies: map<string, Lobby>`, `publicQueue: seq<string>`, and `order`. The `order` field lists the registry's keys in insertion order, which is the order in which the server's dictionary yields its lobbies.
- Every method ties the new state to the old one and keeps a `Valid()` invariant.
  - For a lobby: at most two distinct players, each of whom has a 5×5 board, and an owner among the players whenever there are players.
  - For the registry: every lobby is stored under its own id, is valid, and has a player.

Randomness is passed in as parameters:

- `PlaceShipsRandomly` receives the shuffled list of free cells, which must contain every water cell exactly once and nothing else.
- `GenerateLobbyId` receives the generator's successive six-digit codes.

Python truthiness is modelled where the code relies on it. `not owner_id` and `not opponent_id` treat `None` and `""` alike (`Models.Falsy`).

### Behaviour of the code worth knowing

- `place_ship` rejects only a cell that already holds a ship. It writes a ship over a hit or a miss (server/utils/models.py:88-93).
- `remove_player` keeps the departed player's board and leaves `turn` as it was (server/utils/models.py:39-44).
- `start_game` demands only two players and `ShipsRequired` ships each. Placement is accepted in any phase, and nothing checks who calls `start_game` (server/utils/models.py:78-120).
- `shoot` checks neither the phase nor the winner, so it is accepted after the game has finished. The winner it reports is whatever `game_state["winner"]` holds after the shot (server/utils/models.py:128-170).
- The winning shot still passes the turn to the loser (server/utils/models.py:161). If the loser then sinks the winner's last ship, `winner` becomes the loser, whose own board holds no ship (server/utils/models.py:165-168). `Scenarios.WinnerFlips` states this.
- The lobby's player limit is the literal 2 in `add_player` (server/utils/models.py:30), modelled as `MaxPlayers`. `MAX_LOBBY_PLAYERS` is declared but never read (server/utils/lobby_manager.py:6).
- `join_public_game` never checks whether the head of the queue is the joining player (server/utils/lobby_manager.py:41-43). A player queued twice is matched with themselves, and the resulting public lobby holds that one player only; the contract of `JoinPublicGame` states this case.

## Model

| member | source | states |
|---|---|---|
| `Models.Lobby.constructor` | server/utils/models.py:16-25 | A new lobby has no players, no owner, no boards and the state waiting / no turn / no winner, and satisfies the lobby invariant |
| `Models.Lobby.AddPlayer` | server/utils/models.py:27-37 | A member is accepted with no change. A newcomer is refused with no change when two players are present. Otherwise the newcomer is appended, becomes owner when the owner is falsy, and gets a blank board if it has none. At most two distinct players is preserved |
| `Models.Lobby.RemovePlayer` | server/utils/models.py:39-44 | The players become the old list without the id. The result is true iff the id was a member, iff the count changed. Ownership passes to the new first player or to nobody when the owner leaves. Boards and game state are untouched |
| `Models.Lobby.GetBoard` | server/utils/models.py:46-47 | Returns the player's board, or the empty list exactly when the player has none |
| `Models.Lobby.UpdateGameState` | server/utils/models.py:49-53 | The state becomes waiting below two players, otherwise playing with the first player's turn. Nothing else changes |
| `Models.Lobby.ShipsPlaced` | server/utils/models.py:72-76 | The number of ship cells on the player's board. It is 0 without a board and never more than 25 |
| `Models.Lobby.PlaceShip` | server/utils/models.py:78-94 | Each error case (out of bounds, no board, already a ship, quota reached) returns its error and changes nothing. Success happens iff none applies. Then exactly that cell becomes a ship, and the reply is the old count plus one, which equals the new count and is at most `ShipsRequired` |
| `Models.Lobby.RemoveShip` | server/utils/models.py:96-105 | Out of bounds, no board, or no ship at the cell returns its error and changes nothing. Otherwise exactly that cell becomes water, and the reply is the new count, one less than before |
| `Models.Lobby.PlaceShipsRandomly` | server/utils/models.py:55-70 | Without a board nothing changes. Otherwise the ship count rises by exactly min(numShips, free cells), where numShips defaults to `ShipsRequired` and a negative request places nothing. The first that many shuffled cells become ships, every other cell is unchanged, and other boards are unchanged |
| `Models.Quota` | server/utils/models.py:61-68 | The number of ships random placement sets never exceeds the number of free cells |
| `Models.Lobby.StartGame` | server/utils/models.py:107-120 | Succeeds iff there are two players and each has at least `ShipsRequired` ships. Success sets playing / turn of `players[0]` / no winner. Failure changes nothing and reports either too few players or the first player short of ships |
| `Models.FirstOther` | server/utils/models.py:122-126 | Returns none iff every player is `p`. Otherwise it returns a player other than `p`, and it is the first such in join order |
| `Models.Lobby.OpponentId` | server/utils/models.py:122-126 | The opponent is a member other than `p`, and there is none exactly when every member is `p` |
| `Models.OpponentsAlternate` | server/utils/models.py:122-126 | With two distinct players each one's opponent is the other, so passing the turn to the opponent alternates |
| `Models.Lobby.Shoot` | server/utils/models.py:128-170 | No opponent, not your turn, or out of bounds returns its error with no change. A hit or miss cell is reported again with no change to board or turn. Otherwise ship becomes hit and water becomes miss, the opponent's ship count drops by one exactly on a hit, and the turn passes to the opponent even on a hit. The game becomes finished with the shooter as winner iff the opponent has no ship left after the shot, so the winner a shot sets is the shooter, never the player whose board that shot emptied. Otherwise state and winner are kept |
| `Models.Lobby.OpponentView` | server/utils/models.py:172-182 | A 5×5 view showing each of the opponent's hits and misses and water elsewhere. It contains no ship. With no opponent it is a blank board |
| `Boards.Blank` | server/utils/models.py:36 | A new board has the lobby's shape and is water everywhere |
| `Boards.BlankCounts` | server/utils/models.py:36 | A new board holds no ship and 25 free cells |
| `Boards.CountSetCell` | server/utils/models.py:93 | Writing one cell changes the count of every cell kind by exactly what left the cell and what arrived |
| `Boards.CountOccurs` | server/utils/models.py:165 | "Any ship left" holds iff the ship count is positive, so the finish test agrees with `ships_placed` |
| `Boards.WellFormedCountBound` | server/utils/models.py:72-76 | No cell kind occurs more than 25 times on a lobby board |
| `Boards.PlaceRemoveRoundTrip` | server/utils/models.py:93-104 | Placing a ship on a water cell and then removing it restores the board |
| `Boards.MaskCount` | server/utils/models.py:181 | Counted by kind, the masked board has no ship, as many hits and as many misses as the original, and as many water cells as the original had water and ship cells together |
| `Boards.MaskIdempotent` | server/utils/models.py:181 | Masking an already masked board changes nothing |
| `Sequences.Without` | server/utils/models.py:41 | The filtered list holds exactly the other elements. It is strictly shorter iff the element occurred, and it stays duplicate-free |
| `Manager.LobbyManager.constructor` | server/utils/lobby_manager.py:10-12 | Starts with no lobbies and an empty queue, satisfying the registry invariant |
| `Manager.LobbyManager.GenerateLobbyId` | server/utils/lobby_manager.py:14-18 | Returns a six-digit id that is not a key of the registry. It is the first such draw |
| `Manager.LobbyManager.CreateLobby` | server/utils/lobby_manager.py:20-26 | Registers a fresh lobby under a previously unused id, whose only player and owner is the creator and whose `isPublic` is the argument. The existing entries, their order and the queue are kept |
| `Manager.LobbyManager.JoinLobby` | server/utils/lobby_manager.py:28-34 | Returns none for an unknown id. Otherwise it returns the lobby iff the player was already a member or there was room. The lobby changes exactly as `add_player` changes it: a member's rejoin and a refusal change nothing, and a newcomer with room is appended, becomes owner when the owner is falsy and gets a blank board if it has none. The game state is kept |
| `Manager.LobbyManager.JoinPublicGame` | server/utils/lobby_manager.py:36-44 | An empty queue becomes `[player]` and the call returns none. Otherwise the head of the queue is removed and owns a new public lobby with players `[head, player]` (or `[head]` when the same id was queued), and the queue is one shorter. The new lobby has a blank board per player and the state waiting / no turn / no winner, and its id is appended to the insertion order |
| `Manager.LobbyManager.LeaveLobby` | server/utils/lobby_manager.py:46-53 | An unknown id returns false with no change. Otherwise the players lose the id as in `remove_player`, the result is whether the player was a member, and ownership passes to the new first player or to nobody only when the owner leaves. Boards and game state are kept. The lobby is deleted from the registry and its order iff that removal emptied it |
| `Manager.LobbyManager.GetLobby` | server/utils/lobby_manager.py:55-56 | Returns the lobby registered under the id, and none exactly when the id is not registered |
| `Manager.LobbyManager.GetLobbies` | server/utils/lobby_manager.py:58-59 | Returns every registered lobby once, in insertion order, and as many as there are entries |
| `Manager.LobbyManager.GetLobbyByPlayer` | server/utils/lobby_manager.py:61-65 | Returns none iff no registered lobby lists the player. Otherwise it returns the first lobby in insertion order that does |
| `Scenarios.PlaceThenRemove` | server/utils/models.py:78-105 | Placing then removing a ship on a water cell replies with count+1 and then the old count, and leaves every board as it was |
| `Scenarios.ShotsAlternate` | server/utils/models.py:128-170 | Two consecutive non-repeat shots pass the turn from the first player to the second and back, hit or miss |
| `Scenarios.WinnerFlips` | server/utils/models.py:128-170 | In a finished game with the loser to move, the loser's shot that sinks the winner's last ship is reported as a hit and makes the loser the winner, though the loser's own board holds no ship |
| `Scenarios.FillAndStart` | server/utils/models.py:55-120 | Filling each player's missing ships at random, with enough free cells, lets the game start with the first player to move |

## Left out

- server/main.py: the WebSocket endpoint, JSON framing, fan-out of lobby snapshots and the heartbeat sweep are transport, I/O and timers, and are not modelled.
- client/main.py: the terminal client is user interface and network I/O, and is not modelled.
- `StartMenuOption`, `Player` and `BORD_X`/`BORD_Y` carry no behaviour. A player is modelled by its id string, and the queue holds ids rather than player objects with their socket.
- Randomness: `random.choices` and `random.shuffle` are not modelled. Their outputs are parameters. `GenerateLobbyId` requires that some draw is free; the source would loop forever otherwise. `CreateLobby` carries the same demand, and `JoinPublicGame` does only when the queue is non-empty, since with an empty queue no id is drawn.
- Models.Lobby.PlaceShipsRandomly: it takes the already shuffled free-cell list instead of building it. The order in which the comprehension lists free cells is irrelevant after the shuffle.
- `async`/`await` and concurrent access: all operations are sequential methods; no locks or timers.
- Aliasing of board lists: boards are values in a map field. A caller mutating the list returned by `get_board` is not modelled.
- `board_size` and `ships_required` keep their defaults (5 and 3) everywhere in the source, so they are module constants rather than per-lobby fields.
- Models.Lobby.Shoot: the contract does not mention the "Opponent board not found" error, because every player has a board under the lobby invariant and that branch cannot be reached.
