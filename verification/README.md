# Hex strategy match server — Dafny model

This project models the rules core of a two-player, turn-based hex strategy
game server:

- **the turn engine** (`GamesState`). The game state is a roster of units
  keyed by the text key of their hex, plus the gold of both sides and the
  current turn owner. Each operation is copy-on-write: it creates the state,
  toggles the turn owner, credits or debits gold, adds, removes, updates or
  moves a unit, resets the current side's units, or looks up the leader.
- **combat** (`Combat`): damage, attack outcome, experience gain, the
  level thresholds and level-up scaling.
- **the hex board** (`Hex`, `TileKeys`, `Tiles`, `Paths`, `Maps`): the
  20×12 board, projecting the roster onto the tiles, shortest paths
  around occupied hexes, move and attack validation, and the free hex
  next to a leader.
- **the match registry** (`Matchs`): opened and running matches,
  matchmaking, status changes, game state, history and the per-player view.
- **the end-of-turn sequence** of the match gateway (`Turns`).

Every record is an immutable datatype and every operation a pure function
or a method without side effects. Where the service throws, the model
returns `Err` of a `Result` with the same exception kind and message. The
dice roll and the fresh ids are parameters, and so is the stored board that
the map checks read (see `Maps.PopulateMap` under "## Left out").

The modules follow the repository's layout:

- `Results`: `Option`, `Result` and the exception kinds.
- `Entities`: the records.
- `Hex`: axial coordinates, hex distance and the six neighbours.
- `TileKeys`: `getUnitKey` as the decimal text `"q,r"`, with its parser.
- `Tiles`: the tile accessors.
- `GamesState`, `Combat`, `Maps`, `Matchs`: one module per service.
- `Paths`: a breadth-first specification of the path search.
- `Turns`: the gateway's end-of-turn sequence.

## Model

| member | source | states |
|---|---|---|
| TileKeys.IntToDecimal | src/libs/tile.utils.ts:3-5 | a coordinate is rendered as non-empty text without a comma |
| TileKeys.KeyRoundTrip | src/libs/tile.utils.ts:3-5 | parsing the key `"q,r"` of a hex gives the hex back |
| TileKeys.KeyInjective | src/libs/tile.utils.ts:3-5 | two hexes have the same roster key exactly when they are the same hex |
| TileKeys.KeyHasOneComma | src/libs/tile.utils.ts:3-5 | a key holds exactly one comma, placed right after the text of `q` |
| Tiles.NewTile | src/maps/entities/tile.entity.ts:4-7 | a new tile has no unit, no terrain and generates no gold |
| Tiles.SetUnit | src/maps/entities/tile.entity.ts:25-35 | `getUnit` after `setUnit(u)` returns `u`; the tile is occupied exactly when `u` is set; coordinate, terrain and gold are kept |
| Tiles.SetTerrain | src/maps/entities/tile.entity.ts:9-15 | `getTerrain` returns what was set; nothing else changes |
| Tiles.SetGoldGenerate | src/maps/entities/tile.entity.ts:17-23 | `getGoldGenerate` returns what was set; nothing else changes |
| Tiles.SetThenClear | src/maps/entities/tile.entity.ts:25-31 | placing a unit on a free tile and clearing it restores the tile |
| GamesState.CreateGameState | src/games-state/games-state.service.ts:22-35 | the player moves first, the roster is empty, both sides hold 100 gold under their own ids |
| GamesState.ToggleCurrentPlayer | src/games-state/games-state.service.ts:37-47 | the turn goes to the enemy when the player held it, otherwise to the player; roster and economies are kept |
| GamesState.ToggleTwiceIsIdentity | src/games-state/games-state.service.ts:37-47 | with two distinct participants, toggling changes the owner, swaps current and other economy, and toggling twice is the identity |
| GamesState.Credit | src/games-state/games-state.service.ts:49-69 | `amount \|\| GOLD_PER_TURN`: an absent or zero amount credits 10, any other amount is credited as given |
| GamesState.IncreaseCurrentPlayerGold | src/games-state/games-state.service.ts:49-69 | only the turn owner's economy is credited; the other economy, owner and roster are unchanged |
| GamesState.DecreaseCurrentPlayerGold | src/games-state/games-state.service.ts:71-103 | fails with NotAcceptable "Not enough gold" exactly when the owner's balance would go negative; otherwise only that balance drops by the amount |
| GamesState.DecreaseKeepsGoldNonNegative | src/games-state/games-state.service.ts:71-103 | a successful debit keeps both sides solvent |
| GamesState.IncreaseThenDecrease | src/games-state/games-state.service.ts:49-103 | from a non-negative balance, crediting a non-zero amount and debiting it again restores the state |
| GamesState.DecreaseThenIncrease | src/games-state/games-state.service.ts:49-103 | a successful debit followed by the same credit restores the state |
| GamesState.GetUnitFromGameState | src/games-state/games-state.service.ts:105-116 | succeeds exactly when the hex's key is in the roster, otherwise NotFound "Unit not found"; the unit found is the roster's entry at that key, and in a key-consistent roster it stands on that hex |
| GamesState.RemoveUnitFromGameState | src/games-state/games-state.service.ts:118-124 | only the hex's key is dropped; key consistency is kept |
| GamesState.AddUnitToGameState | src/games-state/games-state.service.ts:126-150 | the new unit is owned by the turn owner, has template health, level 1, no experience, cannot attack, may move only when asked; it replaces any entry on that key; other entries and key consistency are kept |
| GamesState.AddThenRemove | src/games-state/games-state.service.ts:118-150 | adding on a free key and removing restores the state, after which the lookup fails |
| GamesState.AddToFreeKeyGrows | src/games-state/games-state.service.ts:126-150 | adding on a free key grows the roster by one |
| GamesState.UpdateUnitInGameState | src/games-state/games-state.service.ts:152-158 | the unit is stored under the key of its own position and found there; other entries are kept |
| GamesState.ApplyPatch | src/games-state/games-state.service.ts:168-174 | `{...state, ...newState}`: each field the patch carries overrides, the others are kept; an empty patch changes nothing |
| GamesState.UpdateUnitStateInGameState | src/games-state/games-state.service.ts:160-184 | NotFound exactly when no unit is there; it keeps the turn and both participants; in a key-consistent roster the merged unit is found at its final hex, the old key is gone when it moved, no other entry changes, and key consistency is kept |
| GamesState.MoveUnitFromTo | src/games-state/games-state.service.ts:186-217 | the failures "Unit not found", "Not your unit" and "No movement energy enough", in that order; on success the moved unit sits at `to` with movement reduced by the distance and never negative, `from` is gone, nothing else changes |
| GamesState.MoveIsPositionPatch | src/games-state/games-state.service.ts:160-217 | a successful move equals the position-and-movement patch applied by `updateUnitStateInGameState` |
| GamesState.MoveRekeys | src/games-state/games-state.service.ts:204-216 | helper of `MoveIsPositionPatch`: a move that passes its checks drops the key of `from` and stores the moved unit under the key of `to` |
| GamesState.PositionPatchRekeys | src/games-state/games-state.service.ts:176-178 | helper of `MoveIsPositionPatch`: in a key-consistent roster, a position-and-movement patch drops the old key and stores the merged unit under the new one |
| GamesState.MoveKeepsMovementBounded | src/games-state/games-state.service.ts:199-214 | a move over a non-negative distance keeps every unit's remaining movement between zero and its template movement |
| GamesState.GetCurrentPlayerUnits | src/games-state/games-state.service.ts:219-223 | exactly the roster entries owned by the turn owner |
| GamesState.ResetCurrentPlayerUnitsTurn | src/games-state/games-state.service.ts:225-241 | each of the owner's units gets its template movement back and may attack; nothing else in it changes; other units are untouched; keys and key consistency are kept |
| GamesState.ResetIdempotent | src/games-state/games-state.service.ts:225-241 | resetting twice equals resetting once |
| GamesState.ResetKeepsMovementBounded | src/games-state/games-state.service.ts:225-241 | a reset keeps remaining movement between zero and template movement |
| GamesState.GetCurrentPlayerLeader | src/games-state/games-state.service.ts:243-253 | returns a leader owned by the turn owner; NotFound "Leader not found" exactly when there is none |
| Combat.ExperienceToUpLevel | src/combat/combat.service.ts:7-13 | the experience table has an entry exactly for levels 1 to 5, and the entry of level n is 10·n |
| Combat.CanAttack | src/combat/combat.service.ts:66-68 | true exactly when the attacker's own `canAttack` flag is set |
| Combat.ScaleUp | src/combat/combat.service.ts:86-88 | `Math.floor(x * 1.2)`: the result y satisfies 5y ≤ 6x < 5y + 5 |
| Combat.ScaleUpGrows | src/combat/combat.service.ts:81-96 | scaling never lowers a non-negative stat and strictly raises any stat of at least 5 |
| Combat.GetDamage | src/combat/combat.service.ts:70-78 | damage is never negative, lies between the damage of the lowest and highest roll, is zero exactly when defense absorbs attack plus roll, and otherwise is attack + roll − defense |
| Combat.DamageMonotoneInRoll | src/combat/combat.service.ts:70-78 | a higher roll never does less damage |
| Combat.AttackUnit | src/combat/combat.service.ts:17-35 | the defender loses exactly the damage; the attacker's patch always sets `canAttack=false` and `distanceCanMove=0`; `isDead` holds exactly when the new health is at most zero |
| Combat.LevelUp | src/combat/combat.service.ts:81-96 | one level more; state health and template health both become the scaled current health; attack and defense are scaled; nothing else changes |
| Combat.KonradLevelsUp | src/units/entities/unit.entity.ts:36-47 | a level-1 Konrad levels up to health 30, attack 9, defense 6 |
| Combat.GainExperience | src/combat/combat.service.ts:37-64 | gains five experience per defender level; evolves exactly when the new total reaches the threshold of the current level, then is levelled up; the patch records the total and ends the turn |
| Combat.ExperienceMonotone | src/combat/combat.service.ts:37-64 | against a defender of non-negative level, experience and level never drop |
| Combat.NoEvolutionPastLevelFive | src/combat/combat.service.ts:7-13 | levels without a threshold entry never evolve |
| Hex.DistanceIsCubeDistance | src/maps/maps.service.ts:90 | the axial hex distance equals the largest cube-coordinate difference |
| Hex.DistanceZeroIffEqual | src/maps/maps.service.ts:90 | distance is zero exactly between equal hexes |
| Hex.DistanceSymmetric | src/maps/maps.service.ts:90 | distance is symmetric |
| Hex.TriangleInequality | src/maps/maps.service.ts:90 | distance obeys the triangle inequality |
| Hex.Ring1 | src/maps/maps.service.ts:91 | the radius-1 ring lists six hexes |
| Hex.Ring1IsUnitDistance | src/maps/maps.service.ts:91 | a hex is on the radius-1 ring exactly when it is at distance 1 |
| Hex.AdjacentIsUnitDistance | src/maps/maps.service.ts:91 | the six neighbour offsets are exactly the hexes at distance 1 |
| Paths.Search | src/maps/maps.service.ts:86-94 | returns the first breadth-first layer holding the goal, or nothing exactly when no layer ever holds it |
| Paths.ShortestDistance | src/maps/maps.service.ts:86-94 | a path with the returned number of steps exists, no path is shorter, and none exists exactly when the result is absent; the steps are at least the hex distance |
| Paths.FirstLayerIsShortest | src/maps/maps.service.ts:86-94 | the first layer holding the goal is the length of a shortest path |
| Paths.NoLayerNoPath | src/maps/maps.service.ts:86-94 | a goal in no layer has no path |
| Maps.RowCells | src/maps/maps.service.ts:16 | one board row holds exactly the hexes of that row, `width` of them |
| Maps.RectangleCells | src/maps/maps.service.ts:16 | the rectangle holds exactly its hexes, `width × height` of them |
| Maps.BuildGrid | src/maps/maps.service.ts:16 | every hex of the rectangle gets a new tile and no other hex does |
| Maps.Create | src/maps/maps.service.ts:11-19 | a 20×12 board of 240 free tiles generating no gold |
| Maps.PopulateMap | src/maps/maps.service.ts:21-29 | as written: a tile whose key is in the roster gets that unit, every other tile is left as it was; so a tile is occupied exactly when the roster has a unit at its key or the tile already carried one |
| Maps.ProjectRoster | src/maps/maps.service.ts:21-29 | corrected: each tile is occupied exactly when its key is in the roster, by that unit; terrain and gold are kept |
| Maps.ProjectionSeesPositions | src/maps/maps.service.ts:21-29 | on a key-consistent roster a hex is occupied exactly when a unit stands there, and the occupant stands there |
| Maps.ProjectionForgetsOccupants | src/maps/maps.service.ts:21-29 | projecting a projected board equals projecting the original board |
| Maps.PopulateFreshGridIsProjection | src/maps/maps.service.ts:11-29 | on a board with no occupants, as `create` makes it, the two agree |
| Maps.PopulateKeepsStaleOccupant | src/maps/maps.service.ts:21-29 | on a reused board a hex the roster left keeps its old occupant |
| Maps.TravelOn | src/maps/maps.service.ts:34-58 | on a given board: "Tile not found", "From Tile is not occupied", "To Tile is not occupied", "No path found" and "No movement enough", each exactly under its condition in that order; success exactly when some path is within the movement of the unit on the `from` tile, and then the length of a shortest path, at least the hex distance |
| Maps.DistanceToTravel | src/maps/maps.service.ts:31-59 | as written, on the board `populateMap` leaves: a hex counts as occupied when the roster has a unit at its key or its tile still carries one, and the mover's movement is that of the unit its tile carries; "Tile not found", "From Tile is not occupied", "To Tile is not occupied" and "No path found" each exactly under its condition, in that order, and "No movement enough" otherwise; success exactly when some path is within that movement, returning the length of a shortest path on the populated board |
| Maps.DistanceToTravelOnRoster | src/maps/maps.service.ts:31-59 | corrected: the same five failures and the same success, with occupancy and movement taken from the roster alone; the value is the length of a shortest path on the roster's board |
| Maps.StaleOccupantBlocksMove | src/maps/maps.service.ts:21-29 | a move into a neighbouring hex that the roster has left but whose tile still carries its old occupant is refused with "To Tile is not occupied" as written and costs one step in the corrected check |
| Maps.NeighbourMoveOnRoster | src/maps/maps.service.ts:31-59 | on the roster's board, a unit with movement left reaches a free neighbouring hex in exactly one step |
| Maps.AttackDistanceOn | src/maps/maps.service.ts:64-81 | on a given board: the move failures with the target required occupied; on success, the length of a shortest path |
| Maps.CanAtack | src/maps/maps.service.ts:61-84 | as written, on the board `populateMap` leaves: the failures stated with tile occupancy; the answer is true exactly when every path is at least the range of the unit on the attacker's tile |
| Maps.CanAttackWithinRange | src/maps/maps.service.ts:61-84 | corrected, on the roster's board: failures stated with roster entries; true exactly when some path is at most the attacker's range long |
| Maps.NeighbourPath | src/maps/maps.service.ts:91-92 | two neighbouring board hexes are joined by a one-step path |
| Maps.AdjacentTargetRejected | src/maps/maps.service.ts:81-83 | an attacker with range above 1 is refused against an adjacent target as written and allowed by the corrected check |
| Maps.AdjacentRejectedAsWritten | src/maps/maps.service.ts:81-83 | as written, an adjacent target is refused to an attacker with range above 1 |
| Maps.AdjacentWithinRange | src/maps/maps.service.ts:81-83 | corrected, an adjacent target is within the range of an attacker with range above 1 |
| Maps.FirstFreeIndex | src/maps/maps.service.ts:97-104 | the index of the first ring hex on the board without a roster entry, or none exactly when there is none |
| Maps.GetEnablePositionAroundLeader | src/maps/maps.service.ts:96-105 | returns the first neighbour in ring order that is on the board and free, at distance 1; "No enable position found" exactly when every such neighbour is taken |
| Matchs.Create | src/matchs/matchs.service.ts:73-83 | a CREATED opened match with the fresh id, the player, no enemy and an empty history |
| Matchs.FindOpenedMatch | src/matchs/matchs.service.ts:34-44 | some CREATED opened match, marked WAITING; none exactly when there is no CREATED opened match |
| Matchs.AddPlayer | src/matchs/matchs.service.ts:57-60 | the joining player becomes the enemy and the status FULL; nothing else changes |
| Matchs.MoveMatch | src/matchs/matchs.service.ts:62-67 | the match is stored in `matchs` and leaves `openedMatchs` |
| Matchs.FindOrCreate | src/matchs/matchs.service.ts:21-32 | joins a CREATED opened match as enemy and moves it to `matchs` as FULL, or opens a new match when there is none; the registry invariant is kept |
| Matchs.FindMatch | src/matchs/matchs.service.ts:46-55 | succeeds exactly when the id is in `matchs`, otherwise NotFound "Match (id) not found" |
| Matchs.StartMatch | src/matchs/matchs.service.ts:98-111 | the match becomes IN_PROGRESS and stays in `matchs`; the registry invariant is kept |
| Matchs.CloseMatch | src/matchs/matchs.service.ts:113-127 | the match gets the closing status and leaves `matchs`; the invariant is kept |
| Matchs.CancelMatch | src/matchs/matchs.service.ts:113-127 | the match is CANCELLED and removed |
| Matchs.FinishMatch | src/matchs/matchs.service.ts:153-167 | the match is FINISHED and removed |
| Matchs.CancelPlayerMatch | src/matchs/matchs.service.ts:129-151 | the player's opened match is dropped and returned; otherwise their running match is cancelled; TypeError exactly when another player's match is open or the player has no match |
| Matchs.SaveMatchHistory | src/matchs/matchs.service.ts:89-96 | the current state, set or not, is appended to the history; nothing else changes |
| Matchs.SetGameState | src/matchs/matchs.service.ts:224-230 | only the match's state changes |
| Matchs.GetGameState | src/matchs/matchs.service.ts:232-240 | the stored state; NotFound when the match is missing or has no state |
| Matchs.SetThenGetGameState | src/matchs/matchs.service.ts:224-240 | reading the state back after setting it gives what was set |
| Matchs.SetMap | src/matchs/matchs.service.ts:242-248 | only the match's board changes |
| Matchs.GetPlayerMatchView | src/matchs/matchs.service.ts:169-222 | `isPlayer` exactly when the viewer is the player; the gold is the viewer's own side's; `activeTurn` exactly when a state exists and names the viewer |
| Matchs.TwoPlayersMeet | src/matchs/matchs.service.ts:21-83 | from an empty registry, the first player opens a match and the second joins it; the match is FULL in `matchs` with the first as player and the second as enemy |
| Turns.EndTurn | src/matchs/matchs.gateway.ts:284-287 | the sequence keeps the roster's keys, key consistency and both participants |
| Turns.EndTurnHandsOver | src/matchs/matchs.gateway.ts:284-287 | the turn passes to the other side, which alone is credited 10 gold and has exactly its units refreshed; the previous owner's economy is untouched; solvency is kept |
| Turns.RoundCreditsBothSides | src/matchs/matchs.gateway.ts:284-287 | two ends of turn return the turn to its owner with each side credited 10 gold once |

## Left out

- Transport, rooms, emits, logging and the repository of the services and the gateway are left out. So is every gateway handler except the end-of-turn sequence. They are I/O, and the handlers call service methods that MatchsService, MapsService, CombatService and GamesStateService do not define.
- `deepClone` is the identity: every value here is immutable.
- `uuidv4` is the `freshId` parameter. `Create` requires it to be unused; the random generator is not modelled.
- `Math.random` in `getDamage` is the `roll` parameter, in 0..4. That is `Math.floor(Math.random() * (6 - 1))` with `ATTACK_DAMAGE_EXTRA_MAX = 6`.
- Combat.ScaleUp: the floating-point factor 1.2 is the exact ratio 6/5. Binary rounding of `x * 1.2` is not modelled.
- Paths.ShortestDistance: the heuristic A* search of the `abstract-astar` library (`aStar`) is replaced by breadth-first layers with the same step cost. A hex may be entered when it is on the board and free, or is the goal. The model proves the length of a shortest path; which of several shortest paths A* returns is not modelled.
- Maps.BuildGrid: the library's `rectangle` is modelled as the pointy-top, odd-row offset rectangle: rows 0..height−1, with row r spanning q from −⌊r/2⌋ to width−⌊r/2⌋−1.
- Maps.PopulateMap: `populateMap` writes the roster's units into the stored board `map.grid` in place, so every `distanceToTravel` and `canAtack` call, error paths included, leaves that stored board populated for later calls. The model returns the populated board instead of writing it back; `DistanceToTravel` and `CanAtack` take the stored board as an input, and their contracts hold for every board, including one left populated by earlier calls.
- Hex.Ring1: the library's neighbour order for `ring` is a fixed direction order. `getEnablePositionAroundLeader` takes the first free hex in that order.
- Matchs.FindOpenedMatch: `Array.find` over a map's insertion order is modelled as "some match satisfying the condition". So is the leader lookup. Under the registry invariant there is at most one opened match, so the choice is unique for `FindOpenedMatch`.
- Matchs.CancelPlayerMatch: which of the player's running matches is cancelled is not modelled. The source takes the first one in `matchs` insertion order (src/matchs/matchs.service.ts:138-140), and `findOrCreate` does not stop one player from being in several running matches. The model cancels some running match of the player's. The registry keeps no insertion order, so the choice is not unique when the player is in more than one.
- Matchs.CancelPlayerMatch: the un-awaited `cancelMatch` is modelled as completed before the call returns.
- Matchs.CancelPlayerMatch: reading `enemy.id` of an opened match with no enemy is modelled as a TypeError result, as is reading `id` of a match that was not found.
- GamesState.ResetCurrentPlayerUnitsTurn: each refreshed unit is written back under the key it was read from. The service writes it under the key of its position, which is the same key in a key-consistent roster.
- Matchs.GetPlayerMatchView: the units are returned as the roster map rather than the array of its entries.
- GamesState.GetCurrentPlayerUnits: the `GameStateUnit[]` array, in roster insertion order, is modelled as the owned sub-roster with its keys. No operation of the model depends on that order.
- Three checks one might expect are absent from the code, and the model leaves them out too:
  - `canAtack` (src/maps/maps.service.ts:61-84) reads only the board and the range. It does not read the attacker's `canAttack` flag.
  - `canAttack` (src/combat/combat.service.ts:66-68) returns the attacker's flag alone. It does not compare the two units' owners. `Combat.CanAttack` models it so.
  - `addUnitToGameState` replaces the entry on an occupied key. It does not reject the placement. `GamesState.AddUnitToGameState` models that.
- The intended range comparison is `path length − 1 ≤ range`. The finding below is about this comparison.
- The unit tests exercise an older API (`canAttackUnit`, a 1.5 multiplier, `result.attacker`). They are not modelled.
- The WAITING status is set and overwritten by FULL within one call of `findOrCreate`. It is kept in `FindOpenedMatch` but never survives a registry operation.
- Integer widths: TypeScript numbers are unbounded integers here. The leaders' infinite price is not representable and not used.

## Findings

| source | as written | input that shows it | evidently intended | confidence | as-written member | corrected member |
|---|---|---|---|---|---|---|
| src/maps/maps.service.ts:83 | `distanceToAtack >= range`: the target is attackable only when it is at least `range` steps away | an archer with range 3 next to an enemy unit: the shortest path has 1 step, `1 >= 3` is false, and the attack is refused | the target is attackable when it is within range: some path of at most `range` steps | not executed | Maps.CanAtack, Maps.AdjacentTargetRejected | Maps.CanAttackWithinRange |
| src/maps/maps.service.ts:21-29 | `populateMap` sets the unit of every tile whose key is in the roster but never clears tiles whose key is not | a unit moves from A to B; on the same board object A still carries the unit, so a later move into A fails with "To Tile is not occupied" and paths avoid A | the board mirrors the roster: a tile is occupied exactly when the roster has a unit at its key | not executed | Maps.PopulateMap, Maps.PopulateKeepsStaleOccupant, Maps.DistanceToTravel, Maps.StaleOccupantBlocksMove | Maps.ProjectRoster, Maps.DistanceToTravelOnRoster |
