/** The data shapes the services exchange: the unit catalogue entry, a unit
    on the board with its runtime state, the per-match game state, the hex
    tile, the map and the match record. Numbers are unbounded integers. */
module Entities {
  import opened Results
  import opened Hex

  /** A catalogue entry (`Unit`): the template a board unit is made from.
      `levelUp` rewrites the copy a board unit carries, never the catalogue. */
  datatype UnitTemplate = UnitTemplate(
    id: string,
    leader: bool,
    unitClass: string,
    name: string,
    price: int,
    health: int,
    attack: int,
    defense: int,
    movement: int,
    range: int)

  /** The runtime fields of a unit on the board (`GameStateUnitState`). */
  datatype UnitState = UnitState(
    playerId: string,
    health: int,
    experience: int,
    level: int,
    distanceCanMove: int,
    position: Coord,
    canAttack: bool)

  /** A unit on the board (`GameStateUnit`): its id, its own copy of the
      template and its runtime state. */
  datatype GameUnit = GameUnit(id: string, unit: UnitTemplate, state: UnitState)

  /** `Partial<GameStateUnitState>`: every field present or absent. */
  datatype StatePatch = StatePatch(
    playerId: Option<string>,
    health: Option<int>,
    experience: Option<int>,
    level: Option<int>,
    distanceCanMove: Option<int>,
    position: Option<Coord>,
    canAttack: Option<bool>)

  const EmptyPatch := StatePatch(None, None, None, None, None, None, None)

  /** One side's economy (`GameStatePlayer`). */
  datatype Economy = Economy(id: string, gold: int)

  /** The state of one match: whose turn it is, the roster keyed by
      `getUnitKey(position)`, and the two economies. */
  datatype GameState = GameState(
    currentPlayer: string,
    units: map<string, GameUnit>,
    player: Economy,
    enemy: Economy)

  /** A participant. */
  datatype Player = Player(id: string, name: string)

  /** A hex of the board: terrain tag (unset on a fresh tile), gold
      generation and the occupant reference (`null` when free). */
  datatype Tile = Tile(coord: Coord, terrain: Option<string>, goldGenerate: int, unit: Option<GameUnit>)

  /** `MapTable` with the grid the service attaches to it. */
  datatype MapTable = MapTable(width: int, height: int, grid: map<Coord, Tile>)

  datatype MatchStatus = Created | Waiting | Full | InProgress | Cancelled | Finished

  /** A match record. `enemy`, `map` and `state` are unset until the second
      player joins, the map (`board`) is built and the game starts. `history` holds the
      snapshots pushed by `saveMatchHistory`, which pushes `state` even when
      it is unset. */
  datatype Match = Match(
    id: string,
    player: Player,
    enemy: Option<Player>,
    board: Option<MapTable>,
    state: Option<GameState>,
    status: MatchStatus,
    history: seq<Option<GameState>>)
}
