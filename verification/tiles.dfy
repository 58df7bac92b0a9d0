/** The operations of a hex tile: terrain, gold generation and occupant
    accessors. Each setter returns the updated tile. */
module Tiles {
  import opened Results
  import opened Hex
  import opened Entities

  function GetTerrain(t: Tile): Option<string> {
    t.terrain
  }

  function GetGoldGenerate(t: Tile): int {
    t.goldGenerate
  }

  function GetUnit(t: Tile): Option<GameUnit> {
    t.unit
  }

  /** A tile is occupied exactly when it references a unit. */
  predicate IsOccupied(t: Tile) {
    t.unit != None
  }

  /** A freshly built tile: no occupant, no gold generation, terrain unset. */
  function NewTile(c: Coord): (t: Tile)
    ensures t.coord == c
    ensures !IsOccupied(t) && GetUnit(t) == None
    ensures GetGoldGenerate(t) == 0 && GetTerrain(t) == None
  {
    Tile(c, None, 0, None)
  }

  /** Reading the terrain back gives what was set; nothing else changes. */
  function SetTerrain(t: Tile, terrain: string): (t': Tile)
    ensures GetTerrain(t') == Some(terrain)
    ensures t'.coord == t.coord && GetGoldGenerate(t') == GetGoldGenerate(t) && GetUnit(t') == GetUnit(t)
  {
    t.(terrain := Some(terrain))
  }

  /** Reading the gold generation back gives what was set; nothing else changes. */
  function SetGoldGenerate(t: Tile, goldGenerate: int): (t': Tile)
    ensures GetGoldGenerate(t') == goldGenerate
    ensures t'.coord == t.coord && GetTerrain(t') == GetTerrain(t) && GetUnit(t') == GetUnit(t)
  {
    t.(goldGenerate := goldGenerate)
  }

  /** Reading the occupant back gives what was set, and the tile is occupied
      exactly when a unit was set; nothing else changes. */
  function SetUnit(t: Tile, unit: Option<GameUnit>): (t': Tile)
    ensures GetUnit(t') == unit
    ensures IsOccupied(t') <==> unit.Some?
    ensures t'.coord == t.coord && GetTerrain(t') == GetTerrain(t) && GetGoldGenerate(t') == GetGoldGenerate(t)
  {
    t.(unit := unit)
  }

  /** Setting an occupant and then clearing it gives back an unoccupied tile
      that otherwise equals the original free tile. */
  lemma SetThenClear(t: Tile, u: GameUnit)
    requires !IsOccupied(t)
    ensures SetUnit(SetUnit(t, Some(u)), None) == t
  {
  }
}
