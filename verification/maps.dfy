/** The map service: building the board, projecting the roster onto its
    tiles, validating a move or an attack against the board, and finding a
    free hex next to a leader. Every failure is a `BadRequest`. */
module Maps {
  import opened Results
  import opened Hex
  import opened TileKeys
  import opened Entities
  import opened Tiles
  import opened Paths
  import opened GamesState

  const MapWidth := 20
  const MapHeight := 12

  /** Membership in the `width × height` rectangle the hexagon library lays
      out: rows `r` from 0, each row shifted left by half its index so that
      the rectangle stays rectangular on screen. */
  predicate InRectangle(width: int, height: int, c: Coord) {
    0 <= c.r < height && -(c.r / 2) <= c.q < width - c.r / 2
  }

  /** The hexes of row `row` of a `width`-wide rectangle. */
  predicate InRow(width: int, row: int, c: Coord) {
    c.r == row && -(row / 2) <= c.q < width - row / 2
  }

  /** The hexes of row `row`, collected column by column. */
  method RowCells(width: nat, row: nat) returns (cells: set<Coord>)
    ensures forall c :: c in cells <==> InRow(width, row, c)
    ensures |cells| == width
  {
    cells := {};
    var col := 0;
    while col < width
      invariant 0 <= col <= width
      invariant forall c :: c in cells <==> InRow(width, row, c) && c.q < col - row / 2
      invariant |cells| == col
    {
      cells := cells + {Coord(col - row / 2, row)};
      col := col + 1;
    }
  }

  /** One more row of the rectangle is the old rectangle plus that row. */
  lemma RectangleGrows(width: int, row: nat)
    ensures forall c :: InRectangle(width, row + 1, c) <==> InRectangle(width, row, c) || InRow(width, row, c)
  {
  }

  lemma DisjointUnionSize(a: set<Coord>, b: set<Coord>)
    requires a !! b
    ensures |a + b| == |a| + |b|
  {
  }

  /** The hexes of the rectangle, collected row by row. */
  method RectangleCells(width: nat, height: nat) returns (cells: set<Coord>)
    ensures forall c :: c in cells <==> InRectangle(width, height, c)
    ensures |cells| == width * height
  {
    cells := {};
    var row := 0;
    while row < height
      invariant 0 <= row <= height
      invariant forall c :: c in cells <==> InRectangle(width, row, c)
      invariant |cells| == row * width
    {
      var next := RowCells(width, row);
      DisjointUnionSize(cells, next);
      RectangleGrows(width, row);
      cells := cells + next;
      assert (row + 1) * width == row * width + width;
      row := row + 1;
    }
  }

  /** The rectangle as a grid of fresh tiles. */
  method BuildGrid(width: nat, height: nat) returns (grid: Grid)
    ensures forall c :: c in grid <==> InRectangle(width, height, c)
    ensures forall c :: c in grid ==> grid[c] == NewTile(c)
    ensures |grid| == width * height
  {
    var cells := RectangleCells(width, height);
    grid := map c | c in cells :: NewTile(c);
    assert grid.Keys == cells;
  }

  /** `create`: a 20 × 12 board of fresh tiles, 240 hexes, none occupied. */
  method Create() returns (m: MapTable)
    ensures m.width == MapWidth && m.height == MapHeight
    ensures forall c :: c in m.grid <==> InRectangle(MapWidth, MapHeight, c)
    ensures forall c :: c in m.grid ==> m.grid[c].coord == c && !IsOccupied(m.grid[c]) && GetGoldGenerate(m.grid[c]) == 0
    ensures |m.grid| == 240
  {
    var grid := BuildGrid(MapWidth, MapHeight);
    m := MapTable(MapWidth, MapHeight, grid);
  }

  /** Whether hex `c` reads as occupied once `populateMap` has run: the
      roster has a unit at its key, or its tile still carries one. */
  predicate ShownOccupied(grid: Grid, units: map<string, GameUnit>, c: Coord)
    requires c in grid
  {
    Key(c) in units || IsOccupied(grid[c])
  }

  /** The unit tile `c` carries once `populateMap` has run: the roster's
      unit at its key, or else the tile's earlier occupant. */
  function ShownUnit(grid: Grid, units: map<string, GameUnit>, c: Coord): GameUnit
    requires c in grid && ShownOccupied(grid, units, c)
  {
    if Key(c) in units then units[Key(c)] else GetUnit(grid[c]).value
  }

  /** `populateMap` as written: a tile whose key is in the roster gets that
      unit; any other tile keeps the occupant it already had. */
  function PopulateMap(grid: Grid, units: map<string, GameUnit>): (g: Grid)
    ensures g.Keys == grid.Keys
    ensures forall c :: c in g && Key(c) in units ==> GetUnit(g[c]) == Some(units[Key(c)])
    ensures forall c :: c in g && Key(c) !in units ==> g[c] == grid[c]
    ensures forall c :: c in g ==> (IsOccupied(g[c]) <==> ShownOccupied(grid, units, c))
    ensures forall c :: c in g && IsOccupied(g[c]) ==> GetUnit(g[c]).value == ShownUnit(grid, units, c)
  {
    map c | c in grid :: if Key(c) in units then SetUnit(grid[c], Some(units[Key(c)])) else grid[c]
  }

  /** The projection the roster calls for: every tile's occupant is the
      roster entry at its key, and a tile without an entry is free, whatever
      the grid held before. Terrain and gold generation are kept. */
  function ProjectRoster(grid: Grid, units: map<string, GameUnit>): (g: Grid)
    ensures g.Keys == grid.Keys
    ensures forall c :: c in g ==> (IsOccupied(g[c]) <==> Key(c) in units)
    ensures forall c :: c in g && Key(c) in units ==> GetUnit(g[c]) == Some(units[Key(c)])
    ensures forall c :: c in g ==>
      g[c].coord == grid[c].coord && GetTerrain(g[c]) == GetTerrain(grid[c])
      && GetGoldGenerate(g[c]) == GetGoldGenerate(grid[c])
  {
    map c | c in grid :: SetUnit(grid[c], if Key(c) in units then Some(units[Key(c)]) else None)
  }

  /** On a key-consistent roster a projected hex is occupied exactly when
      some unit stands there, and the occupant is that unit. */
  lemma ProjectionSeesPositions(grid: Grid, units: map<string, GameUnit>, c: Coord)
    requires KeyConsistent(units) && c in grid
    ensures IsOccupied(ProjectRoster(grid, units)[c]) <==>
      exists k :: k in units && units[k].state.position == c
    ensures IsOccupied(ProjectRoster(grid, units)[c]) ==>
      GetUnit(ProjectRoster(grid, units)[c]).value.state.position == c
  {
    if Key(c) in units {
      var p := units[Key(c)].state.position;
      KeyInjective(p, c);
    }
    forall k | k in units && units[k].state.position == c
      ensures Key(c) in units
    {
    }
  }

  /** The projection forgets whatever occupants the grid carried. */
  lemma ProjectionForgetsOccupants(grid: Grid, before: map<string, GameUnit>, units: map<string, GameUnit>)
    ensures ProjectRoster(ProjectRoster(grid, before), units) == ProjectRoster(grid, units)
  {
    var a := ProjectRoster(ProjectRoster(grid, before), units);
    var b := ProjectRoster(grid, units);
    forall c | c in a ensures a[c] == b[c] {
    }
  }

  /** On a grid with no occupants, as `create` builds it, populating and
      projecting agree. */
  lemma PopulateFreshGridIsProjection(grid: Grid, units: map<string, GameUnit>)
    requires forall c :: c in grid ==> !IsOccupied(grid[c])
    ensures PopulateMap(grid, units) == ProjectRoster(grid, units)
  {
    var a := PopulateMap(grid, units);
    var b := ProjectRoster(grid, units);
    forall c | c in a ensures a[c] == b[c] {
      if Key(c) !in units {
        assert grid[c] == SetUnit(grid[c], None);
      }
    }
  }

  /** On a grid reused after a unit moved away, `populateMap` leaves the old
      occupant in place: the hex still reads as occupied although the roster
      has nobody there. */
  lemma PopulateKeepsStaleOccupant(grid: Grid, units: map<string, GameUnit>, c: Coord)
    requires c in grid && IsOccupied(grid[c]) && Key(c) !in units
    ensures IsOccupied(PopulateMap(grid, units)[c])
    ensures !IsOccupied(ProjectRoster(grid, units)[c])
  {
  }

  /** The failures of the map service. The target-hex check fails with the
      same message whether the service wanted the hex free (a move) or
      occupied (an attack). */
  const TileNotFound := BadRequest("Tile not found")
  const FromNotOccupied := BadRequest("From Tile is not occupied")
  const ToTileRejected := BadRequest("To Tile is not occupied")
  const NoPath := BadRequest("No path found")
  const NoMovement := BadRequest("No movement enough")
  const NoFreeSlot := BadRequest("No enable position found")

  /** Both hexes are on the board. */
  predicate BothFound(m: MapTable, from: Coord, to: Coord) {
    from in m.grid && to in m.grid
  }

  /** Some path from `from` to `to` on board `g` has at most `steps`
      steps. */
  ghost predicate PathWithin(g: Grid, from: Coord, to: Coord, steps: int) {
    exists p :: IsPath(g, from, to, p) && |p| - 1 <= steps
  }

  /** The unit an occupied tile of `g` carries. */
  function Occupant(g: Grid, c: Coord): GameUnit
    requires c in g && IsOccupied(g[c])
  {
    GetUnit(g[c]).value
  }

  /** The checks `distanceToTravel` makes once it has a board `g`, in its
      order: both hexes exist, `from` is occupied, `to` is free, a path
      exists, and a shortest one is no longer than the movement left to the
      unit the `from` tile carries. On success, that path's number of
      steps. */
  function TravelOn(g: Grid, from: Coord, to: Coord): (r: Result<nat>)
    ensures r == Err(TileNotFound) <==> from !in g || to !in g
    ensures from in g && to in g ==> (r == Err(FromNotOccupied) <==> !IsOccupied(g[from]))
    ensures from in g && to in g && IsOccupied(g[from]) ==> (r == Err(ToTileRejected) <==> IsOccupied(g[to]))
    ensures r.Ok? <==>
      && from in g && to in g && IsOccupied(g[from]) && !IsOccupied(g[to])
      && PathWithin(g, from, to, Occupant(g, from).state.distanceCanMove)
    ensures r.Ok? ==>
      && (exists p :: IsPath(g, from, to, p) && |p| == r.value + 1)
      && (forall p :: IsPath(g, from, to, p) ==> |p| >= r.value + 1)
      && Distance(from, to) <= r.value <= Occupant(g, from).state.distanceCanMove
    ensures r == Err(NoPath) <==>
      && from in g && to in g && IsOccupied(g[from]) && !IsOccupied(g[to])
      && forall p :: !IsPath(g, from, to, p)
    ensures r.Err? ==> r.error in {TileNotFound, FromNotOccupied, ToTileRejected, NoPath, NoMovement}
  {
    if from !in g || to !in g then Err(TileNotFound)
    else if !IsOccupied(g[from]) then Err(FromNotOccupied)
    else if IsOccupied(g[to]) then Err(ToTileRejected)
    else
      var shortest := ShortestDistance(g, from, to);
      if shortest.None? then Err(NoPath)
      else
        var canMove := Occupant(g, from).state.distanceCanMove;
        if shortest.value > canMove then
          assert !PathWithin(g, from, to, canMove);
          Err(NoMovement)
        else
          assert PathWithin(g, from, to, canMove);
          Ok(shortest.value)
  }

  /** `distanceToTravel` as written: the checks run on the board
      `populateMap` leaves, where a hex reads as occupied when the roster has
      a unit at its key or its tile still carries an earlier occupant, and
      the mover's movement is that of the unit its tile carries. */
  function DistanceToTravel(m: MapTable, units: map<string, GameUnit>, from: Coord, to: Coord): (r: Result<nat>)
    ensures r == Err(TileNotFound) <==> !BothFound(m, from, to)
    ensures BothFound(m, from, to) ==> (r == Err(FromNotOccupied) <==> !ShownOccupied(m.grid, units, from))
    ensures BothFound(m, from, to) && ShownOccupied(m.grid, units, from) ==>
      (r == Err(ToTileRejected) <==> ShownOccupied(m.grid, units, to))
    ensures r.Ok? <==>
      && BothFound(m, from, to) && ShownOccupied(m.grid, units, from) && !ShownOccupied(m.grid, units, to)
      && PathWithin(PopulateMap(m.grid, units), from, to, ShownUnit(m.grid, units, from).state.distanceCanMove)
    ensures r.Ok? ==>
      var g := PopulateMap(m.grid, units);
      && (exists p :: IsPath(g, from, to, p) && |p| == r.value + 1)
      && (forall p :: IsPath(g, from, to, p) ==> |p| >= r.value + 1)
      && Distance(from, to) <= r.value <= ShownUnit(m.grid, units, from).state.distanceCanMove
    ensures r == Err(NoPath) <==>
      && BothFound(m, from, to) && ShownOccupied(m.grid, units, from) && !ShownOccupied(m.grid, units, to)
      && forall p :: !IsPath(PopulateMap(m.grid, units), from, to, p)
    ensures r.Err? ==> r.error in {TileNotFound, FromNotOccupied, ToTileRejected, NoPath, NoMovement}
  {
    TravelOn(PopulateMap(m.grid, units), from, to)
  }

  /** The move check on the board the roster calls for: every failure is
      stated in terms of the roster alone. */
  function DistanceToTravelOnRoster(m: MapTable, units: map<string, GameUnit>, from: Coord, to: Coord): (r: Result<nat>)
    ensures r == Err(TileNotFound) <==> !BothFound(m, from, to)
    ensures BothFound(m, from, to) ==> (r == Err(FromNotOccupied) <==> Key(from) !in units)
    ensures BothFound(m, from, to) && Key(from) in units ==> (r == Err(ToTileRejected) <==> Key(to) in units)
    ensures r.Ok? <==>
      && BothFound(m, from, to) && Key(from) in units && Key(to) !in units
      && PathWithin(ProjectRoster(m.grid, units), from, to, units[Key(from)].state.distanceCanMove)
    ensures r.Ok? ==>
      var g := ProjectRoster(m.grid, units);
      && (exists p :: IsPath(g, from, to, p) && |p| == r.value + 1)
      && (forall p :: IsPath(g, from, to, p) ==> |p| >= r.value + 1)
      && Distance(from, to) <= r.value <= units[Key(from)].state.distanceCanMove
    ensures r == Err(NoPath) <==>
      && BothFound(m, from, to) && Key(from) in units && Key(to) !in units
      && forall p :: !IsPath(ProjectRoster(m.grid, units), from, to, p)
    ensures r.Err? ==> r.error in {TileNotFound, FromNotOccupied, ToTileRejected, NoPath, NoMovement}
  {
    TravelOn(ProjectRoster(m.grid, units), from, to)
  }

  /** A unit moved away from `to` but its tile still carries it: the move
      into `to` from a neighbour is refused as written, although the roster
      has nobody there and the corrected check allows the one-step move. */
  lemma StaleOccupantBlocksMove(m: MapTable, units: map<string, GameUnit>, from: Coord, to: Coord)
    requires BothFound(m, from, to) && Adjacent(from, to)
    requires Key(from) in units && units[Key(from)].state.distanceCanMove >= 1
    requires Key(to) !in units && IsOccupied(m.grid[to])
    ensures DistanceToTravel(m, units, from, to) == Err(ToTileRejected)
    ensures DistanceToTravelOnRoster(m, units, from, to) == Ok(1)
  {
    assert ShownOccupied(m.grid, units, from) && ShownOccupied(m.grid, units, to);
    NeighbourMoveOnRoster(m, units, from, to);
  }

  /** On the roster's board, a unit with movement left reaches a free
      neighbouring hex in exactly one step. */
  lemma NeighbourMoveOnRoster(m: MapTable, units: map<string, GameUnit>, from: Coord, to: Coord)
    requires BothFound(m, from, to) && Adjacent(from, to)
    requires Key(from) in units && units[Key(from)].state.distanceCanMove >= 1
    requires Key(to) !in units
    ensures DistanceToTravelOnRoster(m, units, from, to) == Ok(1)
  {
    var g := ProjectRoster(m.grid, units);
    NeighbourPath(g, from, to);
    assert PathWithin(g, from, to, units[Key(from)].state.distanceCanMove);
    AdjacentIsUnitDistance(from, to);
    var r := DistanceToTravelOnRoster(m, units, from, to);
    assert r.Ok?;
    assert |[from, to]| >= r.value + 1;
  }

  /** The checks `canAtack` makes once it has a board `g`: as for a move,
      except that the target hex must be occupied. On success, the number of
      steps of a shortest path. */
  function AttackDistanceOn(g: Grid, from: Coord, to: Coord): (r: Result<nat>)
    ensures r == Err(TileNotFound) <==> from !in g || to !in g
    ensures from in g && to in g ==> (r == Err(FromNotOccupied) <==> !IsOccupied(g[from]))
    ensures from in g && to in g && IsOccupied(g[from]) ==> (r == Err(ToTileRejected) <==> !IsOccupied(g[to]))
    ensures r == Err(NoPath) <==>
      && from in g && to in g && IsOccupied(g[from]) && IsOccupied(g[to])
      && forall p :: !IsPath(g, from, to, p)
    ensures r.Ok? ==> from in g && to in g && IsOccupied(g[from]) && IsOccupied(g[to])
    ensures r.Err? ==> r.error in {TileNotFound, FromNotOccupied, ToTileRejected, NoPath}
    ensures r.Ok? ==>
      && (exists p :: IsPath(g, from, to, p) && |p| == r.value + 1)
      && (forall p :: IsPath(g, from, to, p) ==> |p| >= r.value + 1)
  {
    if from !in g || to !in g then Err(TileNotFound)
    else if !IsOccupied(g[from]) then Err(FromNotOccupied)
    else if !IsOccupied(g[to]) then Err(ToTileRejected)
    else
      var shortest := ShortestDistance(g, from, to);
      if shortest.None? then Err(NoPath) else Ok(shortest.value)
  }

  /** `canAtack` as written: on the board `populateMap` leaves, it answers
      whether the shortest path is at least the range of the unit the
      attacker's tile carries, that is, whether every path is. */
  function CanAtack(m: MapTable, units: map<string, GameUnit>, from: Coord, to: Coord): (r: Result<bool>)
    ensures r == Err(TileNotFound) <==> !BothFound(m, from, to)
    ensures BothFound(m, from, to) ==> (r == Err(FromNotOccupied) <==> !ShownOccupied(m.grid, units, from))
    ensures BothFound(m, from, to) && ShownOccupied(m.grid, units, from) ==>
      (r == Err(ToTileRejected) <==> !ShownOccupied(m.grid, units, to))
    ensures r == Err(NoPath) <==>
      && BothFound(m, from, to) && ShownOccupied(m.grid, units, from) && ShownOccupied(m.grid, units, to)
      && forall p :: !IsPath(PopulateMap(m.grid, units), from, to, p)
    ensures r.Ok? ==> BothFound(m, from, to) && ShownOccupied(m.grid, units, from) && ShownOccupied(m.grid, units, to)
    ensures r.Err? ==> r.error in {TileNotFound, FromNotOccupied, ToTileRejected, NoPath}
    ensures r.Ok? ==> (r.value <==>
      forall p :: IsPath(PopulateMap(m.grid, units), from, to, p) ==> |p| - 1 >= ShownUnit(m.grid, units, from).unit.range)
  {
    var g := PopulateMap(m.grid, units);
    var d :- AttackDistanceOn(g, from, to);
    Ok(d >= Occupant(g, from).unit.range)
  }

  /** The attack check corrected in both respects: on the board the roster
      calls for, the target is within range when some path to it is no longer
      than the range. */
  function CanAttackWithinRange(m: MapTable, units: map<string, GameUnit>, from: Coord, to: Coord): (r: Result<bool>)
    ensures r == Err(TileNotFound) <==> !BothFound(m, from, to)
    ensures BothFound(m, from, to) ==> (r == Err(FromNotOccupied) <==> Key(from) !in units)
    ensures BothFound(m, from, to) && Key(from) in units ==> (r == Err(ToTileRejected) <==> Key(to) !in units)
    ensures r == Err(NoPath) <==>
      && BothFound(m, from, to) && Key(from) in units && Key(to) in units
      && forall p :: !IsPath(ProjectRoster(m.grid, units), from, to, p)
    ensures r.Ok? ==> BothFound(m, from, to) && Key(from) in units && Key(to) in units
    ensures r.Err? ==> r.error in {TileNotFound, FromNotOccupied, ToTileRejected, NoPath}
    ensures r.Ok? ==> (r.value <==> PathWithin(ProjectRoster(m.grid, units), from, to, units[Key(from)].unit.range))
  {
    var g := ProjectRoster(m.grid, units);
    var d :- AttackDistanceOn(g, from, to);
    var range := Occupant(g, from).unit.range;
    assert d <= range <==> PathWithin(g, from, to, range);
    Ok(d <= range)
  }

  /** Two neighbouring hexes of the board are joined by a one-step path. */
  lemma NeighbourPath(g: Grid, from: Coord, to: Coord)
    requires from in g && to in g && Adjacent(from, to)
    ensures IsPath(g, from, to, [from, to])
  {
  }

  /** With the comparison as written, an attacker whose range exceeds one
      cannot attack a unit standing right next to it, although the corrected
      check lets it. */
  lemma AdjacentTargetRejected(m: MapTable, units: map<string, GameUnit>, from: Coord, to: Coord)
    requires BothFound(m, from, to) && Key(from) in units && Key(to) in units
    requires Adjacent(from, to) && units[Key(from)].unit.range > 1
    ensures CanAtack(m, units, from, to) == Ok(false)
    ensures CanAttackWithinRange(m, units, from, to) == Ok(true)
  {
    AdjacentRejectedAsWritten(m, units, from, to);
    AdjacentWithinRange(m, units, from, to);
  }

  /** The as-written half of `AdjacentTargetRejected`: the one-step path is
      shorter than the range, so not every path reaches it. */
  lemma AdjacentRejectedAsWritten(m: MapTable, units: map<string, GameUnit>, from: Coord, to: Coord)
    requires BothFound(m, from, to) && Key(from) in units && Key(to) in units
    requires Adjacent(from, to) && units[Key(from)].unit.range > 1
    ensures CanAtack(m, units, from, to) == Ok(false)
  {
    var g := PopulateMap(m.grid, units);
    NeighbourPath(g, from, to);
    assert ShownOccupied(m.grid, units, from) && ShownOccupied(m.grid, units, to);
    assert ShownUnit(m.grid, units, from) == units[Key(from)];
    var r := CanAtack(m, units, from, to);
    assert r.Ok?;
    assert !(|[from, to]| - 1 >= units[Key(from)].unit.range);
  }

  /** The corrected half of `AdjacentTargetRejected`: the one-step path is
      within the range. */
  lemma AdjacentWithinRange(m: MapTable, units: map<string, GameUnit>, from: Coord, to: Coord)
    requires BothFound(m, from, to) && Key(from) in units && Key(to) in units
    requires Adjacent(from, to) && units[Key(from)].unit.range > 1
    ensures CanAttackWithinRange(m, units, from, to) == Ok(true)
  {
    var g := ProjectRoster(m.grid, units);
    NeighbourPath(g, from, to);
    assert PathWithin(g, from, to, units[Key(from)].unit.range);
    var r := CanAttackWithinRange(m, units, from, to);
    assert r.Ok?;
  }

  /** A hex where a new unit may be placed: on the board and without a
      roster entry. */
  predicate FreeSlot(grid: Grid, units: map<string, GameUnit>, c: Coord) {
    c in grid && Key(c) !in units
  }

  /** The index of the first free slot of `ring` at or after `i`. */
  function FirstFreeIndex(ring: seq<Coord>, grid: Grid, units: map<string, GameUnit>, i: nat): (r: Option<nat>)
    requires i <= |ring|
    ensures r.Some? ==> i <= r.value < |ring| && FreeSlot(grid, units, ring[r.value])
    ensures r.Some? ==> forall j :: i <= j < r.value ==> !FreeSlot(grid, units, ring[j])
    ensures r.None? <==> forall j :: i <= j < |ring| ==> !FreeSlot(grid, units, ring[j])
    decreases |ring| - i
  {
    if i == |ring| then None
    else if FreeSlot(grid, units, ring[i]) then Some(i)
    else
      var r := FirstFreeIndex(ring, grid, units, i + 1);
      assert !FreeSlot(grid, units, ring[i]);
      r
  }

  /** `getEnablePositionAroundLeader`: the first neighbour of `position`, in
      ring order, that is on the board and has no roster entry; "No enable
      position found" exactly when every neighbour on the board is taken. */
  function GetEnablePositionAroundLeader(m: MapTable, units: map<string, GameUnit>, position: Coord): (r: Result<Coord>)
    ensures r.Ok? ==> FreeSlot(m.grid, units, r.value) && Distance(position, r.value) == 1
    ensures r.Ok? ==> exists i :: (0 <= i < 6 && Ring1(position)[i] == r.value
      && forall j :: 0 <= j < i ==> !FreeSlot(m.grid, units, Ring1(position)[j]))
    ensures r.Err? <==> forall c :: Distance(position, c) == 1 ==> !FreeSlot(m.grid, units, c)
    ensures r.Err? ==> r.error == NoFreeSlot
  {
    var ring := Ring1(position);
    match FirstFreeIndex(ring, m.grid, units, 0)
    case Some(i) =>
      Ring1IsUnitDistance(position, ring[i]);
      Ok(ring[i])
    case None =>
      assert forall c :: Distance(position, c) == 1 ==> !FreeSlot(m.grid, units, c) by {
        forall c | Distance(position, c) == 1 ensures !FreeSlot(m.grid, units, c) {
          Ring1IsUnitDistance(position, c);
          var j :| 0 <= j < |ring| && ring[j] == c;
        }
      }
      Err(NoFreeSlot)
  }
}
