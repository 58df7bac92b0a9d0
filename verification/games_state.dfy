/** The copy-on-write game-state engine: turn owner, economies and the unit
    roster. Every operation takes a state and returns a new one (the service
    deep-clones its argument first; with immutable values that is the
    identity). Failures are `Err` values and produce no new state. */
module GamesState {
  import opened Results
  import opened Hex
  import opened TileKeys
  import opened Entities

  const GoldPerTurn := 10
  const StartingGold := 100

  /** The roster invariant: every entry is stored under the key of its own
      position. */
  predicate KeyConsistent(units: map<string, GameUnit>) {
    forall k :: k in units ==> k == Key(units[k].state.position)
  }

  /** Neither economy is in debt. */
  predicate GoldNonNegative(gs: GameState) {
    gs.player.gold >= 0 && gs.enemy.gold >= 0
  }

  /** The economy of the side whose turn it is: `player` when the turn owner
      is the player's id, otherwise `enemy`. */
  function CurrentEconomy(gs: GameState): Economy {
    if gs.currentPlayer == gs.player.id then gs.player else gs.enemy
  }

  /** The economy of the side that is not the turn owner. */
  function OtherEconomy(gs: GameState): Economy {
    if gs.currentPlayer == gs.player.id then gs.enemy else gs.player
  }

  /** A unit is owned by the side whose turn it is. */
  predicate OwnedByCurrent(gs: GameState, u: GameUnit) {
    u.state.playerId == gs.currentPlayer
  }

  /** The state a match starts with: the player moves first, nobody has any
      unit and both sides hold the starting gold. */
  function CreateGameState(m: Match): (gs: GameState)
    requires m.enemy.Some?
    ensures gs.currentPlayer == m.player.id && CurrentEconomy(gs).id == m.player.id
    ensures OtherEconomy(gs).id == m.enemy.value.id
    ensures |gs.units| == 0 && KeyConsistent(gs.units)
    ensures CurrentEconomy(gs).gold == StartingGold && OtherEconomy(gs).gold == StartingGold
    ensures GoldNonNegative(gs)
  {
    GameState(m.player.id, map[], Economy(m.player.id, StartingGold), Economy(m.enemy.value.id, StartingGold))
  }

  /** Hands the turn to the enemy when the player holds it, and to the
      player in every other case. The roster and the economies are kept. */
  function ToggleCurrentPlayer(gs: GameState): (r: GameState)
    ensures gs.currentPlayer == gs.player.id ==> r.currentPlayer == gs.enemy.id
    ensures gs.currentPlayer != gs.player.id ==> r.currentPlayer == gs.player.id
    ensures r.units == gs.units && r.player == gs.player && r.enemy == gs.enemy
  {
    gs.(currentPlayer := if gs.currentPlayer == gs.player.id then gs.enemy.id else gs.player.id)
  }

  /** The turn owner is one of the two participants, and they are distinct. */
  predicate TwoSided(gs: GameState) {
    gs.player.id != gs.enemy.id && (gs.currentPlayer == gs.player.id || gs.currentPlayer == gs.enemy.id)
  }

  /** With two distinct participants, toggling changes the turn owner, the
      result is still two-sided, and toggling twice is the identity. */
  lemma ToggleTwiceIsIdentity(gs: GameState)
    requires TwoSided(gs)
    ensures TwoSided(ToggleCurrentPlayer(gs))
    ensures ToggleCurrentPlayer(gs).currentPlayer != gs.currentPlayer
    ensures CurrentEconomy(ToggleCurrentPlayer(gs)) == OtherEconomy(gs)
    ensures ToggleCurrentPlayer(ToggleCurrentPlayer(gs)) == gs
  {
  }

  /** `amount || GOLD_PER_TURN`: an absent or zero amount credits the
      per-turn income instead. */
  function Credit(amount: Option<int>): (c: int)
    ensures amount == None || amount == Some(0) ==> c == GoldPerTurn
    ensures amount.Some? && amount.value != 0 ==> c == amount.value
  {
    match amount
    case None => GoldPerTurn
    case Some(a) => if a == 0 then GoldPerTurn else a
  }

  /** Credits the turn owner's economy; the other economy, the turn owner
      and the roster are unchanged. */
  function IncreaseCurrentPlayerGold(gs: GameState, amount: Option<int>): (r: GameState)
    ensures r.currentPlayer == gs.currentPlayer && r.units == gs.units
    ensures CurrentEconomy(r).id == CurrentEconomy(gs).id
    ensures CurrentEconomy(r).gold == CurrentEconomy(gs).gold + Credit(amount)
    ensures OtherEconomy(r) == OtherEconomy(gs)
    ensures r.player.id == gs.player.id && r.enemy.id == gs.enemy.id
  {
    if gs.currentPlayer == gs.player.id then
      gs.(player := gs.player.(gold := gs.player.gold + Credit(amount)))
    else
      gs.(enemy := gs.enemy.(gold := gs.enemy.gold + Credit(amount)))
  }

  /** Debits the turn owner's economy, refusing with "Not enough gold" when
      the balance would go below zero; the other economy, the turn owner and
      the roster are unchanged. */
  function DecreaseCurrentPlayerGold(gs: GameState, amount: int): (r: Result<GameState>)
    ensures r.Err? <==> CurrentEconomy(gs).gold - amount < 0
    ensures r.Err? ==> r.error == NotAcceptable("Not enough gold")
    ensures r.Ok? ==> CurrentEconomy(r.value).gold == CurrentEconomy(gs).gold - amount >= 0
    ensures r.Ok? ==> CurrentEconomy(r.value).id == CurrentEconomy(gs).id
    ensures r.Ok? ==> OtherEconomy(r.value) == OtherEconomy(gs)
    ensures r.Ok? ==> r.value.currentPlayer == gs.currentPlayer && r.value.units == gs.units
    ensures r.Ok? ==> r.value.player.id == gs.player.id && r.value.enemy.id == gs.enemy.id
  {
    if gs.currentPlayer == gs.player.id then
      var newAmount := gs.player.gold - amount;
      if newAmount < 0 then Err(NotAcceptable("Not enough gold"))
      else Ok(gs.(player := gs.player.(gold := newAmount)))
    else
      var newAmount := gs.enemy.gold - amount;
      if newAmount < 0 then Err(NotAcceptable("Not enough gold"))
      else Ok(gs.(enemy := gs.enemy.(gold := newAmount)))
  }

  /** A successful debit keeps both economies out of debt. */
  lemma DecreaseKeepsGoldNonNegative(gs: GameState, amount: int)
    requires GoldNonNegative(gs)
    requires DecreaseCurrentPlayerGold(gs, amount).Ok?
    ensures GoldNonNegative(DecreaseCurrentPlayerGold(gs, amount).value)
  {
  }

  /** Crediting a non-zero amount and then debiting the same amount gives
      back the original state; so does a successful debit followed by a
      credit of the same amount. */
  lemma IncreaseThenDecrease(gs: GameState, amount: int)
    requires amount != 0 && CurrentEconomy(gs).gold >= 0
    ensures DecreaseCurrentPlayerGold(IncreaseCurrentPlayerGold(gs, Some(amount)), amount) == Ok(gs)
  {
  }

  lemma DecreaseThenIncrease(gs: GameState, amount: int)
    requires amount != 0 && DecreaseCurrentPlayerGold(gs, amount).Ok?
    ensures IncreaseCurrentPlayerGold(DecreaseCurrentPlayerGold(gs, amount).value, Some(amount)) == gs
  {
  }

  /** Looks a unit up by the key of `position`; "Unit not found" when the
      key is absent. In a key-consistent roster the unit found stands at
      `position`. */
  function GetUnitFromGameState(gs: GameState, position: Coord): (r: Result<GameUnit>)
    ensures r.Ok? <==> Key(position) in gs.units
    ensures r.Ok? ==> r.value == gs.units[Key(position)]
    ensures r.Ok? ==> r.value in gs.units.Values
    ensures r.Ok? && KeyConsistent(gs.units) ==> r.value.state.position == position
    ensures r.Err? ==> r.error == NotFound("Unit not found")
  {
    if Key(position) in gs.units then
      var u := gs.units[Key(position)];
      assert KeyConsistent(gs.units) ==> u.state.position == position by {
        if KeyConsistent(gs.units) {
          KeyInjective(u.state.position, position);
        }
      }
      Ok(u)
    else Err(NotFound("Unit not found"))
  }

  /** Drops the entry at the key of `position` (if any); every other entry,
      the turn owner and the economies are unchanged. */
  function RemoveUnitFromGameState(gs: GameState, position: Coord): (r: GameState)
    ensures r.units.Keys == gs.units.Keys - {Key(position)}
    ensures forall k :: k in r.units ==> r.units[k] == gs.units[k]
    ensures KeyConsistent(gs.units) ==> KeyConsistent(r.units)
    ensures r.currentPlayer == gs.currentPlayer && r.player == gs.player && r.enemy == gs.enemy
  {
    gs.(units := gs.units - {Key(position)})
  }

  /** The unit `addUnitToGameState` creates from a catalogue entry. */
  function NewUnit(gs: GameState, unit: UnitTemplate, position: Coord, canMove: bool, freshId: string): GameUnit {
    GameUnit(freshId, unit,
      UnitState(gs.currentPlayer, unit.health, 0, 1, if canMove then unit.movement else 0, position, false))
  }

  /** Places a new unit at `position`, owned by the turn owner, at full
      template health, level 1, no experience, unable to attack, and able to
      move its template movement only when `canMove`. There is no occupancy
      check: an entry already at that key is replaced. Every other entry is
      unchanged and key consistency is kept. */
  function AddUnitToGameState(gs: GameState, unit: UnitTemplate, position: Coord, canMove: bool, freshId: string): (r: GameState)
    ensures r.units.Keys == gs.units.Keys + {Key(position)}
    ensures GetUnitFromGameState(r, position).Ok?
    ensures var u := r.units[Key(position)];
      && u.id == freshId && u.unit == unit
      && u.state.playerId == gs.currentPlayer && u.state.position == position
      && u.state.health == unit.health && u.state.experience == 0 && u.state.level == 1
      && !u.state.canAttack
      && u.state.distanceCanMove == (if canMove then unit.movement else 0)
    ensures forall k :: k in gs.units && k != Key(position) ==> r.units[k] == gs.units[k]
    ensures KeyConsistent(gs.units) ==> KeyConsistent(r.units)
    ensures r.currentPlayer == gs.currentPlayer && r.player == gs.player && r.enemy == gs.enemy
  {
    gs.(units := gs.units[Key(position) := NewUnit(gs, unit, position, canMove, freshId)])
  }

  /** Placing a unit on a free key and removing it again restores the
      state. */
  lemma AddThenRemove(gs: GameState, unit: UnitTemplate, position: Coord, canMove: bool, freshId: string)
    requires Key(position) !in gs.units
    ensures RemoveUnitFromGameState(AddUnitToGameState(gs, unit, position, canMove, freshId), position) == gs
    ensures GetUnitFromGameState(RemoveUnitFromGameState(AddUnitToGameState(gs, unit, position, canMove, freshId), position), position).Err?
  {
    var added := AddUnitToGameState(gs, unit, position, canMove, freshId);
    assert added.units - {Key(position)} == gs.units;
  }

  /** Placing a unit on a free key makes the roster one entry larger. */
  lemma AddToFreeKeyGrows(gs: GameState, unit: UnitTemplate, position: Coord, canMove: bool, freshId: string)
    requires Key(position) !in gs.units
    ensures |AddUnitToGameState(gs, unit, position, canMove, freshId).units| == |gs.units| + 1
  {
  }

  /** Upserts `u` under the key of its own position; every other entry is
      unchanged and key consistency is kept. */
  function UpdateUnitInGameState(gs: GameState, u: GameUnit): (r: GameState)
    ensures GetUnitFromGameState(r, u.state.position) == Ok(u)
    ensures r.units.Keys == gs.units.Keys + {Key(u.state.position)}
    ensures forall k :: k in gs.units && k != Key(u.state.position) ==> r.units[k] == gs.units[k]
    ensures KeyConsistent(gs.units) ==> KeyConsistent(r.units)
    ensures r.currentPlayer == gs.currentPlayer && r.player == gs.player && r.enemy == gs.enemy
  {
    gs.(units := gs.units[Key(u.state.position) := u])
  }

  /** `{...state, ...patch}`: every field the patch carries overrides the
      state's, the others are kept. */
  function ApplyPatch(s: UnitState, p: StatePatch): (s': UnitState)
    ensures p.playerId.Some? ==> s'.playerId == p.playerId.value
    ensures p.playerId.None? ==> s'.playerId == s.playerId
    ensures p.health.Some? ==> s'.health == p.health.value
    ensures p.health.None? ==> s'.health == s.health
    ensures p.experience.Some? ==> s'.experience == p.experience.value
    ensures p.experience.None? ==> s'.experience == s.experience
    ensures p.level.Some? ==> s'.level == p.level.value
    ensures p.level.None? ==> s'.level == s.level
    ensures p.distanceCanMove.Some? ==> s'.distanceCanMove == p.distanceCanMove.value
    ensures p.distanceCanMove.None? ==> s'.distanceCanMove == s.distanceCanMove
    ensures p.position.Some? ==> s'.position == p.position.value
    ensures p.position.None? ==> s'.position == s.position
    ensures p.canAttack.Some? ==> s'.canAttack == p.canAttack.value
    ensures p.canAttack.None? ==> s'.canAttack == s.canAttack
    ensures p == EmptyPatch ==> s' == s
  {
    UnitState(
      if p.playerId.Some? then p.playerId.value else s.playerId,
      if p.health.Some? then p.health.value else s.health,
      if p.experience.Some? then p.experience.value else s.experience,
      if p.level.Some? then p.level.value else s.level,
      if p.distanceCanMove.Some? then p.distanceCanMove.value else s.distanceCanMove,
      if p.position.Some? then p.position.value else s.position,
      if p.canAttack.Some? then p.canAttack.value else s.canAttack)
  }

  /** Merges `patch` into the state of the unit found at `position`
      ("Unit not found" when there is none). When the patch carries a
      position the entry is re-keyed: the key of the unit's old position is
      dropped and the merged unit is stored under the key of the new one;
      otherwise it is stored back under the key of its own position. In a
      key-consistent roster the result is key-consistent, the merged unit
      sits at the key of its final position, the key of `position` is gone
      when the unit moved to another hex, and no other entry changes. */
  function UpdateUnitStateInGameState(gs: GameState, position: Coord, patch: StatePatch): (r: Result<GameState>)
    ensures r.Err? <==> Key(position) !in gs.units
    ensures r.Err? ==> r.error == NotFound("Unit not found")
    ensures r.Ok? ==> r.value.currentPlayer == gs.currentPlayer && r.value.player == gs.player && r.value.enemy == gs.enemy
    ensures r.Ok? && KeyConsistent(gs.units) ==>
      var u := gs.units[Key(position)];
      var merged := u.(state := ApplyPatch(u.state, patch));
      && KeyConsistent(r.value.units)
      && GetUnitFromGameState(r.value, merged.state.position) == Ok(merged)
      && (merged.state.position != position ==> Key(position) !in r.value.units)
      && (forall k :: k != Key(position) && k != Key(merged.state.position) ==>
            (k in r.value.units <==> k in gs.units) && (k in gs.units ==> r.value.units[k] == gs.units[k]))
  {
    var u :- GetUnitFromGameState(gs, position);
    var merged := u.(state := ApplyPatch(u.state, patch));
    if patch.position.Some? then
      var r := gs.(units := (gs.units - {Key(u.state.position)})[Key(patch.position.value) := merged]);
      assert KeyConsistent(gs.units) && merged.state.position != position ==> Key(position) !in r.units by {
        KeyInjective(merged.state.position, position);
      }
      Ok(r)
    else
      Ok(gs.(units := gs.units[Key(u.state.position) := merged]))
  }

  /** Moves the unit at `from` to `to`, spending `distance` movement. Fails
      with "Unit not found" when `from` is empty, "Not your unit" when the
      unit belongs to the side that is not moving, and "No movement energy
      enough" when the unit has less movement left than `distance`, in that
      order. On success the key of `from` is gone (unless `to == from`), the
      key of `to` holds the unit with its new position and reduced
      movement, and no other entry changes. */
  function MoveUnitFromTo(gs: GameState, from: Coord, to: Coord, distance: int): (r: Result<GameState>)
    ensures Key(from) !in gs.units ==> r == Err(NotFound("Unit not found"))
    ensures Key(from) in gs.units && !OwnedByCurrent(gs, gs.units[Key(from)]) ==>
      r == Err(NotAcceptable("Not your unit"))
    ensures Key(from) in gs.units && OwnedByCurrent(gs, gs.units[Key(from)]) ==>
      (r.Err? <==> gs.units[Key(from)].state.distanceCanMove < distance)
    ensures r.Err? && Key(from) in gs.units && OwnedByCurrent(gs, gs.units[Key(from)]) ==>
      r.error == NotAcceptable("No movement energy enough")
    ensures r.Ok? ==>
      var u := gs.units[Key(from)];
      && GetUnitFromGameState(r.value, to)
           == Ok(u.(state := u.state.(position := to, distanceCanMove := u.state.distanceCanMove - distance)))
      && r.value.units[Key(to)].state.distanceCanMove >= 0
      && (from != to ==> Key(from) !in r.value.units)
      && (forall k :: k != Key(from) && k != Key(to) ==>
            (k in r.value.units <==> k in gs.units) && (k in gs.units ==> r.value.units[k] == gs.units[k]))
      && (KeyConsistent(gs.units) ==> KeyConsistent(r.value.units))
      && r.value.currentPlayer == gs.currentPlayer && r.value.player == gs.player && r.value.enemy == gs.enemy
  {
    var u :- GetUnitFromGameState(gs, from);
    if u.state.playerId != gs.currentPlayer then Err(NotAcceptable("Not your unit"))
    else
      var newDistanceCanMove := u.state.distanceCanMove - distance;
      if newDistanceCanMove < 0 then Err(NotAcceptable("No movement energy enough"))
      else
        var moved := u.(state := u.state.(position := to, distanceCanMove := newDistanceCanMove));
        assert from != to ==> Key(from) != Key(to) by { KeyInjective(from, to); }
        Ok(gs.(units := (gs.units - {Key(from)})[Key(to) := moved]))
  }

  /** A move is the state patch of position and remaining movement applied
      through `updateUnitStateInGameState`, once the move's checks pass. */
  lemma MoveIsPositionPatch(gs: GameState, from: Coord, to: Coord, distance: int)
    requires KeyConsistent(gs.units)
    requires MoveUnitFromTo(gs, from, to, distance).Ok?
    ensures var u := gs.units[Key(from)];
      MoveUnitFromTo(gs, from, to, distance)
        == UpdateUnitStateInGameState(gs, from,
             EmptyPatch.(position := Some(to), distanceCanMove := Some(u.state.distanceCanMove - distance)))
  {
    assert Key(from) in gs.units;
    assert OwnedByCurrent(gs, gs.units[Key(from)]);
    MoveRekeys(gs, from, to, distance);
    PositionPatchRekeys(gs, from, to, gs.units[Key(from)].state.distanceCanMove - distance);
  }

  /** A successful move drops the key of `from` and stores the moved unit
      under the key of `to`. */
  lemma MoveRekeys(gs: GameState, from: Coord, to: Coord, distance: int)
    requires Key(from) in gs.units && OwnedByCurrent(gs, gs.units[Key(from)])
    requires gs.units[Key(from)].state.distanceCanMove >= distance
    ensures var u := gs.units[Key(from)];
      MoveUnitFromTo(gs, from, to, distance)
        == Ok(gs.(units := (gs.units - {Key(from)})[Key(to) := u.(state := u.state.(position := to, distanceCanMove := u.state.distanceCanMove - distance))]))
  {
  }

  /** The position-and-movement patch on the unit standing at `from` drops
      the key of `from` and stores the moved unit under the key of `to`. */
  lemma PositionPatchRekeys(gs: GameState, from: Coord, to: Coord, left: int)
    requires KeyConsistent(gs.units) && Key(from) in gs.units
    ensures var u := gs.units[Key(from)];
      UpdateUnitStateInGameState(gs, from, EmptyPatch.(position := Some(to), distanceCanMove := Some(left)))
        == Ok(gs.(units := (gs.units - {Key(from)})[Key(to) := u.(state := u.state.(position := to, distanceCanMove := left))]))
  {
    var u := gs.units[Key(from)];
    assert u.state.position == from by { KeyInjective(u.state.position, from); }
    var patch := EmptyPatch.(position := Some(to), distanceCanMove := Some(left));
    assert ApplyPatch(u.state, patch) == u.state.(position := to, distanceCanMove := left);
  }

  /** Every unit has between zero and its template movement left. */
  predicate MovementBounded(gs: GameState) {
    forall k :: k in gs.units ==> 0 <= gs.units[k].state.distanceCanMove <= gs.units[k].unit.movement
  }

  /** A move over a non-negative distance keeps every unit's remaining
      movement within bounds. */
  lemma MoveKeepsMovementBounded(gs: GameState, from: Coord, to: Coord, distance: int)
    requires MovementBounded(gs) && distance >= 0
    requires MoveUnitFromTo(gs, from, to, distance).Ok?
    ensures MovementBounded(MoveUnitFromTo(gs, from, to, distance).value)
  {
    var r := MoveUnitFromTo(gs, from, to, distance).value;
    forall k | k in r.units
      ensures 0 <= r.units[k].state.distanceCanMove <= r.units[k].unit.movement
    {
      if k != Key(to) {
        assert k != Key(from) && k in gs.units;
      }
    }
  }

  /** The roster entries owned by the turn owner. */
  function GetCurrentPlayerUnits(gs: GameState): (owned: map<string, GameUnit>)
    ensures forall k :: k in owned <==> k in gs.units && OwnedByCurrent(gs, gs.units[k])
    ensures forall k :: k in owned ==> owned[k] == gs.units[k]
  {
    map k | k in gs.units && OwnedByCurrent(gs, gs.units[k]) :: gs.units[k]
  }

  /** A unit refreshed for a new turn: full movement and able to attack. */
  function Refreshed(u: GameUnit): GameUnit {
    u.(state := u.state.(distanceCanMove := u.unit.movement, canAttack := true))
  }

  /** Restores every unit of the turn owner to its template movement and
      lets it attack again; units of the other side are untouched and no
      entry is added or removed. */
  function ResetCurrentPlayerUnitsTurn(gs: GameState): (r: GameState)
    ensures r.units.Keys == gs.units.Keys
    ensures forall k :: k in gs.units && OwnedByCurrent(gs, gs.units[k]) ==>
      var u, u' := gs.units[k], r.units[k];
      && u'.state.distanceCanMove == u.unit.movement && u'.state.canAttack
      && u'.id == u.id && u'.unit == u.unit
      && u'.state.(distanceCanMove := u.state.distanceCanMove, canAttack := u.state.canAttack) == u.state
    ensures forall k :: k in gs.units && !OwnedByCurrent(gs, gs.units[k]) ==> r.units[k] == gs.units[k]
    ensures KeyConsistent(gs.units) ==> KeyConsistent(r.units)
    ensures r.currentPlayer == gs.currentPlayer && r.player == gs.player && r.enemy == gs.enemy
  {
    var owned := GetCurrentPlayerUnits(gs);
    gs.(units := map k | k in gs.units :: if k in owned then Refreshed(owned[k]) else gs.units[k])
  }

  /** Resetting twice is resetting once, and a reset keeps remaining
      movement within bounds. */
  lemma ResetIdempotent(gs: GameState)
    ensures ResetCurrentPlayerUnitsTurn(ResetCurrentPlayerUnitsTurn(gs)) == ResetCurrentPlayerUnitsTurn(gs)
  {
  }

  lemma ResetKeepsMovementBounded(gs: GameState)
    requires MovementBounded(gs)
    ensures MovementBounded(ResetCurrentPlayerUnitsTurn(gs))
  {
  }

  /** A leader of the side whose turn it is. */
  predicate IsCurrentLeader(gs: GameState, u: GameUnit) {
    u.unit.leader && OwnedByCurrent(gs, u)
  }

  /** Some leader unit owned by the turn owner ("Leader not found" when
      there is none). Which one is returned when there are several depends on
      the roster's iteration order and is left open. */
  method GetCurrentPlayerLeader(gs: GameState) returns (r: Result<GameUnit>)
    ensures r.Err? <==> forall k :: k in gs.units ==> !IsCurrentLeader(gs, gs.units[k])
    ensures r.Err? ==> r.error == NotFound("Leader not found")
    ensures r.Ok? ==> r.value in gs.units.Values && IsCurrentLeader(gs, r.value)
  {
    if k :| k in gs.units && IsCurrentLeader(gs, gs.units[k]) {
      r := Ok(gs.units[k]);
    } else {
      r := Err(NotFound("Leader not found"));
    }
  }
}
