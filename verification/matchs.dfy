/** The in-memory match registry: matches waiting for a second player live
    in `openedMatchs`, matches with two players in `matchs`. The service
    mutates shared match objects in place; here every operation returns the
    new registry together with the match it touched. */
module Matchs {
  import opened Results
  import opened Entities

  datatype Registry = Registry(matchs: map<string, Match>, openedMatchs: map<string, Match>)

  /** A registry operation's result: the new registry and the match the
      caller gets back. */
  datatype Outcome = Outcome(registry: Registry, game: Match)

  /** The registry invariant the operations keep: every match is stored
      under its own id, the two maps never share an id, an opened match is
      still CREATED and has no enemy, and a match in `matchs` has both
      players. `findOrCreate` joins any opened match before opening another,
      so there is never more than one opened match. */
  predicate Wf(reg: Registry) {
    && (forall id :: id in reg.openedMatchs ==>
          reg.openedMatchs[id].id == id && reg.openedMatchs[id].status == Created
          && reg.openedMatchs[id].enemy.None?)
    && (forall id :: id in reg.matchs ==> reg.matchs[id].id == id && reg.matchs[id].enemy.Some?)
    && reg.matchs.Keys !! reg.openedMatchs.Keys
    && |reg.openedMatchs| <= 1
  }

  const EmptyRegistry := Registry(map[], map[])

  /** The `NotFound` failure `findMatch` raises, naming the id. */
  function MatchNotFound(matchId: string): Error {
    NotFound("Match (" + matchId + ") not found")
  }

  /** `create`: a new opened match with a fresh id, the given player, no
      enemy, status CREATED and an empty history. */
  function Create(reg: Registry, player: Player, freshId: string): (o: Outcome)
    requires freshId !in reg.matchs && freshId !in reg.openedMatchs
    ensures o.game.id == freshId && o.game.player == player && o.game.enemy.None?
    ensures o.game.status == Created && o.game.history == [] && o.game.state.None?
    ensures o.registry.openedMatchs == reg.openedMatchs[freshId := o.game]
    ensures o.registry.matchs == reg.matchs
    ensures Wf(reg) && reg.openedMatchs == map[] ==> Wf(o.registry)
  {
    var m := Match(freshId, player, None, None, None, Created, []);
    Outcome(Registry(reg.matchs, reg.openedMatchs[freshId := m]), m)
  }

  /** An opened match a second player may join. */
  predicate Joinable(reg: Registry, id: string) {
    id in reg.openedMatchs && reg.openedMatchs[id].status == Created
  }

  /** `findOpenedMatch`: some CREATED opened match, marked WAITING in place.
      Which one the service picks depends on the map's insertion order,
      which the model leaves open. */
  method FindOpenedMatch(reg: Registry) returns (reg': Registry, found: Option<Match>)
    requires forall id :: id in reg.openedMatchs ==> reg.openedMatchs[id].id == id
    ensures found.None? <==> forall id :: id in reg.openedMatchs ==> !Joinable(reg, id)
    ensures found.None? ==> reg' == reg
    ensures found.Some? ==>
      var id := found.value.id;
      && id in reg.openedMatchs && reg.openedMatchs[id].status == Created
      && found.value == reg.openedMatchs[id].(status := Waiting)
      && reg' == reg.(openedMatchs := reg.openedMatchs[id := found.value])
  {
    if id :| id in reg.openedMatchs && reg.openedMatchs[id].status == Created {
      var m := reg.openedMatchs[id].(status := Waiting);
      reg' := reg.(openedMatchs := reg.openedMatchs[id := m]);
      found := Some(m);
    } else {
      reg' := reg;
      found := None;
    }
  }

  /** `addPlayer`: the joining player becomes the enemy and the match is
      FULL. */
  function AddPlayer(player: Player, m: Match): (m': Match)
    ensures m'.enemy == Some(player) && m'.status == Full
    ensures m'.id == m.id && m'.player == m.player && m'.state == m.state
    ensures m'.board == m.board && m'.history == m.history
  {
    m.(enemy := Some(player), status := Full)
  }

  /** `moveMatch`: the match leaves `openedMatchs` and is stored in
      `matchs` under its id. */
  function MoveMatch(reg: Registry, m: Match): (reg': Registry)
    ensures reg'.matchs == reg.matchs[m.id := m]
    ensures reg'.openedMatchs.Keys == reg.openedMatchs.Keys - {m.id}
    ensures forall id :: id in reg'.openedMatchs ==> reg'.openedMatchs[id] == reg.openedMatchs[id]
  {
    Registry(reg.matchs[m.id := m], reg.openedMatchs - {m.id})
  }

  /** `findOrCreate`: joins some CREATED opened match as its enemy and
      moves it to `matchs` as FULL, or, when there is none, opens a new
      match for the player. */
  method FindOrCreate(reg: Registry, player: Player, freshId: string) returns (o: Outcome)
    requires Wf(reg)
    requires freshId !in reg.matchs && freshId !in reg.openedMatchs
    ensures Wf(o.registry)
    ensures (exists id :: Joinable(reg, id)) ==>
      && o.game.id in reg.openedMatchs
      && o.game == reg.openedMatchs[o.game.id].(enemy := Some(player), status := Full)
      && o.registry.matchs == reg.matchs[o.game.id := o.game]
      && o.registry.openedMatchs.Keys == reg.openedMatchs.Keys - {o.game.id}
    ensures (forall id :: !Joinable(reg, id)) ==>
      && o.game == Match(freshId, player, None, None, None, Created, [])
      && o.registry.openedMatchs == reg.openedMatchs[freshId := o.game]
      && o.registry.matchs == reg.matchs
  {
    var reg1, found := FindOpenedMatch(reg);
    if found.Some? {
      var m := AddPlayer(player, found.value);
      o := Outcome(MoveMatch(reg1, m), m);
    } else {
      assert reg.openedMatchs == map[] by {
        forall id | id in reg.openedMatchs ensures false {
          assert Joinable(reg, id);
        }
      }
      o := Create(reg, player, freshId);
    }
  }

  /** `findMatch`: only `matchs` is searched. */
  function FindMatch(reg: Registry, matchId: string): (r: Result<Match>)
    ensures r.Ok? <==> matchId in reg.matchs
    ensures r.Ok? ==> r.value == reg.matchs[matchId]
    ensures r.Err? ==> r.error == MatchNotFound(matchId)
  {
    if matchId in reg.matchs then Ok(reg.matchs[matchId]) else Err(MatchNotFound(matchId))
  }

  /** Rewrites the match stored under `matchId`; the rest of the registry
      is unchanged. */
  function Store(reg: Registry, matchId: string, m: Match): (reg': Registry)
    ensures reg'.matchs == reg.matchs[matchId := m] && reg'.openedMatchs == reg.openedMatchs
  {
    reg.(matchs := reg.matchs[matchId := m])
  }

  /** `startMatch`: the match becomes IN_PROGRESS and stays in `matchs`. */
  function StartMatch(reg: Registry, matchId: string): (r: Result<Outcome>)
    ensures r.Err? <==> matchId !in reg.matchs
    ensures r.Err? ==> r.error == MatchNotFound(matchId)
    ensures r.Ok? ==> r.value.game == reg.matchs[matchId].(status := InProgress)
    ensures r.Ok? ==> r.value.registry.matchs == reg.matchs[matchId := r.value.game]
    ensures r.Ok? ==> r.value.registry.openedMatchs == reg.openedMatchs
    ensures r.Ok? && Wf(reg) ==> Wf(r.value.registry)
  {
    var m :- FindMatch(reg, matchId);
    var m' := m.(status := InProgress);
    Ok(Outcome(Store(reg, matchId, m'), m'))
  }

  /** Ends a match with `status` and drops it from `matchs`: `cancelMatch`
      with CANCELLED, `finishMatch` with FINISHED. The services delete the
      found match's own `id`; that is `matchId` whenever `Wf` holds, since
      `Wf` keys every match by its id. */
  function CloseMatch(reg: Registry, matchId: string, status: MatchStatus): (r: Result<Outcome>)
    ensures r.Err? <==> matchId !in reg.matchs
    ensures r.Err? ==> r.error == MatchNotFound(matchId)
    ensures r.Ok? ==> r.value.game == reg.matchs[matchId].(status := status)
    ensures r.Ok? ==> r.value.registry.matchs == reg.matchs - {matchId}
    ensures r.Ok? ==> r.value.registry.openedMatchs == reg.openedMatchs
    ensures r.Ok? && Wf(reg) ==> Wf(r.value.registry)
  {
    var m :- FindMatch(reg, matchId);
    Ok(Outcome(Registry(reg.matchs - {matchId}, reg.openedMatchs), m.(status := status)))
  }

  function CancelMatch(reg: Registry, matchId: string): (r: Result<Outcome>)
    ensures r.Err? <==> matchId !in reg.matchs
    ensures r.Ok? ==> r.value.game.status == Cancelled && matchId !in r.value.registry.matchs
    ensures r.Ok? ==> r.value.registry.matchs.Keys == reg.matchs.Keys - {matchId}
  {
    CloseMatch(reg, matchId, Cancelled)
  }

  function FinishMatch(reg: Registry, matchId: string): (r: Result<Outcome>)
    ensures r.Err? <==> matchId !in reg.matchs
    ensures r.Ok? ==> r.value.game.status == Finished && matchId !in r.value.registry.matchs
    ensures r.Ok? ==> r.value.registry.matchs.Keys == reg.matchs.Keys - {matchId}
  {
    CloseMatch(reg, matchId, Finished)
  }

  /** A participant of a match: its player, or its enemy when it has one. */
  predicate Involves(m: Match, playerId: string) {
    m.player.id == playerId || (m.enemy.Some? && m.enemy.value.id == playerId)
  }

  /** The failure `cancelPlayerMatch` hits when it reads the enemy id of a
      match that has no enemy, or the id of a match it did not find. */
  const UndefinedRead := TypeError("Cannot read properties of undefined (reading 'id')")

  /** `cancelPlayerMatch`: an opened match of the player's is dropped from
      `openedMatchs` and returned as is. Otherwise the scan of the opened
      matches reads the enemy id of the one opened match, which fails when
      it is somebody else's, since it has no enemy. Past that scan,
      a match of the player's in `matchs` is cancelled; when there is none
      the service reads the id of a missing match and fails. */
  method CancelPlayerMatch(reg: Registry, playerId: string) returns (r: Result<Outcome>)
    requires Wf(reg)
    ensures r.Ok? ==> Wf(r.value.registry) && Involves(r.value.game, playerId)
    ensures r.Ok? && r.value.game.id in reg.openedMatchs ==>
      && r.value.game == reg.openedMatchs[r.value.game.id]
      && r.value.registry == reg.(openedMatchs := reg.openedMatchs - {r.value.game.id})
    ensures r.Ok? && r.value.game.id !in reg.openedMatchs ==>
      && r.value.game.id in reg.matchs
      && r.value.game == reg.matchs[r.value.game.id].(status := Cancelled)
      && r.value.registry == reg.(matchs := reg.matchs - {r.value.game.id})
    ensures (exists id :: id in reg.openedMatchs && Involves(reg.openedMatchs[id], playerId)) ==>
      r.Ok? && r.value.game.id in reg.openedMatchs
    ensures r.Err? <==>
      && (forall id :: id in reg.openedMatchs ==> !Involves(reg.openedMatchs[id], playerId))
      && ((exists id :: id in reg.openedMatchs) || forall id :: id in reg.matchs ==> !Involves(reg.matchs[id], playerId))
    ensures r.Err? ==> r.error == UndefinedRead
  {
    if id :| id in reg.openedMatchs && Involves(reg.openedMatchs[id], playerId) {
      r := Ok(Outcome(reg.(openedMatchs := reg.openedMatchs - {id}), reg.openedMatchs[id]));
    } else if id :| id in reg.openedMatchs {
      r := Err(UndefinedRead);
    } else if id :| id in reg.matchs && Involves(reg.matchs[id], playerId) {
      var closed := CloseMatch(reg, id, Cancelled);
      r := Ok(closed.value);
    } else {
      r := Err(UndefinedRead);
    }
  }

  /** `saveMatchHistory`: the current state, set or not, is appended to the
      match's history. */
  function SaveMatchHistory(reg: Registry, matchId: string): (r: Result<Registry>)
    ensures r.Err? <==> matchId !in reg.matchs
    ensures r.Err? ==> r.error == MatchNotFound(matchId)
    ensures r.Ok? ==> r.value.matchs.Keys == reg.matchs.Keys && r.value.openedMatchs == reg.openedMatchs
    ensures r.Ok? ==>
      var before := reg.matchs[matchId];
      var after := r.value.matchs[matchId];
      && |after.history| == |before.history| + 1
      && after.history[..|before.history|] == before.history
      && after.history[|before.history|] == before.state
      && after == before.(history := after.history)
    ensures r.Ok? && Wf(reg) ==> Wf(r.value)
  {
    var m :- FindMatch(reg, matchId);
    Ok(Store(reg, matchId, m.(history := m.history + [m.state])))
  }

  /** `setGameState`: stores the state on the match. */
  function SetGameState(reg: Registry, matchId: string, state: GameState): (r: Result<Registry>)
    ensures r.Err? <==> matchId !in reg.matchs
    ensures r.Err? ==> r.error == MatchNotFound(matchId)
    ensures r.Ok? ==> r.value.matchs == reg.matchs[matchId := reg.matchs[matchId].(state := Some(state))]
    ensures r.Ok? ==> r.value.openedMatchs == reg.openedMatchs
    ensures r.Ok? && Wf(reg) ==> Wf(r.value)
  {
    var m :- FindMatch(reg, matchId);
    Ok(Store(reg, matchId, m.(state := Some(state))))
  }

  /** `getGameState`: the stored state; the same "not found" failure when
      the match is missing or has no state yet. */
  function GetGameState(reg: Registry, matchId: string): (r: Result<GameState>)
    ensures r.Ok? <==> matchId in reg.matchs && reg.matchs[matchId].state.Some?
    ensures r.Ok? ==> Some(r.value) == reg.matchs[matchId].state
    ensures r.Err? ==> r.error == MatchNotFound(matchId)
  {
    var m :- FindMatch(reg, matchId);
    if m.state.Some? then Ok(m.state.value) else Err(MatchNotFound(matchId))
  }

  /** Reading the state back after setting it gives what was set. */
  lemma SetThenGetGameState(reg: Registry, matchId: string, state: GameState)
    requires matchId in reg.matchs
    ensures SetGameState(reg, matchId, state).Ok?
    ensures GetGameState(SetGameState(reg, matchId, state).value, matchId) == Ok(state)
  {
  }

  /** `setMap`: attaches the board to the match. */
  function SetMap(reg: Registry, matchId: string, board: MapTable): (r: Result<Registry>)
    ensures r.Err? <==> matchId !in reg.matchs
    ensures r.Ok? ==> r.value.matchs == reg.matchs[matchId := reg.matchs[matchId].(board := Some(board))]
    ensures r.Ok? ==> r.value.openedMatchs == reg.openedMatchs
    ensures r.Ok? && Wf(reg) ==> Wf(r.value)
  {
    var m :- FindMatch(reg, matchId);
    Ok(Store(reg, matchId, m.(board := Some(board))))
  }

  /** What one participant is shown of a match. */
  datatype MatchView = MatchView(
    isPlayer: bool,
    player: Player,
    enemy: Option<Player>,
    playerGold: Option<int>,
    units: map<string, GameUnit>,
    activeTurn: bool,
    store: seq<UnitTemplate>,
    board: Option<MapTable>)

  /** The fixed store offer of the match view. */
  const StoreOffer: seq<UnitTemplate> := [
    UnitTemplate("unit-1", false, "elf", "Archer", 15, 15, 5, 2, 5, 3),
    UnitTemplate("unit-2", false, "elf", "Soldier", 10, 20, 4, 4, 4, 1),
    UnitTemplate("unit-3", false, "elf", "Cavalary", 20, 25, 5, 5, 7, 1)
  ]

  /** `getPlayerMatchView`: the viewer is the player exactly when the ids
      match; the gold shown is the viewer's own side's; it is the viewer's
      turn exactly when a state exists and names the viewer. */
  function GetPlayerMatchView(reg: Registry, matchId: string, playerId: string): (r: Result<MatchView>)
    ensures r.Err? <==> matchId !in reg.matchs
    ensures r.Err? ==> r.error == MatchNotFound(matchId)
    ensures r.Ok? ==>
      var m := reg.matchs[matchId];
      && (r.value.isPlayer <==> m.player.id == playerId)
      && r.value.player == m.player && r.value.enemy == m.enemy && r.value.board == m.board
      && (m.state.None? ==> r.value.playerGold.None? && r.value.units == map[] && !r.value.activeTurn)
      && (m.state.Some? && m.player.id == playerId ==> r.value.playerGold == Some(m.state.value.player.gold))
      && (m.state.Some? && m.player.id != playerId ==> r.value.playerGold == Some(m.state.value.enemy.gold))
      && (m.state.Some? ==> r.value.units == m.state.value.units)
      && (r.value.activeTurn <==> m.state.Some? && m.state.value.currentPlayer == playerId)
  {
    var m :- FindMatch(reg, matchId);
    var isPlayer := m.player.id == playerId;
    var gold :=
      if m.state.None? then None
      else if isPlayer then Some(m.state.value.player.gold)
      else Some(m.state.value.enemy.gold);
    var units := if m.state.Some? then m.state.value.units else map[];
    var active := m.state.Some? && m.state.value.currentPlayer == playerId;
    Ok(MatchView(isPlayer, m.player, m.enemy, gold, units, active, StoreOffer, m.board))
  }

  /** Two players looking for a match in an empty registry: the first opens
      a match, the second joins it, and the match is FULL in `matchs` with
      the first as player and the second as enemy. */
  method TwoPlayersMeet(first: Player, second: Player, id1: string, id2: string) returns (reg: Registry, m: Match)
    requires id1 != id2
    ensures Wf(reg)
    ensures reg.openedMatchs == map[] && reg.matchs == map[id1 := m]
    ensures m.id == id1 && m.player == first && m.enemy == Some(second) && m.status == Full
  {
    var o1 := FindOrCreate(EmptyRegistry, first, id1);
    assert Joinable(o1.registry, id1);
    var o2 := FindOrCreate(o1.registry, second, id2);
    assert o2.registry.openedMatchs.Keys == {};
    reg, m := o2.registry, o2.game;
  }
}
