/** The end-of-turn sequence of the match gateway: the turn passes to the
    other side, that side is credited its per-turn income, and its units are
    refreshed. */
module Turns {
  import opened Results
  import opened Entities
  import opened GamesState

  /** Toggle the turn owner, credit the new owner the default income, then
      reset the new owner's units. */
  function EndTurn(gs: GameState): (r: GameState)
    ensures r.units.Keys == gs.units.Keys
    ensures KeyConsistent(gs.units) ==> KeyConsistent(r.units)
    ensures r.player.id == gs.player.id && r.enemy.id == gs.enemy.id
  {
    ResetCurrentPlayerUnitsTurn(IncreaseCurrentPlayerGold(ToggleCurrentPlayer(gs), None))
  }

  /** With two distinct participants, ending a turn hands it to the other
      side, credits exactly that side `GoldPerTurn`, leaves the previous
      owner's economy untouched, refreshes exactly the new owner's units and
      keeps both sides solvent. */
  lemma EndTurnHandsOver(gs: GameState)
    requires TwoSided(gs)
    ensures var r := EndTurn(gs);
      && TwoSided(r)
      && r.currentPlayer == OtherEconomy(gs).id
      && CurrentEconomy(r) == OtherEconomy(gs).(gold := OtherEconomy(gs).gold + GoldPerTurn)
      && OtherEconomy(r) == CurrentEconomy(gs)
      && (GoldNonNegative(gs) ==> GoldNonNegative(r))
    ensures var r := EndTurn(gs);
      forall k :: k in gs.units ==>
        r.units[k] == (if gs.units[k].state.playerId == r.currentPlayer then Refreshed(gs.units[k]) else gs.units[k])
  {
  }

  /** Two ends of turn give the turn back to its owner, with each side
      credited `GoldPerTurn` once and the roster's keys unchanged. */
  lemma RoundCreditsBothSides(gs: GameState)
    requires TwoSided(gs)
    ensures var r := EndTurn(EndTurn(gs));
      && r.currentPlayer == gs.currentPlayer
      && CurrentEconomy(r) == CurrentEconomy(gs).(gold := CurrentEconomy(gs).gold + GoldPerTurn)
      && OtherEconomy(r) == OtherEconomy(gs).(gold := OtherEconomy(gs).gold + GoldPerTurn)
      && r.units.Keys == gs.units.Keys
  {
    EndTurnHandsOver(gs);
    EndTurnHandsOver(EndTurn(gs));
  }
}
