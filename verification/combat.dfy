/** Combat rules: damage, the attack outcome, experience and levelling.
    The random part of the damage is the parameter `roll`, the value of
    `Math.floor(Math.random() * (ATTACK_DAMAGE_EXTRA_MAX - 1))`. */
module Combat {
  import opened Results
  import opened Entities

  const AttackDamageExtraMax := 6
  const ExperienceByLevel := 5

  /** The highest value the damage roll can take. */
  const MaxRoll := AttackDamageExtraMax - 2

  /** `EXPERIENCE_TO_UP_LEVEL`: the experience needed to leave each of the
      levels 1 to 5; other levels have no entry. */
  function ExperienceToUpLevel(level: int): (r: Option<int>)
    ensures r.Some? <==> 1 <= level <= 5
    ensures r.Some? ==> r.value == 10 * level && 10 <= r.value <= 50
  {
    if 1 <= level <= 5 then Some(10 * level) else None
  }

  /** `Math.floor(x * LEVEL_UP_MULTIPLIER)` with the multiplier 1.2 taken as
      the exact ratio 6/5 (Dafny's `/` floors for a positive divisor). */
  function ScaleUp(x: int): (y: int)
    ensures 5 * y <= 6 * x < 5 * y + 5
  {
    (x * 6) / 5
  }

  /** Scaling never lowers a non-negative stat and raises every stat of at
      least 5. */
  lemma ScaleUpGrows(x: int)
    requires x >= 0
    ensures x <= ScaleUp(x)
    ensures x >= 5 ==> x < ScaleUp(x)
  {
  }

  function Max0(x: int): nat {
    if x < 0 then 0 else x
  }

  /** The damage of one hit: attack plus the roll minus defense, never below
      zero. It lies between the damage of the lowest and of the highest roll,
      and it is zero exactly when defense absorbs attack and roll. */
  function GetDamage(attack: int, defense: int, roll: int): (damage: int)
    requires 0 <= roll <= MaxRoll
    ensures damage >= 0
    ensures Max0(attack - defense) <= damage <= Max0(attack + MaxRoll - defense)
    ensures damage == 0 <==> attack + roll <= defense
    ensures damage > 0 ==> damage == attack + roll - defense
  {
    var damage := attack + roll - defense;
    if damage < 0 then 0 else damage
  }

  /** A higher roll never does less damage. */
  lemma DamageMonotoneInRoll(attack: int, defense: int, roll1: int, roll2: int)
    requires 0 <= roll1 <= roll2 <= MaxRoll
    ensures GetDamage(attack, defense, roll1) <= GetDamage(attack, defense, roll2)
  {
  }

  /** What `attackUnit` returns: the damage, the patch for the defender's
      state, the patch for the attacker's state, and whether the defender
      died. */
  datatype AttackOutcome = AttackOutcome(
    damage: int,
    defenderState: StatePatch,
    attackerState: StatePatch,
    isDead: bool)

  /** One attack. The damage uses the attack and defense of the units' own
      template copies; the defender's new health is its current health minus
      the damage; the attacker's patch always ends its turn (no attack, no
      movement); the defender is dead exactly when its new health is at most
      zero. */
  function AttackUnit(attacker: GameUnit, defender: GameUnit, roll: int): (r: AttackOutcome)
    requires 0 <= roll <= MaxRoll
    ensures r.damage >= 0
    ensures r.damage == GetDamage(attacker.unit.attack, defender.unit.defense, roll)
    ensures r.defenderState == EmptyPatch.(health := Some(defender.state.health - r.damage))
    ensures r.defenderState.health.value <= defender.state.health
    ensures r.attackerState == EmptyPatch.(canAttack := Some(false), distanceCanMove := Some(0))
    ensures r.isDead <==> defender.state.health - r.damage <= 0
  {
    var damage := GetDamage(attacker.unit.attack, defender.unit.defense, roll);
    var defenderHealth := defender.state.health - damage;
    AttackOutcome(
      damage,
      EmptyPatch.(health := Some(defenderHealth)),
      EmptyPatch.(canAttack := Some(false), distanceCanMove := Some(0)),
      defenderHealth <= 0)
  }

  /** `levelUp`: one level more; the state's health and the template copy's
      health both become the scaled current health; attack and defense are
      scaled; everything else is kept. */
  function LevelUp(u: GameUnit): (u': GameUnit)
    ensures u'.state.level == u.state.level + 1
    ensures u'.state.health == u'.unit.health
    ensures 5 * u'.state.health <= 6 * u.state.health < 5 * u'.state.health + 5
    ensures 5 * u'.unit.attack <= 6 * u.unit.attack < 5 * u'.unit.attack + 5
    ensures 5 * u'.unit.defense <= 6 * u.unit.defense < 5 * u'.unit.defense + 5
    ensures u'.id == u.id
    ensures u'.unit.(health := u.unit.health, attack := u.unit.attack, defense := u.unit.defense) == u.unit
    ensures u'.state.(health := u.state.health, level := u.state.level) == u.state
  {
    u.(unit := u.unit.(health := ScaleUp(u.state.health), attack := ScaleUp(u.unit.attack), defense := ScaleUp(u.unit.defense)),
       state := u.state.(level := u.state.level + 1, health := ScaleUp(u.state.health)))
  }

  /** A level-1 leader with Konrad's stats (health 25, attack 8, defense 5)
      at full health levels up to health 30, attack 9 and defense 6. */
  lemma KonradLevelsUp(u: GameUnit)
    requires u.unit.health == 25 && u.unit.attack == 8 && u.unit.defense == 5
    requires u.state.health == 25 && u.state.level == 1
    ensures LevelUp(u).state.level == 2
    ensures LevelUp(u).state.health == 30 && LevelUp(u).unit.health == 30
    ensures LevelUp(u).unit.attack == 9 && LevelUp(u).unit.defense == 6
  {
  }

  /** Whether the attacker reaches the next level after gaining
      `experience`: only levels with a table entry can evolve. */
  predicate Evolves(level: int, experience: int) {
    var threshold := ExperienceToUpLevel(level);
    threshold.Some? && experience >= threshold.value
  }

  /** What `gainExperience` returns: the updated attacker, the patch for its
      state, and whether it levelled up. */
  datatype ExperienceOutcome = ExperienceOutcome(unit: GameUnit, state: StatePatch, evolved: bool)

  /** The attacker gains five experience per level of the defender. It
      evolves exactly when the new total reaches the table entry of its
      current level; then it is levelled up before the new total is written
      (which is not reset). The returned patch records the new total and ends
      the attacker's turn. */
  function GainExperience(attacker: GameUnit, defender: GameUnit): (r: ExperienceOutcome)
    ensures var newExperience := attacker.state.experience + ExperienceByLevel * defender.state.level;
      && r.evolved == Evolves(attacker.state.level, newExperience)
      && r.unit.state.experience == newExperience
      && r.unit == (if r.evolved then LevelUp(attacker) else attacker).(state := r.unit.state)
      && r.unit.state.(experience := attacker.state.experience)
           == (if r.evolved then LevelUp(attacker) else attacker).state.(experience := attacker.state.experience)
      && r.state == EmptyPatch.(experience := Some(newExperience), canAttack := Some(false), distanceCanMove := Some(0))
    ensures r.unit.state.level == attacker.state.level + (if r.evolved then 1 else 0)
  {
    var experienceGain := ExperienceByLevel * defender.state.level;
    var newExperience := attacker.state.experience + experienceGain;
    var evolved := Evolves(attacker.state.level, newExperience);
    var levelled := if evolved then LevelUp(attacker) else attacker;
    var updatedUnit := levelled.(state := levelled.state.(experience := newExperience));
    ExperienceOutcome(
      updatedUnit,
      EmptyPatch.(experience := Some(newExperience), canAttack := Some(false), distanceCanMove := Some(0)),
      evolved)
  }

  /** Experience never decreases when the defender's level is not negative,
      and the level never decreases either. */
  lemma ExperienceMonotone(attacker: GameUnit, defender: GameUnit)
    requires defender.state.level >= 0
    ensures GainExperience(attacker, defender).unit.state.experience >= attacker.state.experience
    ensures GainExperience(attacker, defender).unit.state.level >= attacker.state.level
  {
  }

  /** A unit at level 6 or above never evolves, whatever it defeats. */
  lemma NoEvolutionPastLevelFive(attacker: GameUnit, defender: GameUnit)
    requires attacker.state.level >= 6
    ensures !GainExperience(attacker, defender).evolved
    ensures GainExperience(attacker, defender).unit.state.level == attacker.state.level
  {
  }

  /** `canAttack`: the attacker's own flag, nothing else. */
  function CanAttack(attacker: GameUnit): (r: bool)
    ensures r <==> attacker.state.canAttack
  {
    attacker.state.canAttack
  }
}
