/** The combat-capable part of an actor (`Battler` in src/engine/actor.rs):
    hit points, stats, tags, the damage formula and the death check. */
module Battlers {
  import opened Ints
  import opened Wrappers
  import opened Advantage

  datatype BattlerState = Alive | Dead

  /** Modifier tags; stored but never read by any operation. */
  datatype Modifier = STR | STA | WIS | SPD

  datatype Aspects = Aspects(alignment: Alignment, attribute: Attribute)

  /** The stat block. `maxHp`, `maxMp` and `wis` are never read. */
  datatype Status = Status(maxHp: i32, maxMp: i32, str: i32, sta: i32, wis: i32, spd: i32)

  datatype Battler = Battler(
    hp: i32,
    mp: i32,
    state: BattlerState,
    status: Status,
    modifiers: seq<Option<Modifier>>,
    aspects: Aspects)
  {
    function Atk(): i32 { status.str }
    function Def(): i32 { status.sta }
    function Spd(): i32 { status.spd }
  }

  /** Divisor of the stat difference in the power formula. */
  const STAT_SCALE: int := 500
  /** Final divisor of the damage formula. */
  const DAMAGE_SCALE: int := 20

  /** The battler inside `Actor::default`: 100 HP and MP, every stat 50,
      Free/Neutral, alive, no modifiers. */
  function DefaultBattler(): (b: Battler)
    ensures b.state == Alive && UpdateCheck(b) == b
    ensures forall t: Aspects :: Multiplier(b.aspects, t) == 1 && Multiplier(t, b.aspects) == 1
  {
    var free := Aspects(Free, Neutral);
    assert forall t: Aspects :: Multiplier(free, t) == 1 && Multiplier(t, free) == 1 by {
      forall t: Aspects
        ensures Multiplier(free, t) == 1 && Multiplier(t, free) == 1
      {
        AlignmentReciprocal(Free, t.alignment);
        AlignmentReciprocal(t.alignment, Free);
        AttributeReciprocal(Neutral, t.attribute);
        AttributeReciprocal(t.attribute, Neutral);
      }
    }
    Battler(100, 100, Alive, Status(100, 100, 50, 50, 50, 50), [], free)
  }

  /** `(alignment advantage * attribute advantage).round() as i32`: the
      product, rounded half away from zero, is 0, 1, 2 or 3, and it is 0
      only for a weak alignment together with a weak attribute. */
  function Multiplier(attacker: Aspects, target: Aspects): (m: int)
    ensures 0 <= m <= 3
    ensures
      var al := AlignmentAdvantage(attacker.alignment, target.alignment);
      var at := AttributeAdvantage(attacker.attribute, target.attribute);
      && (m == 0 <==> al == 0.5 && at == 0.75)
      && (m == 3 <==> al == 2.0 && at == 1.5)
      && (m == 2 <==> (al == 2.0 && at != 1.5) || (al == 1.0 && at == 1.5))
      && (al == 0.5 && at == 1.0 ==> m == 1)
  {
    var al := AlignmentAdvantage(attacker.alignment, target.alignment);
    var at := AttributeAdvantage(attacker.attribute, target.attribute);
    MultiplierCases(al, at);
    RoundHalfAway(al * at)
  }

  lemma MultiplierCases(al: real, at: real)
    requires al == 0.5 || al == 1.0 || al == 2.0
    requires at == 0.75 || at == 1.0 || at == 1.5
    ensures var m := RoundHalfAway(al * at);
      && 0 <= m <= 3
      && (m == 0 <==> al == 0.5 && at == 0.75)
      && (m == 3 <==> al == 2.0 && at == 1.5)
      && (m == 2 <==> (al == 2.0 && at != 1.5) || (al == 1.0 && at == 1.5))
  {
    if al == 0.5 {
      if at == 0.75 { assert al * at == 0.375; }
      else if at == 1.0 { assert al * at == 0.5; }
      else { assert al * at == 0.75; }
    } else if al == 1.0 {
      if at == 0.75 { assert al * at == 0.75; }
      else if at == 1.0 { assert al * at == 1.0; }
      else { assert al * at == 1.5; }
    } else {
      if at == 0.75 { assert al * at == 1.5; }
      else if at == 1.0 { assert al * at == 2.0; }
      else { assert al * at == 3.0; }
    }
  }

  /** `power_mod = diff / 500 * atk + atk` with `diff = atk - def` and Rust's
      truncating division. */
  function PowerMod(attacker: Battler, target: Battler): (p: int)
    ensures -STAT_SCALE < attacker.Atk() - target.Def() < STAT_SCALE ==> p == attacker.Atk()
    ensures attacker.Atk() >= 0 && attacker.Atk() >= target.Def() ==> p >= attacker.Atk()
    ensures attacker.Atk() >= 0 && attacker.Atk() <= target.Def() ==> p <= attacker.Atk()
  {
    TruncDiv(attacker.Atk() - target.Def(), STAT_SCALE) * attacker.Atk() + attacker.Atk()
  }

  /** `power_mod * multiplier / 20`, again truncating toward zero. */
  function Damage(attacker: Battler, target: Battler): (d: int)
    ensures
      var p := PowerMod(attacker, target) * Multiplier(attacker.aspects, target.aspects);
      && -DAMAGE_SCALE < p - DAMAGE_SCALE * d < DAMAGE_SCALE
      && (p >= 0 ==> 0 <= p - DAMAGE_SCALE * d)
      && (p <= 0 ==> p - DAMAGE_SCALE * d <= 0)
    ensures Multiplier(attacker.aspects, target.aspects) == 0 ==> d == 0
  {
    TruncDiv(PowerMod(attacker, target) * Multiplier(attacker.aspects, target.aspects), DAMAGE_SCALE)
  }

  /** The `i32` arithmetic of `Battler::attack` does not overflow (an
      overflow panics in a debug build). */
  predicate AttackFits(attacker: Battler, target: Battler)
  {
    && InI32(attacker.Atk() - target.Def())
    && InI32(TruncDiv(attacker.Atk() - target.Def(), STAT_SCALE) * attacker.Atk())
    && InI32(PowerMod(attacker, target))
    && InI32(PowerMod(attacker, target) * Multiplier(attacker.aspects, target.aspects))
    && InI32(target.hp - Damage(attacker, target))
  }

  /** `Battler::attack`. The Rust method takes the target by value, so the
      lowered HP is dropped with it; the model returns the updated target.
      Only HP changes, by exactly the damage, with no floor at zero and no
      death check. The attacker is read only. */
  function Attack(attacker: Battler, target: Battler): (r: Battler)
    requires AttackFits(attacker, target)
    ensures r.hp == target.hp - Damage(attacker, target)
    ensures r == target.(hp := r.hp)
  {
    target.(hp := target.hp - Damage(attacker, target))
  }

  /** `Battler::update_check`. The Rust method consumes `self`, so the new
      state is dropped; the model returns it. A battler ends up Dead when its
      HP is below 1 or it was already Dead; nothing else changes. */
  function UpdateCheck(b: Battler): (r: Battler)
    ensures r.state == Dead <==> b.hp < 1 || b.state == Dead
    ensures r.state == Alive <==> b.hp >= 1 && b.state == Alive
    ensures r == b.(state := r.state)
  {
    if b.hp < 1 then b.(state := Dead) else b
  }

  /** The death check is idempotent and never revives. */
  lemma UpdateCheckIdempotent(b: Battler)
    ensures UpdateCheck(UpdateCheck(b)) == UpdateCheck(b)
    ensures b.state == Dead ==> UpdateCheck(b).state == Dead
  {
  }

  /** HP 0 is dead after the check, HP 1 is still alive. */
  lemma DeathThreshold()
    ensures UpdateCheck(DefaultBattler().(hp := 0)).state == Dead
    ensures UpdateCheck(DefaultBattler().(hp := 1)).state == Alive
  {
  }

  /** When attacker strength and target stamina differ by less than 500
      the power term is just the attacker's strength. */
  lemma PowerOfCloseStats(attacker: Battler, target: Battler)
    requires -STAT_SCALE < attacker.Atk() - target.Def() < STAT_SCALE
    ensures PowerMod(attacker, target) == attacker.Atk()
  {
  }

  /** Two default battlers: strength 50 against stamina 50, neutral tags,
      damage 2, HP 100 -> 98. */
  lemma DefaultAttack()
    ensures AttackFits(DefaultBattler(), DefaultBattler())
    ensures Damage(DefaultBattler(), DefaultBattler()) == 2
    ensures Attack(DefaultBattler(), DefaultBattler()).hp == 98
    ensures Attack(DefaultBattler(), DefaultBattler()).state == Alive
  {
    var b := DefaultBattler();
    assert Multiplier(b.aspects, b.aspects) == 1;
    assert PowerMod(b, b) == 50;
  }

  /** A weak attacker (strength 100 against stamina 700) deals nothing: the
      truncated -600 / 500 is -1, so the power term cancels to 0. Floor
      division (Dafny's own `/` on this input) would give -2, a power of
      -100, and an "attack" that heals by 5. */
  lemma WeakAttackDealsNothing()
    ensures
      var a := DefaultBattler().(status := DefaultBattler().status.(str := 100));
      var t := DefaultBattler().(status := DefaultBattler().status.(sta := 700));
      && PowerMod(a, t) == 0
      && Damage(a, t) == 0
  {
    var a := DefaultBattler().(status := DefaultBattler().status.(str := 100));
    var t := DefaultBattler().(status := DefaultBattler().status.(sta := 700));
    assert TruncDiv(-600, STAT_SCALE) == -1;
    assert Multiplier(a.aspects, t.aspects) == 1;
  }
}
