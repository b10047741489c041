/** The two type-advantage tables of src/engine/actor.rs. The Rust tables
    return `f32`; every value they hold (0.5, 0.75, 1.0, 1.5, 2.0) is exact
    in binary, so they are modelled as `real`s without loss. Each table is
    tied to an independent description of the cycles it encodes. */
module Advantage {

  datatype Alignment = Free | Vaccine | Data | Virus

  /** Spelled as in the source (`Eletric`). */
  datatype Attribute = Fire | Water | Plant | Eletric | Earth | Wind | Light | Dark | Neutral

  /** Place of an alignment on the triangle Vaccine -> Virus -> Data ->
      Vaccine; Free is off the triangle. */
  function AlignmentRank(a: Alignment): int
  {
    match a
    case Vaccine => 0
    case Virus => 1
    case Data => 2
    case Free => -1
  }

  /** `a` is strong against `b`: `b` follows `a` on the triangle. */
  predicate AlignmentBeats(a: Alignment, b: Alignment)
  {
    AlignmentRank(a) >= 0 && AlignmentRank(b) >= 0
    && AlignmentRank(b) == (AlignmentRank(a) + 1) % 3
  }

  /** `EAlignment::get_advantage`. */
  function AlignmentAdvantage(attacker: Alignment, target: Alignment): (r: real)
    ensures r == 2.0 <==> AlignmentBeats(attacker, target)
    ensures r == 0.5 <==> AlignmentBeats(target, attacker)
    ensures r == 1.0 <==> !AlignmentBeats(attacker, target) && !AlignmentBeats(target, attacker)
  {
    match (attacker, target)
    case (Data, Vaccine) => 2.0
    case (Vaccine, Virus) => 2.0
    case (Virus, Data) => 2.0
    case (Vaccine, Data) => 0.5
    case (Virus, Vaccine) => 0.5
    case (Data, Virus) => 0.5
    case _ => 1.0
  }

  /** Which elemental triangle an attribute sits on: 0 for Fire -> Plant ->
      Water -> Fire, 1 for Eletric -> Wind -> Earth -> Eletric, -1 for
      Light, Dark and Neutral. */
  function AttributeCycle(a: Attribute): int
  {
    match a
    case Fire => 0
    case Plant => 0
    case Water => 0
    case Eletric => 1
    case Wind => 1
    case Earth => 1
    case _ => -1
  }

  /** Place of an attribute on its triangle. */
  function AttributeRank(a: Attribute): int
  {
    match a
    case Fire => 0
    case Plant => 1
    case Water => 2
    case Eletric => 0
    case Wind => 1
    case Earth => 2
    case _ => -1
  }

  /** `a` is strong against `b` on one of the two elemental triangles. */
  predicate CycleBeats(a: Attribute, b: Attribute)
  {
    AttributeCycle(a) >= 0 && AttributeCycle(a) == AttributeCycle(b)
    && AttributeRank(b) == (AttributeRank(a) + 1) % 3
  }

  /** Light and Dark, in either order. */
  predicate LightDarkPair(a: Attribute, b: Attribute)
  {
    (a == Light && b == Dark) || (a == Dark && b == Light)
  }

  /** `EAttribute::get_advantage`. */
  function AttributeAdvantage(attacker: Attribute, target: Attribute): (r: real)
    ensures r == 1.5 <==> CycleBeats(attacker, target) || LightDarkPair(attacker, target)
    ensures r == 0.75 <==> CycleBeats(target, attacker)
    ensures r == 1.0 <==>
      !CycleBeats(attacker, target) && !CycleBeats(target, attacker) && !LightDarkPair(attacker, target)
  {
    match (attacker, target)
    case (Fire, Plant) => 1.5
    case (Plant, Water) => 1.5
    case (Water, Fire) => 1.5
    case (Eletric, Wind) => 1.5
    case (Wind, Earth) => 1.5
    case (Earth, Eletric) => 1.5
    case (Light, Dark) => 1.5
    case (Dark, Light) => 1.5
    case (Plant, Fire) => 0.75
    case (Water, Plant) => 0.75
    case (Fire, Water) => 0.75
    case (Wind, Eletric) => 0.75
    case (Earth, Wind) => 0.75
    case (Eletric, Earth) => 0.75
    case _ => 1.0
  }

  /** The alignment table is reciprocal: swapping attacker and target
      inverts the multiplier. Free and same-tag pairs are neutral. */
  lemma AlignmentReciprocal(a: Alignment, b: Alignment)
    ensures AlignmentAdvantage(a, b) * AlignmentAdvantage(b, a) == 1.0
    ensures a == Free || b == Free || a == b ==> AlignmentAdvantage(a, b) == 1.0
  {
  }

  /** The attribute table pairs each strong matchup with the reverse weak
      one, except Light/Dark, which is strong in both directions. Neutral and
      same-tag pairs are neutral. */
  lemma AttributeReciprocal(a: Attribute, b: Attribute)
    ensures AttributeAdvantage(a, b) == 0.75 <==> AttributeAdvantage(b, a) == 1.5 && !LightDarkPair(a, b)
    ensures AttributeAdvantage(a, b) == 1.0 <==> AttributeAdvantage(b, a) == 1.0
    ensures LightDarkPair(a, b) ==> AttributeAdvantage(a, b) == 1.5 == AttributeAdvantage(b, a)
    ensures a == Neutral || b == Neutral || a == b ==> AttributeAdvantage(a, b) == 1.0
  {
  }
}
