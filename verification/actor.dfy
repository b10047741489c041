/** Named, positioned game entities (`Actor` in src/engine/actor.rs): the
    speed-driven readiness timer, unchecked movement and the action
    dispatch. Operations that narrate take the log history and return the
    extended one. */
module Actors {
  import opened Ints
  import opened Wrappers
  import opened Battlers
  import Log
  import Decimal

  datatype ActorType = Player | Enemy | NPC

  datatype Action = Attacking | UsingSkill | UsingItem | Waiting | LookingGround

  /** Grid coordinates `(x, y)`, each an `i16`. */
  type Position = (i16, i16)

  /** `id` and `role` are stored but never read by any operation. */
  datatype Actor = Actor(
    id: i16,
    role: ActorType,
    name: string,
    battler: Battler,
    position: Position,
    actionTimer: i16)

  /** The timer value an actor must exceed before it may act. */
  const READY_THRESHOLD: int := 500

  /** `Actor::default`: "Teste", an NPC at (5, 5) with the default battler
      and a zero timer. */
  function DefaultActor(): (a: Actor)
    ensures a.battler == DefaultBattler()
    ensures !CanAct(a)
  {
    Actor(1, NPC, "Teste", DefaultBattler(), (5, 5), 0)
  }

  /** `Actor::new_player`: the default actor renamed, with the Player role.
      Its timer is 0, so it cannot act yet. */
  function NewPlayer(name: string): (a: Actor)
    ensures a == DefaultActor().(name := name, role := Player)
    ensures a.position == (5, 5)
    ensures !CanAct(a)
  {
    Actor(1, Player, name, DefaultBattler(), (5, 5), 0)
  }

  /** `can_act`: the timer is strictly above the threshold. */
  predicate CanAct(a: Actor)
  {
    a.actionTimer > READY_THRESHOLD
  }

  /** Readiness is strict: a timer of exactly 500 is not enough, 501 is. */
  lemma ReadyThreshold(a: Actor)
    ensures !CanAct(a.(actionTimer := 500)) && CanAct(a.(actionTimer := 501))
  {
  }

  /** `update_action_timer` adds `spd as i16` with `i16` arithmetic, which
      must not overflow (a debug build panics). */
  predicate TimerFits(a: Actor)
  {
    InI16(a.actionTimer + WrapI16(a.battler.Spd()))
  }

  /** `update_action_timer`. The Rust method consumes `self`, so the new
      timer is dropped; the model returns the updated actor. The timer grows
      by the speed (cast to `i16`) with no clamp; nothing else changes. */
  function UpdateActionTimer(a: Actor): (r: Actor)
    requires TimerFits(a)
    ensures r == a.(actionTimer := r.actionTimer)
    ensures (r.actionTimer - a.actionTimer - a.battler.Spd()) % 0x1_0000 == 0
    ensures InI16(a.battler.Spd()) ==> r.actionTimer == a.actionTimer + a.battler.Spd()
  {
    a.(actionTimer := a.actionTimer + WrapI16(a.battler.Spd()))
  }

  /** With a non-negative speed an update never takes readiness away. */
  lemma ReadyStaysReady(a: Actor)
    requires TimerFits(a) && 0 <= a.battler.Spd() <= I16_MAX
    requires CanAct(a)
    ensures CanAct(UpdateActionTimer(a))
  {
  }

  /** `n` successive timer updates of an actor with a non-negative `i16`
      speed: the timer grows by exactly `n` times the speed. */
  function Ticks(a: Actor, n: nat): (r: Actor)
    requires 0 <= a.battler.Spd() <= I16_MAX
    requires a.actionTimer + n * a.battler.Spd() <= I16_MAX
    ensures r == a.(actionTimer := a.actionTimer + n * a.battler.Spd())
    decreases n
  {
    if n == 0 then a
    else
      assert (n - 1) * a.battler.Spd() <= n * a.battler.Spd();
      UpdateActionTimer(Ticks(a, n - 1))
  }

  /** A fresh default actor (speed 50) becomes ready on the eleventh tick:
      after ten it sits exactly at 500, which is not enough. */
  lemma DefaultReadiness(n: nat)
    requires n <= 655
    ensures Ticks(DefaultActor(), n).actionTimer == 50 * n
    ensures CanAct(Ticks(DefaultActor(), n)) <==> n >= 11
  {
  }

  /** `move_to_direction` adds the delta with `i16` arithmetic, which must
      not overflow. */
  predicate MoveFits(a: Actor, d: Position)
  {
    InI16(a.position.0 + d.0) && InI16(a.position.1 + d.1)
  }

  /** `move_to_direction`: shifts the position by the delta with no bounds
      check and narrates "{name} moved to {x}/{y}" with the new position.
      Only the position changes. */
  function MoveToDirection(a: Actor, h: Log.History, d: Position): (r: (Actor, Log.History))
    requires MoveFits(a, d)
    ensures r.0 == a.(position := r.0.position)
    ensures r.0.position.0 - a.position.0 == d.0 && r.0.position.1 - a.position.1 == d.1
    ensures |r.1| == |h| + 1 && r.1[..|h|] == h
    ensures r.1[|h|] == Log.PosUpdateText(a.name, r.0.position.0, r.0.position.1)
    ensures Log.PositionOfEntry(a.name, r.1[|h|]) == Some(r.0.position)
  {
    var p: Position := (a.position.0 + d.0, a.position.1 + d.1);
    (a.(position := p), Log.ActorPosUpdate(h, a.name, p.0, p.1))
  }

  /** The default actor moved by (1, 0) stands at (6, 5). */
  lemma DefaultMovesRight(h: Log.History)
    ensures MoveToDirection(DefaultActor(), h, (1, 0)).0.position == (6, 5)
    ensures MoveToDirection(DefaultActor(), h, (1, 0)).1 == h + ["Teste moved to 6/5"]
  {
    assert Decimal.IntText(6) == "6" by { assert Decimal.DigitChar(6) == '6'; }
    assert Decimal.IntText(5) == "5" by { assert Decimal.DigitChar(5) == '5'; }
    assert Log.PosUpdateText("Teste", 6, 5) == "Teste moved to 6/5";
  }

  /** What `take_action` does. The Rust method consumes both actors and
      returns nothing, so the attacked target is dropped; the model returns
      it. `Waiting` reaches `todo!()` in the source, modelled as an explicit
      result instead of an abort. */
  datatype ActionOutcome = Performed(target: Option<Actor>) | Unimplemented

  /** The attack branch is the only one with `i32` arithmetic to keep in
      range. */
  predicate ActionFits(self: Actor, action: Action, target: Option<Actor>)
  {
    action == Attacking && target.Some? ==> AttackFits(self.battler, target.value.battler)
  }

  /** `take_action`: Attacking with a target applies the battler attack to
      the target's battler; Attacking with no target, UsingSkill, UsingItem
      and LookingGround leave the target as it was; Waiting is unimplemented. */
  function TakeAction(self: Actor, action: Action, target: Option<Actor>): (r: ActionOutcome)
    requires ActionFits(self, action, target)
    ensures r == Unimplemented <==> action == Waiting
    ensures action == Attacking && target.Some? ==>
      var t := target.value;
      r == Performed(Some(t.(battler := t.battler.(hp := t.battler.hp - Damage(self.battler, t.battler)))))
    ensures action != Waiting && (action != Attacking || target.None?) ==> r == Performed(target)
  {
    match action
    case Attacking =>
      (match target
       case Some(t) => Performed(Some(t.(battler := Attack(self.battler, t.battler))))
       case None => Performed(None))
    case Waiting => Unimplemented
    case _ => Performed(target)
  }
}
