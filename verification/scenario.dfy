/** The demo driver of src/main.rs replayed on the model: a new player
    "Irineu" in a fresh square world makes eight moves, then the first
    entries of the log are read back. */
module Scenario {
  import opened Ints
  import opened Wrappers
  import opened Actors
  import opened Tiles
  import opened Worlds
  import Log
  import Decimal
  import Seqs

  const NAME: string := "Irineu"

  /** `start_empty_square(new_player("Irineu"))`. */
  function Start(): World
  {
    StartEmptySquare(NewPlayer(NAME))
  }

  /** The moves `main` makes, in order. */
  function Moves(): seq<Position>
  {
    [(1, 0), (1, 0), (1, 0), (1, 0), (0, 2), (0, 1), (0, 1), (0, -6)]
  }

  /** `Log.PosUpdateText` for the player, spelled out. */
  lemma Digits()
    ensures Decimal.IntText(2) == "2" && Decimal.IntText(5) == "5" && Decimal.IntText(6) == "6"
    ensures Decimal.IntText(7) == "7" && Decimal.IntText(8) == "8"
  {
    assert Decimal.DigitChar(2) == '2' && Decimal.DigitChar(5) == '5' && Decimal.DigitChar(6) == '6';
    assert Decimal.DigitChar(7) == '7' && Decimal.DigitChar(8) == '8';
  }

  /** A sequence of `player_move` calls from `(w, h)`. None when some
      move's `i16` arithmetic overflows, which panics in a debug build. */
  function Run(w: World, h: Log.History, ds: seq<Position>): (r: Option<(World, Log.History)>)
    ensures r.Some? ==> |h| <= |r.value.1| <= |h| + |ds| && r.value.1[..|h|] == h
    ensures r.Some? ==> r.value.0.worldMap == w.worldMap && r.value.0.actors == w.actors
    decreases |ds|
  {
    if |ds| == 0 then Some((w, h))
    else if !PlayerMoveFits(w, ds[0]) then None
    else
      var (w', h') := PlayerMove(w, h, ds[0]);
      var r := Run(w', h', ds[1..]);
      assert r.Some? ==> r.value.1[..|h|] == r.value.1[..|h'|][..|h|];
      r
  }

  /** Where the player stands after each of the moves. */
  function Positions(): seq<Position>
  {
    [(5, 5), (6, 5), (7, 5), (8, 5), (8, 5), (8, 7), (8, 8), (8, 8), (8, 2)]
  }

  /** The log `main` leaves behind. */
  function Entries(): seq<string>
  {
    [ "Irineu moved to 6/5", "Irineu moved to 7/5", "Irineu moved to 8/5",
      "Irineu hitted a wall.",
      "Irineu moved to 8/7", "Irineu moved to 8/8",
      "Irineu hitted a wall.",
      "Irineu moved to 8/2" ]
  }

  /** The expected world and log after the first `k` moves. */
  function State(k: nat): (World, Log.History)
    requires k <= |Moves()|
  {
    (Start().(player := Start().player.(position := Positions()[k])), Entries()[..k])
  }

  /** Move `k` lands on an inner (Floor) tile of the square. */
  lemma FloorStep(k: nat)
    requires k < |Moves()|
    requires var p := Positions()[k]; var d := Moves()[k];
      && Positions()[k + 1] == (p.0 + d.0, p.1 + d.1)
      && 0 < p.0 + d.0 < SIDE - 1 && 0 < p.1 + d.1 < SIDE - 1
    requires Entries()[k] == Log.PosUpdateText(NAME, Positions()[k + 1].0, Positions()[k + 1].1)
    ensures StepOK(k)
  {
    var w := State(k).0;
    var h := Entries()[..k];
    var p := Positions()[k];
    var d := Moves()[k];
    var q := Positions()[k + 1];
    assert w.player.name == NAME && w.player.position == p;
    assert w.worldMap == InitBasicSquare();
    assert MoveFits(w.player, d);
    SquareMoveOntoFloor(w, h, d);
    assert PlayerMove(w, h, d).0 == State(k + 1).0;
    Seqs.TakeSnoc(Entries(), k + 1);
  }

  /** Move `k` runs into the border (Wall) of the square. */
  lemma WallStep(k: nat)
    requires k < |Moves()|
    requires var p := Positions()[k]; var d := Moves()[k];
      && Positions()[k + 1] == p
      && InSquare(p.0 + d.0, p.1 + d.1) && OnBorder(p.0 + d.0, p.1 + d.1)
    requires Entries()[k] == WallText(NAME)
    ensures StepOK(k)
  {
    var w := State(k).0;
    var h := Entries()[..k];
    var d := Moves()[k];
    assert w.player.name == NAME && w.player.position == Positions()[k];
    assert w.worldMap == InitBasicSquare();
    assert MoveFits(w.player, d);
    SquareMoveIntoWall(w, h, d);
    assert State(k + 1).0 == w;
    Seqs.TakeSnoc(Entries(), k + 1);
  }

  /** The other entries narrate the player's new position. */
  lemma FloorEntries()
    ensures forall k :: 0 <= k < |Moves()| && k != 3 && k != 6 ==>
      Entries()[k] == Log.PosUpdateText(NAME, Positions()[k + 1].0, Positions()[k + 1].1)
  {
    Digits();
  }

  /** Entries 3 and 6 are wall bumps. */
  lemma WallEntries()
    ensures Entries()[3] == WallText(NAME) && Entries()[6] == WallText(NAME)
  {
  }

  /** Move `k` takes the expected state `k` to the expected state `k + 1`. */
  predicate StepOK(k: nat)
    requires k < |Moves()|
  {
    PlayerMoveFits(State(k).0, Moves()[k]) && PlayerMove(State(k).0, State(k).1, Moves()[k]) == State(k + 1)
  }

  lemma Step0() ensures StepOK(0) { FloorEntries(); FloorStep(0); }
  lemma Step1() ensures StepOK(1) { FloorEntries(); FloorStep(1); }
  lemma Step2() ensures StepOK(2) { FloorEntries(); FloorStep(2); }
  lemma Step3() ensures StepOK(3) { WallEntries(); WallStep(3); }
  lemma Step4() ensures StepOK(4) { FloorEntries(); FloorStep(4); }
  lemma Step5() ensures StepOK(5) { FloorEntries(); FloorStep(5); }
  lemma Step6() ensures StepOK(6) { WallEntries(); WallStep(6); }
  lemma Step7() ensures StepOK(7) { FloorEntries(); FloorStep(7); }

  /** Every move goes as expected; moves 3 and 6 hit a wall. */
  lemma Step(k: nat)
    requires k < |Moves()|
    ensures StepOK(k)
  {
    match k
    case 0 => Step0();
    case 1 => Step1();
    case 2 => Step2();
    case 3 => Step3();
    case 4 => Step4();
    case 5 => Step5();
    case 6 => Step6();
    case 7 => Step7();
  }

  lemma {:induction false} RunFrom(k: nat)
    requires k <= |Moves()|
    ensures Run(State(k).0, State(k).1, Moves()[k..]) == Some(State(|Moves()|))
    decreases |Moves()| - k
  {
    if k < |Moves()| {
      Step(k);
      assert Moves()[k..][1..] == Moves()[k + 1..];
      RunFrom(k + 1);
    }
  }

  /** The world and log `main` ends with: the player at (8, 2), the map and
      roster as generated, and eight entries. */
  function Final(): (World, Log.History)
  {
    (Start().(player := Start().player.(position := (8, 2))), Entries())
  }

  /** The player walks right to (8, 5), bumps the east wall, walks down to
      (8, 8), bumps the south wall and comes back up to (8, 2). The log
      holds eight entries, two of them wall bumps; the map and roster are
      untouched, and `tail` reads every entry back in order. */
  lemma MainReplay()
    ensures Run(Start(), [], Moves()) == Some(Final())
    ensures |Final().1| == 8
    ensures Final().1[..Log.Min(Log.TAIL_LENGTH, |Final().1|)] == Final().1
  {
    assert |Moves()| == 8 && |Entries()| == 8;
    assert Positions()[8] == (8, 2);
    assert Entries()[..0] == [] && Entries()[..8] == Entries();
    assert State(0) == (Start(), []);
    assert State(8) == Final();
    RunFrom(0);
    assert Moves()[0..] == Moves();
  }
}
