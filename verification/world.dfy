/** The world (`World` in src/engine/world.rs): one player, a roster of
    other actors and a map, with collision-checked player movement. The
    log history is threaded through `PlayerMove`. */
module Worlds {
  import opened Ints
  import opened Wrappers
  import opened Actors
  import opened Tiles
  import Log

  /** The roster is stored but never read by any operation. `worldMap` is
      the source's `map` field (`map` is a Dafny keyword). */
  datatype World = World(player: Actor, actors: seq<Option<Actor>>, worldMap: Map)

  /** `World::start_empty_square`: the given player, no other actors, and
      a freshly generated square map. */
  function StartEmptySquare(player: Actor): (w: World)
    ensures w.player == player && |w.actors| == 0
    ensures w.worldMap == InitBasicSquare()
  {
    World(player, [], InitBasicSquare())
  }

  /** The narration of a blocked move: "{name} hitted a wall.". It starts
      with the name and never reads as a "moved to" entry for that name. */
  function WallText(name: string): (e: string)
    ensures |e| > |name| && e[..|name|] == name
    ensures Log.PositionOfEntry(name, e) == None
  {
    var e := name + " hitted a wall.";
    var prefix := name + " moved to ";
    assert e[|name| + 1] == 'h' && prefix[|name| + 1] == 'm';
    e
  }

  /** The `find` closure of `player_move` computes `position.0 + d.0` for
      every tile it visits, and `position.1 + d.1` only for a tile whose `x`
      already matches (`&&` short-circuits). Both sums are `i16` and an
      overflow panics in a debug build, so the move panics exactly when there
      is a tile and the first sum overflows, or when the second overflows and
      some tile has the destination's `x`. No tile can match before that
      tile, so it is always reached. */
  predicate PlayerMoveFits(w: World, d: Position)
  {
    var x := w.player.position.0 + d.0;
    var y := w.player.position.1 + d.1;
    |w.worldMap.tiles| == 0 || (InI16(x) && (InI16(y) || NoTileInColumn(w.worldMap.tiles, x)))
  }

  /** No tile has `x` as its first coordinate. */
  predicate NoTileInColumn(tiles: seq<Tile>, x: int)
  {
    forall i :: 0 <= i < |tiles| ==> tiles[i].position.0 != x
  }

  /** The tile `player_move` finds at the destination, if any. */
  function Destination(w: World, d: Position): Option<Tile>
  {
    FindTile(w.worldMap.tiles, w.player.position.0 + d.0, w.player.position.1 + d.1)
  }

  /** `World::player_move`: onto a Floor tile the player moves by exactly
      `d` and one "moved to" entry carrying the new position is appended;
      into a Wall tile the player stays and one "hitted a wall." entry is
      appended; where no tile exists nothing changes. The map and the roster
      are never modified. */
  function PlayerMove(w: World, h: Log.History, d: Position): (r: (World, Log.History))
    requires PlayerMoveFits(w, d)
    ensures r.0.worldMap == w.worldMap && r.0.actors == w.actors
    ensures r.0.player == w.player.(position := r.0.player.position)
    ensures |h| <= |r.1| <= |h| + 1 && r.1[..|h|] == h
    ensures Destination(w, d).None? ==> r == (w, h)
    ensures Destination(w, d).Some? && Destination(w, d).value.ttype == Wall ==>
      r.0 == w && r.1 == h + [WallText(w.player.name)]
    ensures Destination(w, d).Some? && Destination(w, d).value.ttype == Floor ==>
      && r.0.player.position.0 == w.player.position.0 + d.0
      && r.0.player.position.1 == w.player.position.1 + d.1
      && |r.1| == |h| + 1 && r.1[..|h|] == h
      && r.1[|h|] == Log.PosUpdateText(w.player.name, r.0.player.position.0, r.0.player.position.1)
      && Log.PositionOfEntry(w.player.name, r.1[|h|]) == Some(r.0.player.position)
  {
    match Destination(w, d)
    case None => (w, h)
    case Some(t) =>
      match t.ttype
      case Floor =>
        var (p, h') := MoveToDirection(w.player, h, d);
        (w.(player := p), h')
      case Wall => (w, Log.AddToLog(h, WallText(w.player.name)))
  }

  /** The player stands on a Floor tile of the map. */
  predicate OnFloor(w: World)
  {
    var t := FindTile(w.worldMap.tiles, w.player.position.0, w.player.position.1);
    t.Some? && t.value.ttype == Floor
  }

  /** Whatever the map, a player standing on Floor still does after any
      move: the player only ever moves onto a Floor tile. */
  lemma PlayerMoveKeepsFloor(w: World, h: Log.History, d: Position)
    requires PlayerMoveFits(w, d)
    requires OnFloor(w)
    ensures OnFloor(PlayerMove(w, h, d).0)
  {
    var t := Destination(w, d);
    if t.Some? && t.value.ttype == Floor {
      var w' := PlayerMove(w, h, d).0;
      assert w'.worldMap == w.worldMap;
      assert FindTile(w'.worldMap.tiles, w'.player.position.0, w'.player.position.1) == t;
    }
  }

  /** A new player in a fresh square world starts on Floor at (5, 5). */
  lemma StartOnFloor(name: string)
    ensures OnFloor(StartEmptySquare(NewPlayer(name)))
  {
    SquareFind(5, 5);
  }

  /** On the square map the destination is the generated tile inside the
      square and nothing outside it. */
  lemma SquareDestination(w: World, d: Position, x: int, y: int)
    requires w.worldMap == InitBasicSquare()
    requires x == w.player.position.0 + d.0 && y == w.player.position.1 + d.1
    ensures Destination(w, d) == if InSquare(x, y) then Some(SquareTile(x, y)) else None
  {
    SquareFind(x, y);
  }

  /** On the square map, a move whose destination is inside the border
      moves the player by exactly `d` and narrates the new position. */
  lemma SquareMoveOntoFloor(w: World, h: Log.History, d: Position)
    requires w.worldMap == InitBasicSquare()
    requires 0 < w.player.position.0 + d.0 < SIDE - 1 && 0 < w.player.position.1 + d.1 < SIDE - 1
    ensures var (w', h') := PlayerMove(w, h, d);
      && w' == w.(player := w.player.(position := (w.player.position.0 + d.0, w.player.position.1 + d.1)))
      && h' == h + [Log.PosUpdateText(w.player.name, w.player.position.0 + d.0, w.player.position.1 + d.1)]
  {
    var x := w.player.position.0 + d.0;
    var y := w.player.position.1 + d.1;
    SquareDestination(w, d, x, y);
    assert SquareTile(x, y).ttype == Floor;
    var (p, h') := MoveToDirection(w.player, h, d);
    assert PlayerMove(w, h, d) == (w.(player := p), h');
    assert p == w.player.(position := (x, y));
  }

  /** On the square map, a move onto the border leaves the player where it
      was and appends exactly "{name} hitted a wall.". */
  lemma SquareMoveIntoWall(w: World, h: Log.History, d: Position)
    requires w.worldMap == InitBasicSquare()
    requires InSquare(w.player.position.0 + d.0, w.player.position.1 + d.1)
    requires OnBorder(w.player.position.0 + d.0, w.player.position.1 + d.1)
    ensures PlayerMove(w, h, d) == (w, h + [WallText(w.player.name)])
  {
    var x := w.player.position.0 + d.0;
    var y := w.player.position.1 + d.1;
    SquareDestination(w, d, x, y);
    assert SquareTile(x, y).ttype == Wall;
  }

  /** On the square map, a move to a coordinate off the grid changes
      neither the world nor the log. */
  lemma SquareMoveOffGrid(w: World, h: Log.History, d: Position)
    requires w.worldMap == InitBasicSquare()
    requires PlayerMoveFits(w, d)
    requires !InSquare(w.player.position.0 + d.0, w.player.position.1 + d.1)
    ensures PlayerMove(w, h, d) == (w, h)
  {
    SquareDestination(w, d, w.player.position.0 + d.0, w.player.position.1 + d.1);
  }

  /** A move whose `y` sum overflows is no panic when no tile has the
      destination's `x`: from (20, 32767) on the square, a move by (0, 1)
      never computes 32767 + 1 and changes nothing. */
  lemma ShortCircuitMove(w: World, h: Log.History)
    requires w.worldMap == InitBasicSquare() && w.player.position == (20, I16_MAX)
    ensures !MoveFits(w.player, (0, 1)) && PlayerMoveFits(w, (0, 1))
    ensures PlayerMove(w, h, (0, 1)) == (w, h)
  {
    var ts := w.worldMap.tiles;
    forall i | 0 <= i < |ts|
      ensures ts[i].position.0 != 20
    {
      assert ts[i] == SquareTile(i / SIDE, i % SIDE);
    }
    SquareMoveOffGrid(w, h, (0, 1));
  }

  /** A wall bump and a move are told apart in the log: the wall text of
      a name differs from every "moved to" text of that name, whatever the
      position. */
  lemma WallTextIsNotAMove(name: string)
    ensures forall x: int, y: int :: WallText(name) != Log.PosUpdateText(name, x, y)
  {
    forall x: int, y: int
      ensures WallText(name) != Log.PosUpdateText(name, x, y)
    {
      Log.PosUpdateRoundTrip(name, x, y);
    }
  }
}
