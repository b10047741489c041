/** Tiles and the map (`ETileType`, `Tile`, `Map` in src/engine/world.rs):
    the 10x10 bordered square generator, the tile lookup `player_move`
    performs, and a census of the generated tiles. */
module Tiles {
  import opened Ints
  import opened Wrappers
  import opened Seqs

  datatype TileType = Floor | Wall
  {
    /** `get_char`: '.' for Floor and '#' for Wall, so the character tells
        the type; neither is the player's '@'. */
    function Char(): (c: char)
      ensures c == '.' <==> Floor?
      ensures c == '#' <==> Wall?
      ensures c != '@'
    {
      if Floor? then '.' else '#'
    }
  }

  datatype Tile = Tile(ttype: TileType, position: (i16, i16))

  /** `origin` only shifts the origin-relative rendering; lookups ignore it. */
  datatype Map = Map(origin: (i16, i16), tiles: seq<Tile>, limitX: i16, limitY: i16)

  /** Side of the square map, in tiles: `init_basic_square` fills 10 by 10. */
  const SIDE: int := 10

  predicate OnBorder(x: int, y: int)
  {
    x == 0 || x == SIDE - 1 || y == 0 || y == SIDE - 1
  }

  predicate InSquare(x: int, y: int)
  {
    0 <= x < SIDE && 0 <= y < SIDE
  }

  /** The tile the generator makes at `(x, y)`: Wall on the border, Floor
      inside. */
  function SquareTile(x: int, y: int): Tile
    requires InSquare(x, y)
  {
    Tile(if OnBorder(x, y) then Wall else Floor, (x, y))
  }

  /** One pass of the inner loop: `y` from 0 to 9 for a fixed `x`. */
  function SquareRow(x: int): seq<Tile>
    requires 0 <= x < SIDE
  {
    seq(SIDE, y requires 0 <= y < SIDE => SquareTile(x, y))
  }

  /** The outer loop: `x` from 0 to 9. */
  function SquareRows(): seq<seq<Tile>>
  {
    seq(SIDE, x requires 0 <= x < SIDE => SquareRow(x))
  }

  /** `Map::init_basic_square`: 100 tiles stored with `x` as the outer loop
      and `y` as the inner one, origin (0, 0), limits 10 by 10. */
  function InitBasicSquare(): (m: Map)
    ensures m.origin == (0, 0) && m.limitX == SIDE && m.limitY == SIDE
    ensures |m.tiles| == SIDE * SIDE
    ensures forall i :: 0 <= i < |m.tiles| ==> m.tiles[i] == SquareTile(i / SIDE, i % SIDE)
  {
    ConcatRows(SquareRows(), SIDE);
    Map((0, 0), Concat(SquareRows()), SIDE, SIDE)
  }

  predicate At(t: Tile, x: int, y: int)
  {
    t.position.0 == x && t.position.1 == y
  }

  /** No tile is stored at `(x, y)`. */
  predicate NoTileAt(tiles: seq<Tile>, x: int, y: int)
  {
    forall i :: 0 <= i < |tiles| ==> !At(tiles[i], x, y)
  }

  /** Index `i` holds the first tile stored at `(x, y)`. */
  predicate FirstAt(tiles: seq<Tile>, i: int, x: int, y: int)
  {
    0 <= i < |tiles| && At(tiles[i], x, y) && forall j :: 0 <= j < i ==> !At(tiles[j], x, y)
  }

  /** `tiles.iter().find(..)` on a position: the first tile stored at
      `(x, y)`, or None when no tile is there. */
  function FindTile(tiles: seq<Tile>, x: int, y: int): (r: Option<Tile>)
    ensures r.None? <==> NoTileAt(tiles, x, y)
    ensures r.Some? ==> exists i :: FirstAt(tiles, i, x, y) && tiles[i] == r.value
    ensures r.Some? ==> At(r.value, x, y)
  {
    if |tiles| == 0 then None
    else if At(tiles[0], x, y) then
      assert FirstAt(tiles, 0, x, y);
      Some(tiles[0])
    else
      var r := FindTile(tiles[1..], x, y);
      assert forall i :: 1 <= i < |tiles| ==> tiles[1..][i - 1] == tiles[i];
      if r.Some? then
        var i :| FirstAt(tiles[1..], i, x, y) && tiles[1..][i] == r.value;
        assert FirstAt(tiles, i + 1, x, y);
        r
      else
        r
  }

  /** Every coordinate of the 10x10 square holds exactly one tile, and no
      tile lies outside it. */
  lemma SquareCoordinates()
    ensures var ts := InitBasicSquare().tiles;
      && (forall i :: 0 <= i < |ts| ==> InSquare(ts[i].position.0, ts[i].position.1))
      && (forall i, j :: 0 <= i < j < |ts| ==> ts[i].position != ts[j].position)
      && (forall x, y :: InSquare(x, y) ==> ts[SIDE * x + y] == SquareTile(x, y))
  {
    var ts := InitBasicSquare().tiles;
    forall x, y | InSquare(x, y)
      ensures ts[SIDE * x + y] == SquareTile(x, y)
    {
      var i := SIDE * x + y;
      assert i / SIDE == x && i % SIDE == y;
    }
    forall i, j | 0 <= i < j < |ts|
      ensures ts[i].position != ts[j].position
    {
      assert i == SIDE * (i / SIDE) + i % SIDE;
      assert j == SIDE * (j / SIDE) + j % SIDE;
    }
  }

  /** A tile of the square is a Wall exactly when it lies on the border. */
  lemma SquareWallLayout()
    ensures var ts := InitBasicSquare().tiles;
      forall i :: 0 <= i < |ts| ==>
        (ts[i].ttype == Wall <==> OnBorder(ts[i].position.0, ts[i].position.1))
  {
  }

  /** Looking up a position on the square finds the generated tile inside
      the square and nothing outside it. */
  lemma SquareFind(x: int, y: int)
    ensures FindTile(InitBasicSquare().tiles, x, y) == if InSquare(x, y) then Some(SquareTile(x, y)) else None
  {
    var ts := InitBasicSquare().tiles;
    if InSquare(x, y) {
      assert At(ts[SIDE * x + y], x, y) by { SquareCoordinates(); }
    }
  }

  /** Number of tiles of type `k`. */
  function CountType(tiles: seq<Tile>, k: TileType): nat
  {
    if |tiles| == 0 then 0
    else CountType(tiles[..|tiles| - 1], k) + (if tiles[|tiles| - 1].ttype == k then 1 else 0)
  }

  lemma {:induction false} CountTypeAppend(a: seq<Tile>, b: seq<Tile>, k: TileType)
    ensures CountType(a + b, k) == CountType(a, k) + CountType(b, k)
    decreases |b|
  {
    if |b| > 0 {
      assert (a + b)[..|a + b| - 1] == a + b[..|b| - 1];
      CountTypeAppend(a, b[..|b| - 1], k);
    } else {
      assert a + b == a;
    }
  }

  /** Every tile is either Floor or Wall. */
  lemma {:induction false} CountTypeTotal(tiles: seq<Tile>)
    ensures CountType(tiles, Wall) + CountType(tiles, Floor) == |tiles|
  {
    if |tiles| > 0 {
      CountTypeTotal(tiles[..|tiles| - 1]);
    }
  }

  /** Walls among the first `m` tiles of row `x`: all of them on the first
      and last rows, otherwise only the first and last columns. */
  lemma {:induction false} RowWalls(x: int, m: nat)
    requires 0 <= x < SIDE && m <= SIDE
    ensures CountType(SquareRow(x)[..m], Wall) ==
      if x == 0 || x == SIDE - 1 then m
      else (if m >= 1 then 1 else 0) + (if m == SIDE then 1 else 0)
  {
    if m > 0 {
      assert SquareRow(x)[..m][..m - 1] == SquareRow(x)[..m - 1];
      RowWalls(x, m - 1);
    }
  }

  /** Walls in the first `n` rows. */
  lemma {:induction false} GridWalls(n: nat)
    requires n <= SIDE
    ensures CountType(Concat(SquareRows()[..n]), Wall) ==
      (if n >= 1 then SIDE else 0) + 2 * (if n >= 2 then (if n <= SIDE - 1 then n - 1 else SIDE - 2) else 0)
      + (if n == SIDE then SIDE else 0)
  {
    if n > 0 {
      var rows := SquareRows();
      ConcatPrefix(rows, n);
      CountTypeAppend(Concat(rows[..n - 1]), rows[n - 1], Wall);
      GridWalls(n - 1);
      RowWalls(n - 1, SIDE);
      assert SquareRow(n - 1)[..SIDE] == rows[n - 1];
    }
  }

  /** The square has 36 Wall tiles (its border) and 64 Floor tiles. */
  lemma SquareCensus()
    ensures CountType(InitBasicSquare().tiles, Wall) == 36
    ensures CountType(InitBasicSquare().tiles, Floor) == 64
  {
    var rows := SquareRows();
    GridWalls(SIDE);
    assert rows[..SIDE] == rows;
    CountTypeTotal(InitBasicSquare().tiles);
  }
}
