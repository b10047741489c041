/** The two text renderers of `World` (src/engine/world.rs): `print_map`,
    which walks the tiles in storage order, and `print_map_other_origin`,
    which shifts by the map origin, filters, sorts by row and column, and
    breaks lines on row changes. Both build a string that the source then
    prints; the model returns the string. */
module Rendering {
  import opened Ints
  import opened Seqs
  import opened Actors
  import opened Tiles
  import opened Worlds

  const PLAYER_CHAR: char := '@'

  /** What a tile shows: '@' where the player stands, otherwise the tile's
      own character. */
  function Glyph(t: Tile, player: Position): char
  {
    if t.position == player then PLAYER_CHAR else t.ttype.Char()
  }

  /** The glyphs of a sequence of tiles, one per tile. */
  function Glyphs(tiles: seq<Tile>, player: Position): seq<char>
  {
    seq(|tiles|, i requires 0 <= i < |tiles| => Glyph(tiles[i], player))
  }

  /** The characters of a text other than line breaks. */
  function StripNewlines(s: string): string
  {
    if |s| == 0 then ""
    else StripNewlines(s[..|s| - 1]) + (if s[|s| - 1] == '\n' then "" else [s[|s| - 1]])
  }

  function NewlineCount(s: string): nat
  {
    if |s| == 0 then 0
    else NewlineCount(s[..|s| - 1]) + (if s[|s| - 1] == '\n' then 1 else 0)
  }

  lemma {:induction false} TextAppend(a: string, b: string)
    ensures StripNewlines(a + b) == StripNewlines(a) + StripNewlines(b)
    ensures NewlineCount(a + b) == NewlineCount(a) + NewlineCount(b)
    decreases |b|
  {
    if |b| == 0 {
      assert a + b == a;
    } else {
      assert (a + b)[..|a + b| - 1] == a + b[..|b| - 1];
      TextAppend(a, b[..|b| - 1]);
    }
  }

  /** Lines, each followed by a line break. */
  function JoinLines(lines: seq<string>): string
  {
    if |lines| == 0 then "" else JoinLines(lines[..|lines| - 1]) + lines[|lines| - 1] + "\n"
  }

  lemma JoinLinesSnoc(lines: seq<string>, line: string)
    ensures JoinLines(lines + [line]) == JoinLines(lines) + line + "\n"
  {
    assert (lines + [line])[..|lines|] == lines;
  }

  // ---------------------------------------------------------------------
  // print_map

  /** Tiles after which `print_map` breaks the line: `y + 1 == limit_y`. */
  function RowEnds(tiles: seq<Tile>, limitY: int): nat
  {
    if |tiles| == 0 then 0
    else RowEnds(tiles[..|tiles| - 1], limitY) + (if tiles[|tiles| - 1].position.1 + 1 == limitY then 1 else 0)
  }

  /** The text `print_map` accumulates: per tile in storage order, its glyph,
      then a line break when the tile's `y + 1` equals `limit_y`. */
  function StorageOrderText(tiles: seq<Tile>, player: Position, limitY: int): string
  {
    if |tiles| == 0 then ""
    else StorageOrderText(tiles[..|tiles| - 1], player, limitY) + Cell(tiles[|tiles| - 1], player, limitY)
  }

  /** Without its line breaks the text is one glyph per tile in storage
      order, and it holds one line break per tile whose `y + 1` equals
      `limit_y`. */
  lemma {:induction false} StorageOrderGlyphs(tiles: seq<Tile>, player: Position, limitY: int)
    ensures StripNewlines(StorageOrderText(tiles, player, limitY)) == Glyphs(tiles, player)
    ensures NewlineCount(StorageOrderText(tiles, player, limitY)) == RowEnds(tiles, limitY)
  {
    if |tiles| > 0 {
      var front := tiles[..|tiles| - 1];
      var t := tiles[|tiles| - 1];
      var s0 := StorageOrderText(front, player, limitY);
      var cell := Cell(t, player, limitY);
      StorageOrderGlyphs(front, player, limitY);
      TextAppend(s0, cell);
      TextAppend([Glyph(t, player)], if t.position.1 + 1 == limitY then "\n" else "");
      assert Glyphs(tiles, player) == Glyphs(front, player) + [Glyph(t, player)];
    }
  }

  /** What one tile adds to the `print_map` text: its glyph, then a line
      break when its `y + 1` equals `limit_y`. */
  function Cell(t: Tile, player: Position, limitY: int): string
  {
    [Glyph(t, player)] + (if t.position.1 + 1 == limitY then "\n" else "")
  }

  /** The cell of each tile, in storage order. */
  function Cells(tiles: seq<Tile>, player: Position, limitY: int): seq<string>
  {
    seq(|tiles|, i requires 0 <= i < |tiles| => Cell(tiles[i], player, limitY))
  }

  /** The text is the tiles' cells one after another: each glyph is
      followed by a line break exactly when its tile's `y + 1` is
      `limit_y`. */
  lemma {:induction false} StorageOrderCells(tiles: seq<Tile>, player: Position, limitY: int)
    ensures StorageOrderText(tiles, player, limitY) == Concat(Cells(tiles, player, limitY))
  {
    if |tiles| > 0 {
      var n := |tiles|;
      var front := tiles[..n - 1];
      StorageOrderCells(front, player, limitY);
      var cs := Cells(tiles, player, limitY);
      assert cs[..n - 1] == Cells(front, player, limitY);
      assert cs[n - 1] == Cell(tiles[n - 1], player, limitY);
      ConcatPrefix(cs, n);
      assert cs[..n] == cs;
    }
  }

  /** One more tile adds its cell at the end. */
  lemma StorageOrderSnoc(tiles: seq<Tile>, player: Position, limitY: int)
    requires |tiles| > 0
    ensures StorageOrderText(tiles, player, limitY)
      == StorageOrderText(tiles[..|tiles| - 1], player, limitY) + Cell(tiles[|tiles| - 1], player, limitY)
  {
  }

  lemma {:induction false} StorageOrderAppend(a: seq<Tile>, b: seq<Tile>, player: Position, limitY: int)
    ensures StorageOrderText(a + b, player, limitY)
      == StorageOrderText(a, player, limitY) + StorageOrderText(b, player, limitY)
    decreases |b|
  {
    if |b| == 0 {
      assert a + b == a;
    } else {
      assert (a + b)[..|a + b| - 1] == a + b[..|b| - 1];
      StorageOrderAppend(a, b[..|b| - 1], player, limitY);
    }
  }

  /** `y + 1` is computed in `i16`; it overflows only for a tile at
      `y == i16::MAX`. */
  predicate PrintMapFits(w: World)
  {
    forall i :: 0 <= i < |w.worldMap.tiles| ==> w.worldMap.tiles[i].position.1 < I16_MAX
  }

  /** `World::print_map`: without its line breaks the text is the tiles'
      glyphs in storage order, and it holds one line break per tile whose
      `y + 1` equals `limit_y`. */
  function PrintMap(w: World): (s: string)
    requires PrintMapFits(w)
    ensures StripNewlines(s) == Glyphs(w.worldMap.tiles, w.player.position)
    ensures NewlineCount(s) == RowEnds(w.worldMap.tiles, w.worldMap.limitY)
    ensures s == Concat(Cells(w.worldMap.tiles, w.player.position, w.worldMap.limitY))
  {
    StorageOrderGlyphs(w.worldMap.tiles, w.player.position, w.worldMap.limitY);
    StorageOrderCells(w.worldMap.tiles, w.player.position, w.worldMap.limitY);
    StorageOrderText(w.worldMap.tiles, w.player.position, w.worldMap.limitY)
  }

  /** Row `x` of the square as `print_map` shows it: the glyphs of the tiles
      with that `x`, for `y` from 0 to 9. */
  function StorageLine(x: int, player: Position): string
    requires 0 <= x < SIDE
  {
    seq(SIDE, y requires 0 <= y < SIDE => Glyph(SquareTile(x, y), player))
  }

  lemma {:induction false} StorageRowPrefix(x: int, m: nat, player: Position)
    requires 0 <= x < SIDE && m <= SIDE
    ensures StorageOrderText(SquareRow(x)[..m], player, SIDE)
      == StorageLine(x, player)[..m] + (if m == SIDE then "\n" else "")
  {
    var line := StorageLine(x, player);
    if m == 0 {
      assert SquareRow(x)[..0] == [] && line[..0] == "";
    } else {
      var row := SquareRow(x)[..m];
      var t := SquareTile(x, m - 1);
      assert row[m - 1] == t;
      assert row[..m - 1] == SquareRow(x)[..m - 1];
      StorageOrderSnoc(row, player, SIDE);
      var nl := if m == SIDE then "\n" else "";
      assert Cell(t, player, SIDE) == [Glyph(t, player)] + nl;
      StorageRowPrefix(x, m - 1, player);
      assert line[..m - 1] + "" == line[..m - 1];
      TakeSnoc(line, m);
      assert line[m - 1] == Glyph(t, player);
      assert line[..m - 1] + ([Glyph(t, player)] + nl) == line[..m] + nl;
    }
  }

  lemma {:induction false} StorageGrid(n: nat, player: Position)
    requires n <= SIDE
    ensures StorageOrderText(Concat(SquareRows()[..n]), player, SIDE)
      == JoinLines(seq(n, x requires 0 <= x < n => StorageLine(x, player)))
  {
    if n > 0 {
      var prev := seq(n - 1, x requires 0 <= x < n - 1 => StorageLine(x, player));
      assert seq(n, x requires 0 <= x < n => StorageLine(x, player)) == prev + [StorageLine(n - 1, player)];
      JoinLinesSnoc(prev, StorageLine(n - 1, player));
      StorageGrid(n - 1, player);
      StorageGridStep(n, player);
    }
  }

  /** The text of the first `n` rows is that of the first `n - 1`, then
      row `n - 1` and a line break. */
  lemma StorageGridStep(n: nat, player: Position)
    requires 0 < n <= SIDE
    ensures StorageOrderText(Concat(SquareRows()[..n]), player, SIDE)
      == StorageOrderText(Concat(SquareRows()[..n - 1]), player, SIDE) + StorageLine(n - 1, player) + "\n"
  {
    var rows := SquareRows();
    assert rows[n - 1] == SquareRow(n - 1);
    ConcatPrefix(rows, n);
    StorageOrderAppend(Concat(rows[..n - 1]), SquareRow(n - 1), player, SIDE);
    StorageRowFull(n - 1, player);
  }

  /** A whole row of the square is its line and a line break. */
  lemma StorageRowFull(x: int, player: Position)
    requires 0 <= x < SIDE
    ensures StorageOrderText(SquareRow(x), player, SIDE) == StorageLine(x, player) + "\n"
  {
    StorageRowPrefix(x, SIDE, player);
    assert SquareRow(x)[..SIDE] == SquareRow(x);
    assert StorageLine(x, player)[..SIDE] == StorageLine(x, player);
  }

  /** On the square map `print_map` gives ten lines of ten glyphs; line `k`
      shows the tiles with `x == k`, for `y` from 0 to 9, with '@' at the
      player's tile. */
  lemma PrintMapSquare(w: World)
    requires w.worldMap == InitBasicSquare()
    ensures PrintMapFits(w)
    ensures PrintMap(w) ==
      JoinLines(seq(SIDE, x requires 0 <= x < SIDE => seq(SIDE, y requires 0 <= y < SIDE =>
        Glyph(SquareTile(x, y), w.player.position))))
  {
    StorageAllRows(w.player.position);
  }

  /** The text of all ten rows is the ten storage lines. */
  lemma StorageAllRows(p: Position)
    ensures StorageOrderText(InitBasicSquare().tiles, p, SIDE)
      == JoinLines(seq(SIDE, x requires 0 <= x < SIDE => seq(SIDE, y requires 0 <= y < SIDE => Glyph(SquareTile(x, y), p))))
  {
    StorageGrid(SIDE, p);
    assert SquareRows()[..SIDE] == SquareRows();
    StorageLines(p);
  }

  lemma StorageLines(p: Position)
    ensures seq(SIDE, x requires 0 <= x < SIDE => StorageLine(x, p))
      == seq(SIDE, x requires 0 <= x < SIDE => seq(SIDE, y requires 0 <= y < SIDE => Glyph(SquareTile(x, y), p)))
  {
  }

  // ---------------------------------------------------------------------
  // print_map_other_origin

  /** A tile with its origin-relative coordinates: `(adjusted_x,
      adjusted_y, &Tile)`. */
  datatype Placed = Placed(ax: int, ay: int, tile: Tile)

  /** Coordinates relative to the origin, by `i16::saturating_sub`. */
  function Adjusted(t: Tile, origin: (i16, i16)): Placed
  {
    Placed(SatSub16(t.position.0, origin.0), SatSub16(t.position.1, origin.1), t)
  }

  /** The visibility filter: below both limits. There is no lower bound, so
      tiles left of or above the origin pass. */
  predicate Shown(p: Placed, limitX: int, limitY: int)
  {
    p.ax < limitX && p.ay < limitY
  }

  /** The `filter_map` loop itself: the shown tiles with their adjusted
      coordinates, in storage order. */
  function Keep(tiles: seq<Tile>, origin: (i16, i16), limitX: int, limitY: int): seq<Placed>
  {
    if |tiles| == 0 then []
    else
      var p := Adjusted(tiles[|tiles| - 1], origin);
      var r0 := Keep(tiles[..|tiles| - 1], origin, limitX, limitY);
      if Shown(p, limitX, limitY) then r0 + [p] else r0
  }

  /** Every kept tile is shown and carries its shifted coordinates. */
  lemma {:induction false} KeepShown(tiles: seq<Tile>, origin: (i16, i16), limitX: int, limitY: int)
    ensures var r := Keep(tiles, origin, limitX, limitY);
      && |r| <= |tiles|
      && forall k :: 0 <= k < |r| ==>
        Shown(r[k], limitX, limitY) && r[k] == Adjusted(r[k].tile, origin) && r[k].tile in tiles
  {
    if |tiles| > 0 {
      var front := tiles[..|tiles| - 1];
      KeepShown(front, origin, limitX, limitY);
      assert tiles == front + [tiles[|tiles| - 1]];
    }
  }

  /** No shown tile is dropped. */
  lemma {:induction false} KeepComplete(tiles: seq<Tile>, origin: (i16, i16), limitX: int, limitY: int)
    ensures forall i :: 0 <= i < |tiles| && Shown(Adjusted(tiles[i], origin), limitX, limitY) ==>
      Adjusted(tiles[i], origin) in Keep(tiles, origin, limitX, limitY)
  {
    if |tiles| > 0 {
      var front := tiles[..|tiles| - 1];
      KeepComplete(front, origin, limitX, limitY);
      assert forall i :: 0 <= i < |tiles| - 1 ==> tiles[i] == front[i];
    }
  }

  /** The storage indices of the shown tiles, in increasing order. */
  function ShownIndices(tiles: seq<Tile>, origin: (i16, i16), limitX: int, limitY: int): (idx: seq<int>)
    ensures forall k :: 0 <= k < |idx| ==> 0 <= idx[k] < |tiles|
    ensures forall k, l :: 0 <= k < l < |idx| ==> idx[k] < idx[l]
  {
    if |tiles| == 0 then []
    else
      var n := |tiles| - 1;
      var r0 := ShownIndices(tiles[..n], origin, limitX, limitY);
      if Shown(Adjusted(tiles[n], origin), limitX, limitY) then r0 + [n] else r0
  }

  /** An index is listed exactly when its tile is shown. */
  lemma {:induction false} ShownIndicesExact(tiles: seq<Tile>, origin: (i16, i16), limitX: int, limitY: int)
    ensures forall i :: 0 <= i < |tiles| ==>
      (i in ShownIndices(tiles, origin, limitX, limitY) <==> Shown(Adjusted(tiles[i], origin), limitX, limitY))
  {
    if |tiles| > 0 {
      var n := |tiles| - 1;
      var front := tiles[..n];
      ShownIndicesExact(front, origin, limitX, limitY);
      var r0 := ShownIndices(front, origin, limitX, limitY);
      var r := ShownIndices(tiles, origin, limitX, limitY);
      assert n !in r0;
      forall i | 0 <= i < |tiles|
        ensures i in r <==> Shown(Adjusted(tiles[i], origin), limitX, limitY)
      {
        if i < n {
          assert front[i] == tiles[i];
          assert i in r <==> i in r0;
        }
      }
    }
  }

  /** The kept tiles are the shown ones, each once, in storage order:
      entry `k` is tile `ShownIndices(..)[k]` with its shifted
      coordinates. */
  lemma {:induction false} KeepIndexed(tiles: seq<Tile>, origin: (i16, i16), limitX: int, limitY: int)
    ensures var r := Keep(tiles, origin, limitX, limitY);
      var idx := ShownIndices(tiles, origin, limitX, limitY);
      && |r| == |idx|
      && forall k :: 0 <= k < |r| ==> r[k] == Adjusted(tiles[idx[k]], origin)
  {
    if |tiles| > 0 {
      var n := |tiles| - 1;
      var front := tiles[..n];
      KeepIndexed(front, origin, limitX, limitY);
      var r0 := Keep(front, origin, limitX, limitY);
      var idx0 := ShownIndices(front, origin, limitX, limitY);
      var p := Adjusted(tiles[n], origin);
      var r := Keep(tiles, origin, limitX, limitY);
      var idx := ShownIndices(tiles, origin, limitX, limitY);
      if Shown(p, limitX, limitY) {
        assert r == r0 + [p] && idx == idx0 + [n];
      } else {
        assert r == r0 && idx == idx0;
      }
      forall k | 0 <= k < |r|
        ensures r[k] == Adjusted(tiles[idx[k]], origin)
      {
        if k < |r0| {
          assert r[k] == r0[k] && idx[k] == idx0[k];
          assert front[idx0[k]] == tiles[idx0[k]];
        }
      }
    }
  }

  /** The `filter_map` step: exactly the tiles whose shifted coordinates
      are below both limits, each once and in storage order, each with
      those coordinates. */
  function VisibleTiles(tiles: seq<Tile>, origin: (i16, i16), limitX: int, limitY: int): (r: seq<Placed>)
    ensures |r| <= |tiles|
    ensures forall k :: 0 <= k < |r| ==>
      Shown(r[k], limitX, limitY) && r[k] == Adjusted(r[k].tile, origin) && r[k].tile in tiles
    ensures forall i :: 0 <= i < |tiles| && Shown(Adjusted(tiles[i], origin), limitX, limitY) ==>
      Adjusted(tiles[i], origin) in r
    ensures var idx := ShownIndices(tiles, origin, limitX, limitY);
      && |r| == |idx|
      && forall k :: 0 <= k < |r| ==> r[k] == Adjusted(tiles[idx[k]], origin)
  {
    KeepIndexed(tiles, origin, limitX, limitY);
    KeepShown(tiles, origin, limitX, limitY);
    KeepComplete(tiles, origin, limitX, limitY);
    Keep(tiles, origin, limitX, limitY)
  }

  /** When every tile is shown, the filter keeps all of them in order. */
  lemma {:induction false} VisibleAll(tiles: seq<Tile>, origin: (i16, i16), limitX: int, limitY: int)
    requires forall i :: 0 <= i < |tiles| ==> Shown(Adjusted(tiles[i], origin), limitX, limitY)
    ensures Keep(tiles, origin, limitX, limitY)
      == seq(|tiles|, i requires 0 <= i < |tiles| => Adjusted(tiles[i], origin))
  {
    var n := |tiles|;
    if n > 0 {
      var front := tiles[..n - 1];
      assert forall i :: 0 <= i < n - 1 ==> front[i] == tiles[i];
      VisibleAll(front, origin, limitX, limitY);
    }
  }

  /** The sort key `(adjusted_y, adjusted_x)`: row first, then column. */
  predicate KeyLe(a: Placed, b: Placed)
  {
    a.ay < b.ay || (a.ay == b.ay && a.ax <= b.ax)
  }

  predicate KeyLt(a: Placed, b: Placed)
  {
    a.ay < b.ay || (a.ay == b.ay && a.ax < b.ax)
  }

  predicate Sorted(s: seq<Placed>)
  {
    forall i, j :: 0 <= i < j < |s| ==> KeyLe(s[i], s[j])
  }

  predicate StrictlySorted(s: seq<Placed>)
  {
    forall i, j :: 0 <= i < j < |s| ==> KeyLt(s[i], s[j])
  }

  /** The filter has no lower bound and the shift saturates at the `i16`
      bounds, not at zero: a tile left of the origin is shown with a
      negative column, and a tile at `i16::MIN` shifted right by one stays
      at `i16::MIN` instead of wrapping to `i16::MAX` (which would hide it). */
  lemma FilterWithoutLowerBound()
    ensures var t := Tile(Floor, (-3, 2));
      VisibleTiles([t], (0, 0), SIDE, SIDE) == [Placed(-3, 2, t)]
    ensures var t := Tile(Wall, (I16_MIN, 0));
      VisibleTiles([t], (1, 0), SIDE, SIDE) == [Placed(I16_MIN, 0, t)]
  {
    var t := Tile(Floor, (-3, 2));
    assert [t][..0] == [];
    assert Adjusted(t, (0, 0)) == Placed(-3, 2, t);
    var u := Tile(Wall, (I16_MIN, 0));
    assert [u][..0] == [];
    assert SatSub16(I16_MIN, 1) == I16_MIN;
  }

  /** Where `x` goes in a sorted sequence: after every element whose key
      is at most its own and before every element with a greater key, which
      keeps equal keys in arrival order. */
  function InsertPos(s: seq<Placed>, x: Placed): (k: nat)
    requires Sorted(s)
    ensures k <= |s|
    ensures forall j :: 0 <= j < k ==> KeyLe(s[j], x)
    ensures forall j :: k <= j < |s| ==> KeyLt(x, s[j])
  {
    if |s| == 0 || KeyLe(s[|s| - 1], x) then |s|
    else InsertPos(s[..|s| - 1], x)
  }

  /** One insertion step: the result stays sorted and gains exactly `x`. */
  function Insert(s: seq<Placed>, x: Placed): (r: seq<Placed>)
    requires Sorted(s)
    ensures Sorted(r)
    ensures multiset(r) == multiset(s) + multiset{x}
  {
    var k := InsertPos(s, x);
    SpliceSorted(s, x, k);
    assert s == s[..k] + s[k..];
    s[..k] + [x] + s[k..]
  }

  /** Splicing `x` in where every element before is at most `x` and every
      element after is above it keeps a sorted sequence sorted. */
  lemma SpliceSorted(s: seq<Placed>, x: Placed, k: nat)
    requires Sorted(s) && k <= |s|
    requires forall j :: 0 <= j < k ==> KeyLe(s[j], x)
    requires forall j :: k <= j < |s| ==> KeyLt(x, s[j])
    ensures Sorted(s[..k] + [x] + s[k..])
  {
    var r := s[..k] + [x] + s[k..];
    assert forall i :: 0 <= i < k ==> r[i] == s[i];
    assert forall i :: k < i < |r| ==> r[i] == s[i - 1];
    forall i, j | 0 <= i < j < |r|
      ensures KeyLe(r[i], r[j])
    {
      if j < k {
      } else if i < k && j == k {
      } else if i < k {
        assert KeyLe(r[i], x) && KeyLt(x, r[j]);
      } else if i == k {
      }
    }
  }

  /** The `sort_by` step: an insertion sort by row and column. Like Rust's
      `sort_by`, it is stable. */
  function SortByRow(s: seq<Placed>): (r: seq<Placed>)
    ensures Sorted(r)
    ensures multiset(r) == multiset(s)
  {
    if |s| == 0 then []
    else
      assert s == s[..|s| - 1] + [s[|s| - 1]];
      Insert(SortByRow(s[..|s| - 1]), s[|s| - 1])
  }

  /** Removing the head keeps the elements of the rest. */
  lemma DropHead(s: seq<Placed>)
    requires |s| > 0
    ensures multiset(s[1..]) == multiset(s) - multiset{s[0]}
  {
    assert s == [s[0]] + s[1..];
  }

  /** The head of a sorted sequence is a least element of it. */
  lemma SortedHeadLeast(s: seq<Placed>, i: int)
    requires Sorted(s) && 0 <= i < |s|
    ensures KeyLe(s[0], s[i])
  {
  }

  /** A sorted and a strictly sorted sequence with the same elements start
      with the same element. */
  lemma HeadsAgree(s: seq<Placed>, t: seq<Placed>)
    requires Sorted(s) && StrictlySorted(t)
    requires multiset(s) == multiset(t) && |s| > 0
    ensures |t| > 0 && s[0] == t[0]
  {
    assert s[0] in multiset(t);
    var j :| 0 <= j < |t| && t[j] == s[0];
    assert t[0] in multiset(s);
    var i :| 0 <= i < |s| && s[i] == t[0];
    SortedHeadLeast(s, i);
    StrictNoLaterLeast(t, j);
  }

  /** In a strictly sorted sequence only the head is a least element. */
  lemma StrictNoLaterLeast(t: seq<Placed>, j: int)
    requires StrictlySorted(t) && 0 <= j < |t| && KeyLe(t[j], t[0])
    ensures j == 0
  {
  }

  lemma TailsSorted(s: seq<Placed>, t: seq<Placed>)
    requires Sorted(s) && StrictlySorted(t) && |s| > 0 && |t| > 0
    ensures Sorted(s[1..]) && StrictlySorted(t[1..])
  {
    assert forall i :: 0 <= i < |s| - 1 ==> s[1..][i] == s[i + 1];
    assert forall i :: 0 <= i < |t| - 1 ==> t[1..][i] == t[i + 1];
  }

  /** A sorted sequence with the same elements as a strictly sorted one is
      that sequence: the order is forced. */
  lemma {:induction false} SortedUnique(s: seq<Placed>, t: seq<Placed>)
    requires Sorted(s) && StrictlySorted(t)
    requires multiset(s) == multiset(t)
    ensures s == t
    decreases |s|
  {
    assert |t| == |multiset(t)| == |s|;
    if |s| > 0 {
      HeadsAgree(s, t);
      DropHead(s);
      DropHead(t);
      TailsSorted(s, t);
      SortedUnique(s[1..], t[1..]);
      assert s == [s[0]] + s[1..] && t == [t[0]] + t[1..];
    }
  }

  /** The glyphs of placed tiles, one per tile, in order. */
  function PlacedGlyphs(vs: seq<Placed>, player: Position): seq<char>
  {
    seq(|vs|, i requires 0 <= i < |vs| => Glyph(vs[i].tile, player))
  }

  /** The emission loop: before each glyph, a line break when its row
      differs from the current one, which it then becomes. */
  function EmitRows(vs: seq<Placed>, row: int, player: Position): string
  {
    if |vs| == 0 then ""
    else Lead(vs[0], row, player) + EmitRows(vs[1..], vs[0].ay, player)
  }

  /** What one tile emits: a line break when its row is not the current
      one, then its glyph. */
  function Lead(v: Placed, row: int, player: Position): string
  {
    (if v.ay != row then "\n" else "") + [Glyph(v.tile, player)]
  }

  /** Without its line breaks the emitted text is the glyphs of `vs`, one
      each, in order; a run that stays on the current row emits no break. */
  lemma {:induction false} EmitRowsGlyphs(vs: seq<Placed>, row: int, player: Position)
    ensures StripNewlines(EmitRows(vs, row, player)) == PlacedGlyphs(vs, player)
    ensures (forall i :: 0 <= i < |vs| ==> vs[i].ay == row) ==> NewlineCount(EmitRows(vs, row, player)) == 0
  {
    if |vs| > 0 {
      var brk := if vs[0].ay != row then "\n" else "";
      var g := [Glyph(vs[0].tile, player)];
      var rest := EmitRows(vs[1..], vs[0].ay, player);
      EmitRowsGlyphs(vs[1..], vs[0].ay, player);
      assert Lead(vs[0], row, player) == brk + g;
      assert EmitRows(vs, row, player) == (brk + g) + rest;
      TextAppend(brk + g, rest);
      TextAppend(brk, g);
      assert StripNewlines(g) == g by { assert g == [] + g; }
      assert StripNewlines(brk + g) == g;
      assert (forall i :: 0 <= i < |vs| ==> vs[i].ay == row) ==>
        brk == "" && (forall i :: 0 <= i < |vs[1..]| ==> vs[1..][i].ay == vs[0].ay);
    }
  }

  /** What each tile emits, read off the sorted sequence alone: a line
      break when its row differs from the previous tile's (for the first
      tile, from `row`), then its glyph. */
  function Leads(vs: seq<Placed>, row: int, player: Position): seq<string>
  {
    seq(|vs|, i requires 0 <= i < |vs| => Lead(vs[i], if i == 0 then row else vs[i - 1].ay, player))
  }

  /** The emission loop's text is the tiles' leads one after another: a
      line break comes exactly before each tile whose row differs from the
      one before it. */
  lemma {:induction false} EmitRowsLayout(vs: seq<Placed>, row: int, player: Position)
    ensures EmitRows(vs, row, player) == Concat(Leads(vs, row, player))
  {
    if |vs| > 0 {
      var ls := Leads(vs, row, player);
      var rest := Leads(vs[1..], vs[0].ay, player);
      assert ls == [Lead(vs[0], row, player)] + rest;
      EmitRowsLayout(vs[1..], vs[0].ay, player);
      ConcatCons(Lead(vs[0], row, player), rest);
    }
  }

  /** The current row after emitting `vs`. */
  function LastRow(vs: seq<Placed>, row: int): int
  {
    if |vs| == 0 then row else vs[|vs| - 1].ay
  }

  lemma {:induction false} EmitAppend(a: seq<Placed>, b: seq<Placed>, row: int, player: Position)
    ensures EmitRows(a + b, row, player) == EmitRows(a, row, player) + EmitRows(b, LastRow(a, row), player)
    decreases |a|
  {
    if |a| == 0 {
      assert a + b == b;
    } else {
      var ab := a + b;
      assert ab[0] == a[0] && ab[1..] == a[1..] + b;
      EmitAppend(a[1..], b, a[0].ay, player);
      assert LastRow(a[1..], a[0].ay) == LastRow(a, row);
    }
  }

  /** `World::print_map_other_origin`: the shown tiles, sorted by row and
      column, one glyph each with '@' where the player's (unshifted)
      position is, a line break at each row change counted from row 0, and a
      final line break. */
  function PrintMapOtherOrigin(w: World): (s: string)
    ensures |s| > 0 && s[|s| - 1] == '\n'
    ensures
      var m := w.worldMap;
      var vs := SortByRow(VisibleTiles(m.tiles, m.origin, m.limitX, m.limitY));
      && Sorted(vs)
      && multiset(vs) == multiset(VisibleTiles(m.tiles, m.origin, m.limitX, m.limitY))
      && StripNewlines(s) == PlacedGlyphs(vs, w.player.position)
      && s == Concat(Leads(vs, 0, w.player.position)) + "\n"
  {
    var m := w.worldMap;
    var vs := SortByRow(VisibleTiles(m.tiles, m.origin, m.limitX, m.limitY));
    var body := EmitRows(vs, 0, w.player.position);
    EmitRowsGlyphs(vs, 0, w.player.position);
    EmitRowsLayout(vs, 0, w.player.position);
    TextAppend(body, "\n");
    assert StripNewlines("\n") == "";
    body + "\n"
  }

  // The square map seen from origin (0, 0).

  /** Every tile of the square, unshifted, in storage order. */
  function SquarePlaced(): seq<Placed>
  {
    seq(SIDE * SIDE, i requires 0 <= i < SIDE * SIDE =>
      Placed(i / SIDE, i % SIDE, SquareTile(i / SIDE, i % SIDE)))
  }

  /** Row `y` of the square in column order. */
  function ColumnBlock(y: int): seq<Placed>
    requires 0 <= y < SIDE
  {
    seq(SIDE, x requires 0 <= x < SIDE => Placed(x, y, SquareTile(x, y)))
  }

  function ColumnBlocks(): seq<seq<Placed>>
  {
    seq(SIDE, y requires 0 <= y < SIDE => ColumnBlock(y))
  }

  /** The square's tiles in (row, column) order. */
  lemma ByRowIndex()
    ensures |Concat(ColumnBlocks())| == SIDE * SIDE
    ensures forall i :: 0 <= i < SIDE * SIDE ==>
      Concat(ColumnBlocks())[i] == Placed(i % SIDE, i / SIDE, SquareTile(i % SIDE, i / SIDE))
  {
    ConcatRows(ColumnBlocks(), SIDE);
  }

  lemma SquareVisible()
    ensures VisibleTiles(InitBasicSquare().tiles, (0, 0), SIDE, SIDE) == SquarePlaced()
  {
    SquareKeep();
  }

  /** From origin (0, 0) the filter keeps every tile of the square with its
      own coordinates. */
  lemma SquareKeep()
    ensures Keep(InitBasicSquare().tiles, (0, 0), SIDE, SIDE) == SquarePlaced()
  {
    var ts := InitBasicSquare().tiles;
    VisibleAll(ts, (0, 0), SIDE, SIDE);
    var k := Keep(ts, (0, 0), SIDE, SIDE);
    forall i | 0 <= i < SIDE * SIDE
      ensures k[i] == SquarePlaced()[i]
    {
      assert ts[i] == SquareTile(i / SIDE, i % SIDE);
    }
    assert |k| == |SquarePlaced()|;
  }

  /** No element occurs twice. */
  predicate Distinct(s: seq<Placed>)
  {
    forall i, j :: 0 <= i < j < |s| ==> s[i] != s[j]
  }

  /** For a sequence without repeats, each member occurs once. */
  lemma {:induction false} DistinctCounts(s: seq<Placed>)
    requires Distinct(s)
    ensures forall e :: multiset(s)[e] == (if e in s then 1 else 0)
  {
    if |s| > 0 {
      var front := s[..|s| - 1];
      DistinctCounts(front);
      assert s == front + [s[|s| - 1]];
      assert s[|s| - 1] !in front;
    }
  }

  lemma SquarePlacedDistinct()
    ensures Distinct(SquarePlaced())
  {
    var v := SquarePlaced();
    forall i, j | 0 <= i < j < |v|
      ensures v[i] != v[j]
    {
      assert i == SIDE * (i / SIDE) + i % SIDE;
      assert j == SIDE * (j / SIDE) + j % SIDE;
    }
  }

  lemma ByRowDistinct()
    ensures Distinct(Concat(ColumnBlocks()))
  {
    var t := Concat(ColumnBlocks());
    ByRowIndex();
    forall i, j | 0 <= i < j < |t|
      ensures t[i] != t[j]
    {
      assert i == SIDE * (i / SIDE) + i % SIDE;
      assert j == SIDE * (j / SIDE) + j % SIDE;
    }
  }

  /** Both orders hold the same tiles: index `SIDE * x + y` of one is index
      `SIDE * y + x` of the other. */
  lemma TransposedMembers()
    ensures forall e :: e in SquarePlaced() <==> e in Concat(ColumnBlocks())
  {
    var v := SquarePlaced();
    var t := Concat(ColumnBlocks());
    ByRowIndex();
    forall i | 0 <= i < |v|
      ensures v[i] in t
    {
      var k := SIDE * (i % SIDE) + i / SIDE;
      assert k / SIDE == i % SIDE && k % SIDE == i / SIDE;
      assert t[k] == v[i];
    }
    forall k | 0 <= k < |t|
      ensures t[k] in v
    {
      var i := SIDE * (k % SIDE) + k / SIDE;
      assert i / SIDE == k % SIDE && i % SIDE == k / SIDE;
      assert v[i] == t[k];
    }
  }

  lemma SquareSameElements()
    ensures multiset(SquarePlaced()) == multiset(Concat(ColumnBlocks()))
  {
    var v := SquarePlaced();
    var t := Concat(ColumnBlocks());
    SquarePlacedDistinct();
    ByRowDistinct();
    TransposedMembers();
    DistinctCounts(v);
    DistinctCounts(t);
    forall e
      ensures multiset(v)[e] == multiset(t)[e]
    {
    }
  }

  lemma ByRowStrictlySorted()
    ensures StrictlySorted(Concat(ColumnBlocks()))
  {
    var t := Concat(ColumnBlocks());
    ByRowIndex();
    forall i, j | 0 <= i < j < |t|
      ensures KeyLt(t[i], t[j])
    {
      assert i == SIDE * (i / SIDE) + i % SIDE;
      assert j == SIDE * (j / SIDE) + j % SIDE;
    }
  }

  /** Row `y` of the square as `print_map_other_origin` shows it: the
      glyphs of the tiles with that `y`, for `x` from 0 to 9. */
  function OriginLine(y: int, player: Position): string
    requires 0 <= y < SIDE
  {
    seq(SIDE, x requires 0 <= x < SIDE => Glyph(SquareTile(x, y), player))
  }

  lemma {:induction false} EmitSameRow(vs: seq<Placed>, row: int, player: Position)
    requires forall i :: 0 <= i < |vs| ==> vs[i].ay == row
    ensures EmitRows(vs, row, player) == PlacedGlyphs(vs, player)
  {
    if |vs| > 0 {
      EmitSameRow(vs[1..], row, player);
    }
  }

  /** A row emitted while already on it is just its glyphs. */
  lemma BlockOnRow(y: int, player: Position)
    requires 0 <= y < SIDE
    ensures EmitRows(ColumnBlock(y), y, player) == OriginLine(y, player)
  {
    EmitSameRow(ColumnBlock(y), y, player);
  }

  /** A row emitted coming from another row starts with a line break. */
  lemma BlockAfterRow(y: int, row: int, player: Position)
    requires 0 <= y < SIDE && row != y
    ensures EmitRows(ColumnBlock(y), row, player) == "\n" + OriginLine(y, player)
  {
    var blk := ColumnBlock(y);
    assert EmitRows(blk, row, player) == "\n" + [Glyph(blk[0].tile, player)] + EmitRows(blk[1..], y, player);
    assert EmitRows(blk, y, player) == [Glyph(blk[0].tile, player)] + EmitRows(blk[1..], y, player);
    BlockOnRow(y, player);
  }

  lemma ColumnBlocksLast(n: nat)
    requires 1 <= n <= SIDE
    ensures LastRow(Concat(ColumnBlocks()[..n]), 0) == n - 1
  {
    ConcatPrefix(ColumnBlocks(), n);
  }

  lemma {:induction false} EmitBlocks(n: nat, player: Position)
    requires 1 <= n <= SIDE
    ensures EmitRows(Concat(ColumnBlocks()[..n]), 0, player) + "\n"
      == JoinLines(seq(n, y requires 0 <= y < n => OriginLine(y, player)))
  {
    var blocks := ColumnBlocks();
    if n == 1 {
      ConcatPrefix(blocks, 1);
      assert Concat(blocks[..1]) == blocks[0];
      BlockOnRow(0, player);
      assert seq(1, y requires 0 <= y < 1 => OriginLine(y, player)) == [] + [OriginLine(0, player)];
      JoinLinesSnoc([], OriginLine(0, player));
    } else {
      var prev := seq(n - 1, y requires 0 <= y < n - 1 => OriginLine(y, player));
      assert seq(n, y requires 0 <= y < n => OriginLine(y, player)) == prev + [OriginLine(n - 1, player)];
      JoinLinesSnoc(prev, OriginLine(n - 1, player));
      EmitBlocks(n - 1, player);
      EmitBlockStep(n, player);
    }
  }

  /** Emitting the first `n` rows is emitting the first `n - 1`, then a
      line break and row `n - 1`. */
  lemma EmitBlockStep(n: nat, player: Position)
    requires 2 <= n <= SIDE
    ensures EmitRows(Concat(ColumnBlocks()[..n]), 0, player) + "\n"
      == EmitRows(Concat(ColumnBlocks()[..n - 1]), 0, player) + "\n" + OriginLine(n - 1, player) + "\n"
  {
    var blocks := ColumnBlocks();
    var front := Concat(blocks[..n - 1]);
    ConcatPrefix(blocks, n);
    EmitAppend(front, blocks[n - 1], 0, player);
    ColumnBlocksLast(n - 1);
    BlockAfterRow(n - 1, n - 2, player);
  }

  /** Sorting the square's tiles by row and column gives them row by row. */
  lemma SquareSorted()
    ensures SortByRow(SquarePlaced()) == Concat(ColumnBlocks())
  {
    SquareSameElements();
    ByRowStrictlySorted();
    SortedUnique(SortByRow(SquarePlaced()), Concat(ColumnBlocks()));
  }

  /** On the square map, the sorted tiles `print_map_other_origin` emits
      are the rows of the square one after another. */
  lemma SquareOtherOriginBody(w: World)
    requires w.worldMap == InitBasicSquare()
    ensures PrintMapOtherOrigin(w) == EmitRows(Concat(ColumnBlocks()), 0, w.player.position) + "\n"
  {
    var m := w.worldMap;
    var vis := VisibleTiles(m.tiles, m.origin, m.limitX, m.limitY);
    assert vis == SquarePlaced() by { SquareVisible(); }
    SquareSorted();
  }

  /** Emitting all ten rows gives the ten origin lines. */
  lemma EmitAllBlocks(p: Position)
    ensures EmitRows(Concat(ColumnBlocks()), 0, p) + "\n"
      == JoinLines(seq(SIDE, y requires 0 <= y < SIDE => seq(SIDE, x requires 0 <= x < SIDE => Glyph(SquareTile(x, y), p))))
  {
    EmitBlocks(SIDE, p);
    assert ColumnBlocks()[..SIDE] == ColumnBlocks();
    assert seq(SIDE, y requires 0 <= y < SIDE => OriginLine(y, p))
      == seq(SIDE, y requires 0 <= y < SIDE => seq(SIDE, x requires 0 <= x < SIDE => Glyph(SquareTile(x, y), p)));
  }

  /** On the square map, seen from its origin (0, 0),
      `print_map_other_origin` gives ten lines of ten glyphs; line `k` shows
      the tiles with `y == k`, for `x` from 0 to 9, with '@' at the player's
      tile. It is the transpose of what `print_map` shows. */
  lemma PrintMapOtherOriginSquare(w: World)
    requires w.worldMap == InitBasicSquare()
    ensures PrintMapOtherOrigin(w) ==
      JoinLines(seq(SIDE, y requires 0 <= y < SIDE => seq(SIDE, x requires 0 <= x < SIDE =>
        Glyph(SquareTile(x, y), w.player.position))))
  {
    SquareOtherOriginBody(w);
    EmitAllBlocks(w.player.position);
  }
}
