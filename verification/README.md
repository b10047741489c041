# bytemon-dungeon engine, modelled in Dafny

This project models the simulation core of the bytemon-dungeon crate
(`src/engine`) as immutable Dafny datatypes and pure functions:

- **Combat math** (`actor.rs`): the alignment and attribute advantage tables
  (`Advantage`), the rounded multiplier, the truncating-division damage
  formula, and the death check (`Battlers`).
- **Actors** (`actor.rs`): the default actor and `new_player`, the speed-driven
  readiness timer, unchecked movement with its log entry, and the partial
  `take_action` dispatch (`Actors`).
- **Map and world** (`world.rs`): the 10x10 bordered square generator and the
  tile lookup (`Tiles`); `player_move` with its Floor, Wall and off-grid
  outcomes, and `start_empty_square` (`Worlds`); the two text renderers
  `print_map` and `print_map_other_origin` (`Rendering`).
- **Event log** (`log.rs`): an append-only `seq<string>` history that every
  narrating operation takes and returns, plus `tail` (`Log`). The integer
  formatting inside the position entry is `Decimal.IntText`, which has a
  parser partner so that "the entry carries the new position" is a proved
  round trip.
- **Demo driver** (`main.rs`): the eight moves of `main` replayed as a lemma
  (`Scenario`).

Supporting modules:

- `Ints`: `i16`/`i32` ranges, Rust's truncating `/`, the `as i16` cast,
  `i16::saturating_sub`, and `f32::round` (half away from zero).
- `Wrappers`: `Option`.
- `Seqs`: flattening a sequence of rows.

Conventions:

- **By-value methods.** Rust methods that take `self` or an argument by value
  (`attack`, `update_check`, `update_action_timer`, `take_action`) drop their
  mutation in the source. The model returns the updated value, and each
  member's doc comment says so.
- **Overflow.** Fixed-width overflow, which panics in a debug build, is
  excluded by a `...Fits` precondition on the member concerned. Each such
  predicate is exactly the panic condition of the code it guards. For
  `player_move` this takes the short-circuit of the search closure into
  account: `y` is added only for tiles whose `x` matches.
- **Renamed field.** The source's `map` field of `World` is `worldMap`, because
  `map` is a Dafny keyword.
- **Spelling.** The attribute `Eletric` keeps the source's spelling.

Two behaviours of the code are easy to misread, and the model follows the
code in both:

- **Shift and filter in `print_map_other_origin`.** The origin shift is
  `i16::saturating_sub`, so it stops at the `i16` bounds (`i16::MIN` and
  `i16::MAX`), not at zero. The filter at `world.rs:113` checks only
  `adjusted < limit` and has no lower bound, so tiles left of or above the
  origin are shown. `Rendering.FilterWithoutLowerBound` exhibits both.
- **`tail`.** It returns the *oldest* ten entries, not the newest.

## Model

| member | source | states |
|---|---|---|
| Ints.TruncDiv | src/engine/actor.rs:147 | the quotient rounds toward zero: the remainder is below the divisor in size and has the dividend's sign |
| Ints.WrapI16 | src/engine/actor.rs:210 | `as i16` keeps the value modulo 2^16 in the i16 range, and is the identity on values that fit |
| Ints.SatSub16 | src/engine/world.rs:111-112 | `saturating_sub` is the i16 value closest to the true difference, and exact when the difference fits |
| Ints.RoundHalfAway | src/engine/actor.rs:153 | `.round()` lies within one half of its argument, with ties going away from zero |
| Advantage.AlignmentAdvantage | src/engine/actor.rs:56-67 | 2.0 exactly when the attacker beats the target in the Vaccine→Virus→Data→Vaccine cycle, 0.5 exactly when it is beaten, 1.0 otherwise |
| Advantage.AttributeAdvantage | src/engine/actor.rs:84-106 | 1.5 exactly for a win in the Fire/Plant/Water or Eletric/Wind/Earth cycle or a Light/Dark pair, 0.75 exactly for a cycle loss, 1.0 otherwise |
| Advantage.AlignmentReciprocal | src/engine/actor.rs:56-67 | adv(a,b)·adv(b,a) = 1 for every pair; Free and same-tag pairs give 1.0 |
| Advantage.AttributeReciprocal | src/engine/actor.rs:84-106 | adv(a,b) = 0.75 iff adv(b,a) = 1.5 outside Light/Dark; 1.0 is symmetric; Light/Dark give 1.5 both ways, the only non-reciprocal pair; Neutral and same-tag pairs give 1.0 |
| Battlers.Multiplier | src/engine/actor.rs:148-153 | the rounded product is in 0..3; it is 0 iff alignment 0.5 meets attribute 0.75, 3 iff 2.0 meets 1.5; 0.5×1.0 rounds to 1 |
| Battlers.Damage | src/engine/actor.rs:146-153 | damage is power_mod × multiplier divided by 20 truncating toward zero; multiplier 0 gives no damage |
| Battlers.Attack | src/engine/actor.rs:145-156 | the target's HP drops by exactly the damage with no floor; no other field of the target changes |
| Battlers.UpdateCheck | src/engine/actor.rs:158-162 | Dead iff HP < 1 or already Dead; nothing but the state changes |
| Battlers.UpdateCheckIdempotent | src/engine/actor.rs:158-162 | the death check is idempotent and never revives |
| Battlers.DeathThreshold | src/engine/actor.rs:159-161 | HP 0 becomes Dead, HP 1 stays Alive |
| Battlers.DefaultBattler | src/engine/actor.rs:180-197 | the default battler is Alive and already a fixed point of the death check; its Free/Neutral aspects give multiplier 1 both attacking and attacked, against any aspects |
| Battlers.PowerMod | src/engine/actor.rs:146-147 | power_mod equals strength when strength and stamina differ by less than 500; it is at least strength when strength ≥ stamina, and at most strength when it is ≤ stamina (strength ≥ 0) |
| Battlers.PowerOfCloseStats | src/engine/actor.rs:146-147 | when strength and stamina differ by less than 500, power_mod is the attacker's strength |
| Battlers.DefaultAttack | src/engine/actor.rs:145-156 | two default battlers: the attack fits, damage is 2, HP goes 100 → 98, the target stays Alive |
| Battlers.WeakAttackDealsNothing | src/engine/actor.rs:146-147 | strength 100 against stamina 700 gives power 0 and damage 0 under truncation |
| Actors.DefaultActor | src/engine/actor.rs:174-202 | the default actor carries the default battler and cannot act with its zero timer |
| Actors.ReadyThreshold | src/engine/actor.rs:205-207 | `can_act` is strict: a timer of 500 cannot act, 501 can |
| Actors.ReadyStaysReady | src/engine/actor.rs:205-211 | with a non-negative speed, a timer update never takes away the ability to act |
| Actors.NewPlayer | src/engine/actor.rs:213-219 | the default actor with the given name and the Player role, at (5,5), and unable to act |
| Actors.UpdateActionTimer | src/engine/actor.rs:209-211 | only the timer changes; it grows by the speed modulo 2^16, and by exactly the speed when the speed fits i16 |
| Actors.Ticks | src/engine/actor.rs:209-211 | n timer updates with a non-negative speed add exactly n × speed |
| Actors.DefaultReadiness | src/engine/actor.rs:205-211 | a default actor's timer after n updates is 50n, and it can act iff n ≥ 11 (500 is not enough) |
| Actors.MoveToDirection | src/engine/actor.rs:229-235 | the position moves by exactly d with no bounds check and nothing else changes; exactly one entry is appended, and it parses back to the new position |
| Actors.DefaultMovesRight | src/engine/actor.rs:258-265 | the default actor moved by (1,0) is at (6,5) and logs "Teste moved to 6/5" |
| Actors.TakeAction | src/engine/actor.rs:237-249 | Attacking with a target applies the battler attack to it; the other actions and Attacking with no target leave the target alone; Waiting (and only Waiting) is unimplemented |
| Decimal.NatText | src/engine/log.rs:28 | `{}` of a natural number: non-empty decimal digits, a single digit exactly below 10, and a leading '0' only for 0 itself |
| Decimal.IntText | src/engine/log.rs:28 | `{}` of an integer: a well-formed decimal text with a leading '-' exactly for negatives, no leading zero after it, and "0" the only text starting with '0' |
| Decimal.CanonicalInt | src/engine/log.rs:28 | every well-formed text without a leading zero (or "-0…") is exactly the formatting of the integer it parses to, so formatting is onto the canonical texts |
| Decimal.ParseInt | src/engine/log.rs:28 | parsing succeeds exactly on well-formed decimal integer texts |
| Decimal.IntTextRoundTrip | src/engine/log.rs:28 | parsing the formatted integer gives it back |
| Log.AddToLog | src/engine/log.rs:13-15 | the history grows by one, earlier entries are kept, and the new entry is the text; the 300 limit is not enforced |
| Log.ActorAttack | src/engine/log.rs:17-22 | appends exactly "{attacker} attacks {defender}." and keeps every earlier entry |
| Log.PosUpdateRoundTrip | src/engine/log.rs:24-29 | the "{name} moved to {x}/{y}" text parses back to (x, y) |
| Log.ActorPosUpdate | src/engine/log.rs:24-29 | appends exactly one entry, keeps every earlier entry, and the new entry carries the given position |
| Log.Tail | src/engine/log.rs:31-41 | at most 10 entries: the oldest min(10, n) in insertion order |
| Seqs.ConcatRows | src/engine/world.rs:42-54 | flattening rows of width w (the generator pushes ten tiles per x) puts column i%w of row i/w at index i |
| Tiles.InitBasicSquare | src/engine/world.rs:34-56 | origin (0,0), limits 10 by 10, 100 tiles, tile i at (i/10, i%10), Wall exactly on the border |
| Tiles.TileType.Char | src/engine/world.rs:11-18 | the character is '.' exactly for Floor and '#' exactly for Wall, so it tells the type; it is never the player's '@' |
| Tiles.FindTile | src/engine/world.rs:67-70 | None iff no tile has the position; otherwise the first tile at that position |
| Tiles.SquareCoordinates | src/engine/world.rs:42-54 | every tile lies in the square, no two share a position, and (x,y) sits at index 10x+y |
| Tiles.SquareWallLayout | src/engine/world.rs:44-47 | a tile is Wall iff it lies on the border |
| Tiles.SquareFind | src/engine/world.rs:67-70 | on the square, lookup finds the generated tile inside and nothing outside |
| Tiles.SquareCensus | src/engine/world.rs:42-53 | 36 Wall tiles and 64 Floor tiles |
| Worlds.StartEmptySquare | src/engine/world.rs:151-157 | the given player unchanged, an empty roster, the square map |
| Worlds.PlayerMove | src/engine/world.rs:66-82 | required is exactly the no-panic condition of the search (nothing on an empty map; otherwise x + dx fits i16, and y + dy fits unless no tile has that x); map and roster untouched; off-grid changes nothing; a Wall keeps the player and appends "{name} hitted a wall."; a Floor moves by exactly d and appends exactly "{name} moved to {x}/{y}" for the new position, which parses back to it |
| Worlds.PlayerMoveKeepsFloor | src/engine/world.rs:66-82 | a player standing on Floor stands on Floor after any move |
| Worlds.StartOnFloor | src/engine/world.rs:151-157 | a new player in a fresh square world starts on Floor |
| Worlds.SquareDestination | src/engine/world.rs:67-70 | on the square, the tile `player_move` finds at the destination is the generated tile inside the square and nothing outside it |
| Worlds.SquareMoveOntoFloor | src/engine/world.rs:72-76 | on the square, a move to an inner tile shifts the player by d and appends the "moved to" entry |
| Worlds.SquareMoveIntoWall | src/engine/world.rs:77-79 | on the square, a move onto the border keeps the world and appends exactly the wall entry |
| Worlds.SquareMoveOffGrid | src/engine/world.rs:67-82 | on the square, a move off the grid changes neither the world nor the log |
| Worlds.ShortCircuitMove | src/engine/world.rs:67-70 | on the square, a player at (20, i16::MAX) moving (0,1) does not panic, since no tile has x = 20 and `y + 1` is never computed; nothing changes |
| Worlds.WallText | src/engine/world.rs:78 | the wall entry starts with the name and does not parse as a "moved to" entry for that name |
| Worlds.WallTextIsNotAMove | src/engine/world.rs:78 | the wall entry of a name differs from every "{name} moved to {x}/{y}" entry of that name, at any position |
| Rendering.StorageOrderGlyphs | src/engine/world.rs:86-97 | without line breaks, the text is one glyph per tile in storage order; it has one break per tile with y+1 = limit_y |
| Rendering.StorageOrderCells | src/engine/world.rs:86-97 | the text is the concatenation, tile by tile in storage order, of the tile's glyph followed by a break exactly when its y+1 = limit_y |
| Rendering.PrintMap | src/engine/world.rs:84-100 | the glyph and break-count facts above, and the exact layout: per stored tile, its glyph ('@' on the player) then a break iff y+1 = limit_y |
| Rendering.PrintMapSquare | src/engine/world.rs:84-99 | on the square, ten lines of ten glyphs; line k shows the tiles with x = k, with '@' on the player |
| Rendering.ShownIndices | src/engine/world.rs:106-119 | the indices of the shown tiles are storage positions, listed strictly increasing (each once, in storage order) |
| Rendering.ShownIndicesExact | src/engine/world.rs:111-117 | an index is listed exactly when its tile's shifted coordinates are below both limits |
| Rendering.VisibleTiles | src/engine/world.rs:106-119 | keeps exactly the tiles whose shifted coordinates are below both limits, with those coordinates, each once and in storage order (the k-th result is the shifted tile at the k-th shown index) |
| Rendering.FilterWithoutLowerBound | src/engine/world.rs:111-113 | a tile left of the origin is shown, and a shift from i16::MIN saturates instead of wrapping |
| Rendering.InsertPos | src/engine/world.rs:122 | an element goes after every key ≤ its own and before every greater key, so equal keys keep their order |
| Rendering.Insert | src/engine/world.rs:122 | one insertion keeps the sequence sorted and adds exactly that element |
| Rendering.SortByRow | src/engine/world.rs:122 | the result is sorted by (row, column) and is a permutation of the input |
| Rendering.SortedUnique | src/engine/world.rs:122 | a sorted permutation of a strictly sorted sequence is that sequence |
| Rendering.EmitRowsGlyphs | src/engine/world.rs:126-145 | without line breaks, the text is the glyphs of the sorted tiles; a run on the current row emits no break |
| Rendering.EmitRowsLayout | src/engine/world.rs:126-145 | the text is the concatenation, tile by tile, of a break exactly when the tile's row differs from the previous tile's (from row 0 for the first) followed by its glyph |
| Rendering.PrintMapOtherOrigin | src/engine/world.rs:102-150 | ends with '\n'; its glyphs are those of a (row, column)-sorted permutation of the visible tiles, with '@' decided on the original position; a break precedes a tile exactly when its row differs from the previous one (row 0 before the first) |
| Rendering.PrintMapOtherOriginSquare | src/engine/world.rs:102-150 | on the square from origin (0,0), ten lines of ten glyphs; line k shows the tiles with y = k (the transpose of print_map) |
| Scenario.Run | src/main.rs:6-13 | a sequence of moves keeps every earlier log entry, appends at most one entry per move, and never touches the map or roster |
| Scenario.MainReplay | src/main.rs:4-14 | `main`'s moves end at (8,2) with eight log entries (two wall bumps); since eight is below ten, the prefix that `Log.Tail`'s contract returns is the whole log in order |

## Left out

- `src/ui_macroquad/anim.rs`: frame timing and sprite drawing, which are floating point and a foreign graphics library.
- `src/lib.rs`: module declarations only.
- The process-wide `Mutex` around the log and its lock/unwrap: the history is an explicit value passed in and returned.
- The `println!` in `tail` and in both renderers: the model returns the strings that would be printed.
- The accessors `get_name` and `get_position` have no member of their own: the model reads the fields `name` and `position`. The accessors `get_atk`, `get_def` and `get_spd` are modelled as `Battler.Atk`, `Battler.Def` and `Battler.Spd`, plain reads of `str`, `sta` and `spd` that `PowerMod`, `AttackFits` and `TimerFits` use; they have no contract of their own.
- Fields and enums that no operation reads (`mp`, `wis`, `max_hp`, `max_mp`, `modifiers`, `id`, `role`, the roster's contents, `EAIType`, `EMenuAction`): kept as plain fields where they are part of a record, otherwise omitted.
- The `todo!()` panic for `Waiting`: modelled as the result `Unimplemented`, not as a process abort.
- `f32` multipliers: modelled as exact reals. Every table value and every product is dyadic, so `f32` computes them exactly.
- Battlers.Attack: `i32` overflow is a precondition (`AttackFits`) rather than a modelled panic.
- Actors.UpdateActionTimer: `i16` overflow of the sum is a precondition (`TimerFits`). The `as i16` cast of the speed is modelled exactly.
- Actors.MoveToDirection: `i16` overflow of the new position is a precondition (`MoveFits`).
- Rendering.PrintMap: `y + 1` overflow at `y == i16::MAX` is a precondition (`PrintMapFits`).
- Actors.Ticks: stated only for a speed in `0..=i16::MAX` and a timer that stays in range.
- Rendering.SortByRow: its sorting algorithm is an insertion sort, not Rust's merge sort. Its contract states sortedness and permutation. Stability shows only through the placement property of `InsertPos`, not as a whole-sequence lemma.
- Scenario.Run: a move that would overflow yields `None`, which stands for the debug-build panic.
