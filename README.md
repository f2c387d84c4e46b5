# snake: the grid simulation

A Dafny model of the game engine in `snake.c`, a terminal snake game played
on a fixed 5 × 6 toroidal grid (the `jungle`). The model covers the following
parts of the engine:

- the direction algebra (`opposite`, `turn_left`, `turn_right`) and the
  wrapping step `move`;
- the cell encoding of `enum type`: heads, thin and fat body segments that
  store their entry and exit directions, walls, holes, the foods, the hit
  marker and the letters;
- grid writes (`plant`, `plant_yx`, `plant_yxh`, `plant_yxv`, `plant_text`)
  together with the bounded damage list that drives incremental redraws, and
  the reset of that list by `draw_jungle` and `draw`;
- spawning: `plant_random`, `have`, `any_special_food`, `plant_food` and
  `plant_foodn`;
- the mobile food (`move_food`);
- the tick: `move_snake` and `move_world`;
- the start of a round (`vacuum_jungle`, `plant_snake`);
- two pure pieces of the event loop: the frame clock and the key map.

The model has two layers.

- **Functions.** The modules `Rules`, `Jungle`, `Setup` and the smaller ones
  define every operation as a function over one explicit `State`: the grid,
  the damage list, the draw counter of `rand()` and the globals of the game.
  The lemmas in `Spawning`, `MobileFood`, `Apples`, `Ticks` and `Setup` state
  what those operations promise.
- **The class.** `Engine.World` holds the same globals as fields and the grid
  and damage list as arrays. Its methods update them in place with the loops
  and branches of the C routines. Each method is proved to produce exactly
  `F(old state)` for the function `F` that defines it.

`rand()` is an oracle `rand: nat -> nat`: its `n`-th call returns `rand(n)`.
The state counts the calls made so far, so every random branch is determined
by the inputs. `World` keeps what the terminal shows as a ghost field. Its
invariant says that, while incremental drawing is on, every cell that differs
from the grid is recorded in the damage list. `draw` therefore shows the grid
exactly.

Modules, by file:

| file | module | what it holds |
|---|---|---|
| `ctypes.dfy` | `CTypes` | the C `char` store and `^ 2` |
| `geometry.dfy` | `Geometry` | directions, `move` and cell indices |
| `cells.dfy` | `Cells` | the cell codes |
| `jungle.dfy` | `Jungle` | the grid, `plant`, the damage list, redraws, runs, text, Ground counts |
| `rules.dfy` | `Rules` | the state and the tick as functions |
| `spawning.dfy` | `Spawning` | what spawning promises |
| `mobile_food.dfy` | `MobileFood` | what `move_food` promises |
| `apples.dfy` | `Apples` | eating an Apple, and the guard of the extra spawns |
| `ticks.dfy` | `Ticks` | what `move_snake` promises |
| `setup.dfy` | `Setup` | `vacuum_jungle`, `plant_snake` and the first tick of a round |
| `timing.dfy` | `Timing` | the frame clock |
| `keys.dfy` | `Keys` | the key map |
| `engine.dfy` | `Engine` | the class `World` with the imperative routines |

## Model

| member | source | states |
|---|---|---|
| CTypes.Char | snake.c:576 | storing an int into a `char` keeps its low byte as a signed value: the result is in -128..127, is congruent to the input mod 256, and is the input itself when it already fits |
| CTypes.Xor2 | snake.c:218 | `v ^ 2` adds 2 modulo 4 and leaves the higher bits alone |
| Geometry.Index | snake.c:338 | the row-major index of an in-grid point is in 0..29 |
| Geometry.PointAt | snake.c:419-420 | `pos / W`, `pos % W` is an in-grid point whose index is `pos` |
| Geometry.IndexInjective | snake.c:338 | different in-grid points have different indices |
| Geometry.Opposite | snake.c:215-219 | `opposite(d)` is `d + 2` modulo 4 |
| Geometry.OppositeIsBitwiseXor | snake.c:218 | that value is the bitwise XOR of the enum with 2 |
| Geometry.TurnLeft | snake.c:221-225 | a left turn is neither the direction itself nor its reversal |
| Geometry.TurnRight | snake.c:227-231 | a right turn is neither the direction itself nor its reversal |
| Geometry.OppositeInvolution | snake.c:215-219 | `opposite` is an involution without a fixed point |
| Geometry.TurnsAreInverse | snake.c:221-231 | left and right turns undo each other; two left turns are a reversal |
| Geometry.OffsetTable | snake.c:322-323 | the packed byte constants decode to row offsets H-1, 0, 1, 0 and column offsets 0, 1, 0, W-1 for up, right, down, left |
| Geometry.Move | snake.c:319-324 | a step from non-negative coordinates lands in the grid |
| Geometry.MoveUsesPackedOffsets | snake.c:319-324 | the step equals the formula of `move`, with its shifts and `char` casts |
| Geometry.MoveChangesOneCoordinate | snake.c:319-324 | up and down change only the row, left and right only the column, each by one cell with wrap-around at both edges |
| Geometry.MoveRoundTrip | snake.c:319-324 | stepping back in the opposite direction returns to the start |
| Cells.CodeValues | snake.c:48-67 | the codes: head 1, thin segment 5, fat segment 21, wall 37, hole 38, apple 39, present 45, hit 46, alphabet 47 |
| Cells.HeadCode | snake.c:572 | `T_HEAD + d` is a head code that gives back `d` |
| Cells.Segment | snake.c:51-52 | a segment code lies in its base's 16 codes and encodes the entry side in `/ 4` and the exit direction in `% 4` |
| Cells.TailDir | snake.c:494-495 | a segment's tail direction is `(code - T_SNAKE) % 4`; a head or ground cell leaves along the snake's direction |
| Cells.BodyCode | snake.c:575-576 | the unsigned, char-truncated formula written behind a head is the segment from `opposite(old head dir)` to the new direction |
| Cells.BodyCodeDirections | snake.c:571-578 | that code is a body segment, not a head, and the tail will follow it along the new direction |
| Cells.Glyph | snake.c:378 | a space is Ground; a capital letter is one of the 26 letter codes |
| Cells.GlyphLetter | snake.c:378 | a letter's code gives the letter back |
| Jungle.Plant | snake.c:326-333 | a plant writes the cell; it records the position exactly when incremental mode was on and the list had room; otherwise incremental mode is switched off and the list is kept |
| Jungle.PlantOnFullList | snake.c:329-331 | with 20 entries recorded, a plant appends nothing and clears `partially_damaged`; the list never exceeds 20 |
| Jungle.RepaintAt | snake.c:254-259 | redrawing the list changes exactly the listed cells to the grid's value |
| Jungle.RedrawShowsGrid | snake.c:251-274 | with a sound damage list the redraw (incremental or full) shows exactly the grid |
| Jungle.PlantKeepsCovered | snake.c:326-333 | every plant keeps the damage list sound for the screen |
| Jungle.PlantRunCells | snake.c:341-353 | `n` plants with stride 1 or W write `t` on exactly the cells of the run; every other cell keeps its value |
| Jungle.PlantTextGlyphs | snake.c:374-382 | the text's glyphs land in row `y` from column `x`, wrapping; each of the last W characters shows in its column |
| Jungle.PlantTextRows | snake.c:374-382 | text writes only its own row |
| Jungle.PlantTextKeeps | snake.c:374-382 | a column the text does not reach keeps its cell |
| Jungle.PlantTextColumns | snake.c:374-382 | every column the text does not reach keeps its cell |
| Jungle.CountGroundSnoc | snake.c:358-360 | the Ground count of a prefix grows by one exactly at a Ground cell |
| Jungle.NthGround | snake.c:365-370 | the selected index is a Ground cell with exactly `n` Ground cells before it |
| Jungle.CountGroundAfterFill | snake.c:367 | filling a Ground cell with something else removes exactly one free cell |
| Rules.FoodDirection | snake.c:461-464 | the reverse-on-block rule keeps the food on its axis |
| Rules.MobileKind | snake.c:406-415 | a mobile food is a Snail, Beetle, Ant or Present |
| Rules.StaticKind | snake.c:427-434 | a static food is an Egg, Snail or Beetle |
| Rules.ExpiryCellAsWritten | snake.c:449-450 | the index cleared on expiry is in the grid while a food is tracked |
| Rules.Resolve | snake.c:486-488 | the taken direction is never the reversal of the current one, and a queued non-reversal is taken |
| Rules.BugBonus | snake.c:555 | a bug food is worth between `speed` and `speed + speed^2 - 1` points |
| Spawning.AnyInIff | snake.c:390-397 | the front-to-back scan of `have` and `any_special_food` returns true iff some cell holds a code in the range |
| Spawning.PlantRandomPlacement | snake.c:355-372 | with no Ground cell: -1 and no change at all. Otherwise: pos was Ground, now holds `t`, no other cell changed, pos is the `(rand() % count)`-th Ground cell in index order, and one draw was used |
| Spawning.PlacementIsUnique | snake.c:365-370 | the second loop's cell is the only Ground cell with that many Ground cells before it |
| Spawning.PlantRandomSpawns | snake.c:355-372 | spawning fills only a Ground cell, leaves the snake and the tracked food alone, and fails iff no Ground cell is left |
| Spawning.PlantFoodSpawns | snake.c:399-437 | `plant_food` fills only Ground cells with spawnable codes, keeps the snake, draws at least once, and keeps the tracked food or starts tracking the food it planted |
| Spawning.PlantFoodHole | snake.c:402-404 | a draw below 50 with no hole on the grid plants a hole, using two draws |
| Spawning.PlantFoodMobile | snake.c:405-425 | a draw below 300 (not taken by the hole) with no tracked food tracks a new food of the drawn kind, uses five draws, sets the 30-tick timeout on 15 of 16 draws, and gives a Snail a horizontal direction |
| Spawning.PlantFoodStatic | snake.c:426-436 | a draw of 300 or more plants a static food of the drawn kind and leaves the tracked food alone |
| Spawning.PlantFoodNSpawns | snake.c:439-444 | `plant_foodn(n)` keeps `plant_food`'s promises and uses at least `n` draws |
| Spawning.ExtraFoodsSpawns | snake.c:559-561 | a counting draw followed by `plant_foodn` keeps the same promises with at least `n + 1` draws |
| MobileFood.Expiry | snake.c:449-452 | a timeout reaching zero clears the food's cell (only while a food is tracked) and changes nothing else |
| MobileFood.Untracked | snake.c:454-457 | without a tracked food the timeout is reset to 0 and nothing else changes |
| MobileFood.Step | snake.c:459-471 | the timeout counts down; the food reverses when the cell ahead is neither Ground nor a head; it moves one cell, carrying its code and leaving Ground, exactly when its cell ahead is Ground; the move can be undone by the opposite step |
| MobileFood.ExpiryUntrackedIsOutOfBounds | snake.c:449-450 | as written, with no tracked food the index cleared on expiry is negative |
| Apples.RespawnPlacement | snake.c:537-543 | the respawn grants a segment and `speed` points; it fails iff no Ground cell is free; otherwise the new Apple takes a Ground cell, one draw is used and nothing else changes |
| Apples.IntendedSpawns | snake.c:537-548 | with the guard as intended and a free cell: an Apple, one more segment, `speed` points, only Ground cells filled, the snake unmoved, and the tracked food kept or newly tracked |
| Apples.EatAppleNoRoom | snake.c:540-542 | with no free cell the Apple is handled as a Hole: points and segment granted, then growth -9999 (the same under either guard) |
| Apples.EatAppleRoom | snake.c:537-548 | with a free cell a new Apple replaces exactly one former Ground cell, one draw is used and the snake grows by one |
| Apples.EatAppleFrame | snake.c:537-549 | eating an Apple never moves the snake, scores `speed`, fills only Ground cells and keeps the tracked food |
| Apples.AsWrittenNeverRestocks | snake.c:547-548 | as written the extra spawns never run: the fresh Apple makes `any_special_food()` true, so the Apple case with a free cell is the respawn alone, with one draw |
| Apples.EatAppleRestocks | snake.c:545-548 | with the guard as intended and no other food left, `rand() % 4` more foods are spawned, which the program as written never does |
| Apples.GuardsAgreeWithOtherFood | snake.c:547-548 | when another food is on the grid the program and the intended guard behave alike |
| Ticks.AfterTailFacts | snake.c:486-502 | resolution and the tail step: the tail cell becomes Ground and the tail follows its code exactly when growth is at most 0; the other fields are unchanged |
| Ticks.EatFrame | snake.c:520-570 | the food switch keeps the snake's position and direction and fills only Ground cells; the cell is handled as a Hole iff it is a Hole or an Apple with no free cell |
| Ticks.EatCounters | snake.c:533-565 | the counters each kind of cell changes: an Apple uses exactly one draw when it finds a free cell, a Present `3 + rand() % 4` or more; other kinds change nothing |
| Ticks.DirectionResolution | snake.c:486-488 | a queued reversal is ignored, any other queued direction is taken, and in both cases the queue ends up holding the taken direction |
| Ticks.HeadStepFrame | snake.c:505-514 | the head step moves the head one cell along the direction and keeps the tail and the directions |
| Ticks.HeadStepCounters | snake.c:515-570 | a head step without collision succeeds with the counters the eaten cell gives |
| Ticks.GrowthGating | snake.c:490-507 | the tail steps iff growth is at most 0 on entry (along its cell's direction); the head steps iff growth is at least 0 after that; a negative counter only moves toward 0 |
| Ticks.Collision | snake.c:515-519 | the tick fails iff the head steps onto a wall or snake cell. The cell then becomes Hit, nothing else is written after the tail step, and `move_world` skips the food |
| Ticks.FoodEffects | snake.c:512-565 | Hole: growth -9999. Apple: `speed` points and a segment with one draw, or Hole handling without room. Bug food: `(speed + r % speed^2) << bug` points and a segment. Star: +10 star bonus. Present: `2 + rand() % 4` `plant_food` calls, each drawing at least once. Entering the tracked food forgets it |
| Ticks.EatingOnLastTickReachesExpiry | snake.c:512-514 | eating the tracked bug food on its last tick leaves `yfood == -1` with timeout 1, which reaches the expiry write with a negative index |
| Ticks.HeadStepCells | snake.c:571-578 | the old head cell becomes the segment from the old head's reversal to the new direction (thin iff growth at most 0), or Ground when the new head is on the tail; the destination gets the head code unless handled as a Hole |
| Ticks.BodyEncoding | snake.c:571-578 | the same for a whole `move_snake` tick, after resolution and the tail step |
| Ticks.HeadStepShowsHead | snake.c:505-578 | a head step that does not collide writes a head code on the new head cell, with the tracked food elsewhere, or puts the snake in a hole |
| Ticks.FoodKeepsHeadShown | snake.c:446-472 | `move_food` never clears or covers the head cell: it clears only the food's own cell and moves only onto Ground |
| Ticks.TickShowsHead | snake.c:483-587 | from any state, after a successful `move_world` the head cell holds a head code and the tracked food is elsewhere, or the snake is in a hole |
| Ticks.HeadSurvivesTail | snake.c:490-502 | with that invariant, a non-negative counter and a tail off the head cell (or growth pending), the tail step leaves the head cell a head, as `HeadStepCells` needs |
| Setup.VacuumClears | snake.c:239-249 | after `vacuum_jungle`: every cell Ground, no food or hole, full redraw pending, no tracked food, one segment pending, snake and score kept |
| Setup.NewRound | snake.c:940-947 | after `plant_snake`: one head cell facing `d`, head and tail on it, every other cell free, one segment pending |
| Setup.NewRoundShowsHead | snake.c:940-947 | a new round starts with the head cell invariant and a pending segment, so its head survives the first tail step |
| Setup.FirstTarget | snake.c:505-515 | the first head step of a round enters a free cell |
| Setup.FirstTickGrowth | snake.c:505-507 | the first tick succeeds and uses up the pending segment |
| Setup.FirstTickCells | snake.c:571-578 | the first tick writes the head ahead and a thin segment behind it |
| Setup.FirstTick | snake.c:483-581 | the first tick of a round grows the snake to two cells, and the tail will follow the new segment along `d` |
| Timing.FrameDuration | snake.c:827-828 | a frame lasts between 25 and 800 ms |
| Timing.NextFrame | snake.c:830-834 | the deadline is the last frame plus the frame length, kept normalised |
| Timing.Timeout | snake.c:839-849 | the timeout is normalised and equals the time left until the deadline, or zero when it has passed |
| Timing.FasterIsShorter | snake.c:181-191 | each speed level has a shorter frame than the one below |
| Timing.HoleHalvesTheFrame | snake.c:827-828 | in a hole the frame is the level's delay halved, rounded down |
| Timing.WaitsOneFrame | snake.c:830-843 | polling right after a frame waits exactly one frame length |
| Timing.MissedFrame | snake.c:845-849 | a deadline already passed gives a zero timeout |
| Keys.KeyEffects | snake.c:877-936 | only space and `p` pause and toggle back; a key that changes the queued direction also un-pauses |
| Keys.MouseTurnsAreTaken | snake.c:877-886 | a wheel event queues a real turn, undone by the opposite turn, and un-pauses |
| Keys.MouseNeverReverses | snake.c:877-891 | with the mouse protocol no key queues a reversal |
| Keys.ArrowSequences | snake.c:892-936 | `ESC [` is ignored and the arrow letters queue up, down, right and left |
| Engine.World.constructor | snake.c:193-212 | the globals start all zero, a Ground grid and speed 7 |
| Engine.World.Plant | snake.c:326-333 | the arrays and flags become `Jungle.Plant` of the old grid, and the screen invariant is kept |
| Engine.World.PlantYX | snake.c:335-339 | `plant` at `y * W + x` |
| Engine.World.Draw | snake.c:251-274 | after `draw_jungle` and `draw`, the screen equals the grid, `num_damages == 0` and `partially_damaged` is set |
| Engine.World.PlantYXH | snake.c:341-346 | the grid becomes the stride-1 run of `Jungle.PlantRun` |
| Engine.World.PlantYXV | snake.c:348-353 | the grid becomes the stride-W run of `Jungle.PlantRun` |
| Engine.World.PlantText | snake.c:374-382 | the grid becomes `Jungle.PlantText` of the old grid |
| Engine.World.VacuumJungle | snake.c:239-249 | the state becomes `Setup.Vacuum` of the old state |
| Engine.World.PlantSnake | snake.c:940-947 | the state becomes `Setup.PlantSnake` of the old state |
| Engine.World.PlantRandom | snake.c:355-372 | the state and the returned index are `Rules.PlantRandom` of the old state |
| Engine.World.CountFree | snake.c:358-360 | the first loop counts exactly the Ground cells |
| Engine.World.FindFree | snake.c:363-370 | the second loop stops at the `k`-th Ground cell |
| Engine.World.Scan | snake.c:393-396 | the scan is true iff some cell holds a code in the range |
| Engine.World.Have | snake.c:390-397 | `have(t)` is true iff some cell holds `t` |
| Engine.World.AnySpecialFood | snake.c:474-481 | `any_special_food()` is true iff some cell holds Apple through Present |
| Engine.World.PlantFood | snake.c:399-437 | the state becomes `Rules.PlantFood` of the old state |
| Engine.World.PlantMobileFood | snake.c:405-425 | the state becomes `Rules.PlantMobile` of the old state |
| Engine.World.TrackFood | snake.c:419-425 | the food is tracked at `pos`, with the drawn direction and, on 15 of 16 draws, the 30-tick timeout |
| Engine.World.PlantFoodN | snake.c:439-444 | the state becomes `Rules.PlantFoodN` of the old state |
| Engine.World.MoveFood | snake.c:446-472 | the state becomes `Rules.MoveFood` of the old state (the corrected expiry) |
| Engine.World.StepFood | snake.c:459-471 | the state becomes `Rules.FoodStep` of the old state |
| Engine.World.Relocate | snake.c:469-471 | the food's code moves to the destination, the old cell becomes Ground and the food is tracked there |
| Engine.World.StepTail | snake.c:490-502 | the state becomes `Rules.TailStep` of the old state |
| Engine.World.RespawnApple | snake.c:537-543 | the state and index become `Rules.AppleRespawn` of the old state |
| Engine.World.EatAppleCell | snake.c:537-549 | the state and the kind entered become `Rules.EatApple` of the old state: the respawn, the `goto again` fallback and the extra spawns guarded by `any_special_food()` |
| Engine.World.Restock | snake.c:547-548 | the state becomes `Rules.AppleRestock` of the old state: `rand() % 4` more foods exactly when `any_special_food()` finds no code from Apple to Present, otherwise nothing changes |
| Engine.World.EatCell | snake.c:520-570 | the state and the kind entered become `Rules.Eat` of the old state |
| Engine.World.Advance | snake.c:506-514 | the counter is decremented and the head moves; a food under the head is forgotten; the previous and new head indices are returned |
| Engine.World.Land | snake.c:571-578 | the state becomes `Rules.Land` of the old state |
| Engine.World.StepHead | snake.c:505-579 | the state and result become `Rules.HeadStep` of the old state |
| Engine.World.MoveSnake | snake.c:483-581 | the state and result become `Rules.MoveSnake` of the old state |
| Engine.World.MoveWorld | snake.c:583-587 | the state and result become `Rules.MoveWorld` of the old state |

## Left out

- `steer`: an unfinished computer player that exits before choosing a direction; the `computer` flag is not modelled.
- The `run` event loop: `ppoll`, `clock_gettime`, `read` and the game-over handling are I/O. The frame-clock arithmetic and the key map are modelled as pure functions of their inputs (`Timing`, `Keys`).
- Rendering: `draw_cell`, the escape sequences of `draw_jungle`, `draw_number`, `draw_status` (with `old_score` and `old_timeout`) and the glyph tables write to the terminal. The terminal is modelled only as the ghost field `screen` of `World`.
- The map and menu builders and `plant_ctext`: their coordinates lie outside the 5 × 6 grid, and they recurse through `run` and read the clock.
- Process setup: the terminal, the signal handlers and option parsing.
- `rand()`: the pseudo-random generator is replaced by an oracle over the call count.
- `mushroom_bonus`: `vacuum_jungle` resets it, and nothing in the core reads or writes it otherwise.
- `paused`: it exists only inside `Keys.Control`; the loop that honours it is I/O.
- Rules.Eat: `score` is an unbounded integer; it does not model overflow of the C `int`.
- Engine.World.Plant: requires an in-grid index. In C an out-of-grid index writes outside `jungle`, which is undefined behaviour; only the map builders pass such indices.
- Engine.World.PlantYX: requires an in-grid index, for the same reason.
- Engine.World.PlantYXH: requires the run to stay in the grid, for the same reason.
- Engine.World.PlantYXV: requires the run to stay in the grid, for the same reason.
- Engine.World.PlantText: requires 7-bit characters and an in-grid start. The core only plants capital letters and spaces; wider characters would also wrap in the `char` store.
- Jungle.PlantText: has the same requirements as `Engine.World.PlantText`.
- Geometry.Move: requires non-negative coordinates. C's `%` truncates toward zero, and the only negative coordinates (`-1` after a lost game) are never moved.
- Engine.World.TrackFood: it assigns `yfood` and `xfood` after the two direction and timeout draws rather than before them. `rand()` does not read them, so the resulting state is the same.
- Ticks.BodyEncoding: requires the head cell to still hold a head after the tail step. `TickShowsHead` and `NewRoundShowsHead` prove the head cell invariant for every round, and `HeadSurvivesTail` reduces the requirement to the tail not standing on the head cell. That the tail never reaches the head cell, and the consistency of the whole body chain from tail to head, are not proved.
- Ticks.HeadStepCells: has the same requirement as `Ticks.BodyEncoding`, for the same reason.
- Engine.World.Have: requires `0 <= t`. Every `enum type` value is non-negative.

## Findings

| source | as written | input that shows it | evidently intended | confidence | as-written member | corrected member |
|---|---|---|---|---|---|---|
| snake.c:449-452 | on expiry `move_food` plants Ground at `yfood * W + xfood` without checking that a food is still tracked | the head enters the tracked Snail on the tick its `food_timeout` is 1: `move_snake` sets `yfood = -1`, and the following `move_food` writes `jungle[-W + xfood]`, outside the array | clear the cell only while a food is tracked (`0 <= yfood`) | not executed | MobileFood.ExpiryUntrackedIsOutOfBounds, Ticks.EatingOnLastTickReachesExpiry | Rules.MoveFood, Engine.World.MoveFood |
| snake.c:547-548 | after an Apple is eaten and respawned, the extra spawns run only if `!any_special_food()`; `any_special_food` counts Apples, and the Apple just planted is on the grid | any grid with a free cell: the new Apple makes the guard false, so `plant_foodn(rand() % 4)` never runs | spawn extra foods when no food besides apples is left | not executed | Rules.EatApple, Apples.AsWrittenNeverRestocks | Rules.EatAppleIntended, Apples.EatAppleRestocks |

The tick keeps the program's behaviour wherever it is well defined. For the
out-of-bounds write the tick uses the guarded expiry, since the write as
written has no meaning in the model. The Apple guard as written is well
defined (it is just never true), so `Rules.Eat` and `Engine.World.EatAppleCell`
run it as written, through `Rules.AppleRestock` and `Engine.World.Restock`. The
intended guard is the separate definition `Rules.EatAppleIntended`, with its
property proved in `Apples.EatAppleRestocks`.
