/** The globals of the simulation as one object whose methods update them in
    place, as the routines of the game do. Each method is proved against the
    function over the abstract state that defines it. */
module Engine {
  import opened Geometry
  import opened Cells
  import opened Jungle
  import opened Rules
  import opened Spawning
  import Setup

  class World {
    /** `jungle`: the grid, row-major. */
    const jungle: array<Cell>
    /** `jungle_damage[0 .. num_damages)`: cells planted since the last draw. */
    const damage: array<Pos>
    var numDamages: int
    var partiallyDamaged: bool
    /** The cells the terminal shows. */
    ghost var screen: seq<Cell>

    /** `rand()`: its `n`-th call returns `rand(n)`; `draws` calls were made. */
    const rand: Rand
    var draws: nat

    var snakeDir: Direction
    var nextSnakeDir: Direction
    var snakeGrowth: int
    var score: int
    var speed: int
    var starBonus: int
    var yhead: int
    var xhead: int
    var ytail: int
    var xtail: int
    var yfood: int
    var xfood: int
    var foodDir: Direction
    var foodTimeout: int

    ghost predicate Shape()
      reads this`numDamages
    {
      jungle.Length == Size && damage.Length == DamageCapacity && 0 <= numDamages <= DamageCapacity
    }

    /** The grid and its damage list. */
    ghost function Grid(): (b: Board)
      reads this`numDamages, this`partiallyDamaged, jungle, damage
      requires Shape()
      ensures Ok(b)
    {
      Board(jungle[..], partiallyDamaged, damage[..numDamages])
    }

    /** The positions and the speed are in range. */
    ghost predicate Bounds()
      reads this`yhead, this`xhead, this`ytail, this`xtail, this`yfood, this`xfood, this`speed
    {
      InGrid(Point(yhead, xhead)) && InGrid(Point(ytail, xtail)) &&
      -1 <= yfood < H && 0 <= xfood < W && 1 <= speed <= 9
    }

    /** The damage list covers every cell in which the terminal differs from
        the grid. */
    ghost predicate Shown()
      reads this`screen, this`numDamages, this`partiallyDamaged, jungle, damage
      requires Shape()
    {
      Covered(screen, Grid())
    }

    /** The object is consistent: shapes, ranges and the screen. */
    ghost predicate Valid()
      reads this, jungle, damage
    {
      Shape() && Bounds() && Shown()
    }

    /** The abstract state. */
    ghost function Abs(): (s: State)
      reads this, jungle, damage
      requires Valid()
      ensures Rules.Valid(s)
    {
      State(Grid(), draws, snakeDir, nextSnakeDir, snakeGrowth, score, speed, starBonus,
            Point(yhead, xhead), Point(ytail, xtail), yfood, xfood, foodDir, foodTimeout)
    }

    /** The globals at program start: all zero but the speed, 7. */
    constructor (rand: Rand)
      ensures Valid() && fresh(jungle) && fresh(damage) && this.rand == rand
      ensures Abs() == State(Board(seq(Size, i => Ground), false, []), 0, Up, Up, 0, 0, 7, 0,
                             Point(0, 0), Point(0, 0), 0, 0, Up, 0)
    {
      jungle := new Cell[Size](i => Ground);
      damage := new Pos[DamageCapacity](i => 0);
      numDamages := 0;
      partiallyDamaged := false;
      screen := seq(Size, i => Ground);
      this.rand := rand;
      draws := 0;
      snakeDir, nextSnakeDir, foodDir := Up, Up, Up;
      snakeGrowth, score, speed, starBonus := 0, 0, 7, 0;
      yhead, xhead, ytail, xtail, yfood, xfood := 0, 0, 0, 0, 0, 0;
      foodTimeout := 0;
      new;
      assert jungle[..] == seq(Size, i => Ground);
    }

    /** One call of `rand()`. */
    method Rand() returns (v: nat)
      requires Valid()
      modifies this`draws
      ensures Valid() && screen == old(screen)
      ensures v == Rules.Draw(rand, old(draws)) && Abs() == old(Abs()).(draws := old(draws) + 1)
    {
      v := rand(draws);
      draws := draws + 1;
    }

    /** `plant`: write `t` at `pos`, recording `pos` while the damage list has
        room and giving up incremental drawing once it is full. */
    method Plant(pos: int, t: Cell)
      requires Valid() && 0 <= pos < Size
      modifies this`numDamages, this`partiallyDamaged, jungle, damage
      ensures Valid() && screen == old(screen)
      ensures Abs() == old(Abs()).(board := Jungle.Plant(old(Grid()), pos, t))
    {
      ghost var b := Grid();
      PlantKeepsCovered(screen, b, pos, t);
      partiallyDamaged := partiallyDamaged && numDamages < DamageCapacity;
      if partiallyDamaged {
        damage[numDamages] := pos;
        numDamages := numDamages + 1;
        assert damage[..numDamages] == b.damages + [pos];
      }
      jungle[pos] := t;
      assert Grid() == Jungle.Plant(b, pos, t);
    }

    /** `plant_yx`. */
    method PlantYX(y: int, x: int, t: Cell)
      requires Valid() && 0 <= y * 5 + x < Size
      modifies this`numDamages, this`partiallyDamaged, jungle, damage
      ensures Valid() && screen == old(screen)
      ensures Abs() == old(Abs()).(board := Jungle.Plant(old(Grid()), y * 5 + x, t))
    {
      Plant(y * 5 + x, t);
    }

    /** `draw`: repaint the recorded cells (or, in full mode, every cell),
        then clear the damage list and switch incremental drawing on. */
    method Draw()
      requires Valid()
      modifies this
      ensures Valid() && screen == jungle[..] && numDamages == 0 && partiallyDamaged
      ensures Abs() == old(Abs()).(board := Board(old(jungle[..]), true, []))
    {
      ghost var b := Grid();
      RedrawShowsGrid(screen, b);
      if partiallyDamaged {
        ghost var shown: seq<Cell> := screen;
        var i := 0;
        while i < numDamages
          invariant 0 <= i <= numDamages && |shown| == Size
          invariant Repaint(shown, b.cells, b.damages[i..]) == Repaint(screen, b.cells, b.damages)
        {
          assert b.damages[i..][1..] == b.damages[i + 1..];
          shown := shown[damage[i] := jungle[damage[i]]];
          i := i + 1;
        }
        screen := shown;
      } else {
        screen := jungle[..];
      }
      numDamages := 0;
      partiallyDamaged := true;
    }

    /** `plant_yxh`: `n` plants of `t` rightward from `(y, x)`. */
    method PlantYXH(y: int, x: int, n: int, t: Cell)
      requires Valid() && (n <= 0 || (0 <= y * 5 + x && y * 5 + x + n - 1 < Size))
      modifies this, jungle, damage
      ensures Valid() && screen == old(screen)
      ensures Abs() == old(Abs()).(board := PlantRun(old(Grid()), y * 5 + x, 1, n, t))
    {
      ghost var s0 := Abs();
      var i := 0;
      while i < n
        invariant 0 <= i && (0 < n ==> i <= n)
        invariant Valid() && screen == old(screen) && Abs() == s0.(board := Grid())
        invariant PlantRun(Grid(), y * 5 + x + i, 1, n - i, t) == PlantRun(s0.board, y * 5 + x, 1, n, t)
      {
        PlantYX(y, x + i, t);
        i := i + 1;
      }
    }

    /** `plant_yxv`: `n` plants of `t` downward from `(y, x)`. */
    method PlantYXV(y: int, x: int, n: int, t: Cell)
      requires Valid() && (n <= 0 || (0 <= y * 5 + x && (y + n - 1) * 5 + x < Size))
      modifies this, jungle, damage
      ensures Valid() && screen == old(screen)
      ensures Abs() == old(Abs()).(board := PlantRun(old(Grid()), y * 5 + x, W, n, t))
    {
      ghost var s0 := Abs();
      var i := 0;
      while i < n
        invariant 0 <= i && (0 < n ==> i <= n)
        invariant Valid() && screen == old(screen) && Abs() == s0.(board := Grid())
        invariant PlantRun(Grid(), (y + i) * 5 + x, W, n - i, t) == PlantRun(s0.board, y * 5 + x, W, n, t)
      {
        PlantYX(y + i, x, t);
        i := i + 1;
      }
    }

    /** `plant_text`: one glyph per character, stepping right with wrap-around. */
    method PlantText(y: int, x: int, s: string)
      requires Valid() && InGrid(Point(y, x))
      requires forall i :: 0 <= i < |s| ==> s[i] as int < 128
      modifies this, jungle, damage
      ensures Valid() && screen == old(screen)
      ensures Abs() == old(Abs()).(board := Jungle.PlantText(old(Grid()), y, x, s))
    {
      ghost var s0 := Abs();
      var p := Point(y, x);
      var i := 0;
      while i < |s|
        invariant 0 <= i <= |s| && InGrid(p) && p.y == y
        invariant Valid() && screen == old(screen) && Abs() == s0.(board := Grid())
        invariant Jungle.PlantText(Grid(), y, p.x, s[i..]) == Jungle.PlantText(s0.board, y, x, s)
      {
        assert s[i..][1..] == s[i + 1..];
        PlantYX(p.y, p.x, Glyph(s[i]));
        MoveChangesOneCoordinate(p, Right);
        p := Move(p, Right);
        i := i + 1;
      }
    }

    /** `vacuum_jungle`: clear the grid past the damage list and reset the
        counters of a round. */
    method VacuumJungle()
      requires Valid()
      modifies this, jungle
      ensures Valid() && screen == old(screen)
      ensures Abs() == Setup.Vacuum(old(Abs()))
    {
      var i := 0;
      while i < Size
        invariant 0 <= i <= Size && unchanged(this)
        invariant forall j :: 0 <= j < i ==> jungle[j] == Ground
      {
        jungle[i] := Ground;
        i := i + 1;
      }
      assert jungle[..] == seq(Size, j => Ground);
      snakeGrowth := 1;
      starBonus := 0;
      yfood := -1;
      foodTimeout := 0;
      partiallyDamaged := false;
    }

    /** `plant_snake`: a one-cell snake at `(y, x)` facing `d`. */
    method PlantSnake(y: int, x: int, d: Direction)
      requires Valid() && InGrid(Point(y, x))
      modifies this, jungle, damage
      ensures Valid() && screen == old(screen)
      ensures Abs() == Setup.PlantSnake(old(Abs()), Point(y, x), d)
    {
      ghost var s := Abs();
      ytail, yhead := y, y;
      xtail, xhead := x, x;
      nextSnakeDir, snakeDir := d, d;
      assert Abs() == s.(head := Point(y, x), tail := Point(y, x), snakeDir := d, nextDir := d);
      PlantYX(yhead, xhead, HeadCode(snakeDir));
    }

    /** `plant_random`: count the Ground cells; with none, return -1; else
        plant `t` on the `(rand() % count)`-th one and return its index. */
    method PlantRandom(t: Cell) returns (pos: int)
      requires Valid()
      modifies this, jungle, damage
      ensures Valid() && screen == old(screen)
      ensures (Abs(), pos) == Rules.PlantRandom(old(Abs()), rand, t)
    {
      var n := CountFree();
      if n == 0 {
        return -1;
      }
      var r := Rand();
      pos := FindFree(r % n);
      Plant(pos, t);
    }

    /** The first loop of `plant_random`: the number of Ground cells. */
    method CountFree() returns (n: int)
      requires Valid()
      ensures n == CountGround(jungle[..])
    {
      ghost var cells := jungle[..];
      n := 0;
      var p := 0;
      while p < Size
        invariant 0 <= p <= Size && n == CountGround(cells[..p])
      {
        CountGroundSnoc(cells, p);
        if jungle[p] == Ground {
          n := n + 1;
        }
        p := p + 1;
      }
      assert cells[..Size] == cells;
    }

    /** The second loop of `plant_random`: the index of the Ground cell with
        `k` Ground cells before it. */
    method FindFree(k: int) returns (pos: int)
      requires Valid() && 0 <= k < CountGround(jungle[..])
      ensures pos == NthGround(jungle[..], k)
    {
      ghost var cells := jungle[..];
      var n := k;
      pos := 0;
      while true
        invariant 0 <= pos <= NthGround(cells, k)
        invariant 0 <= n && n == k - CountGround(cells[..pos])
        decreases Size - pos
      {
        if jungle[pos] == Ground {
          if n == 0 {
            break;
          }
          n := n - 1;
        }
        CountGroundSnoc(cells, pos);
        pos := pos + 1;
      }
      PlacementIsUnique(cells, pos, k);
    }

    /** The scan of `have` and `any_special_food`: some cell holds a code in
        `lo..hi`. */
    method Scan(lo: int, hi: int) returns (r: bool)
      requires Valid()
      ensures r == AnyIn(jungle[..], lo, hi)
    {
      var i := 0;
      while i < Size
        invariant 0 <= i <= Size
        invariant AnyIn(jungle[..], lo, hi) == AnyIn(jungle[i..], lo, hi)
      {
        assert jungle[i..][1..] == jungle[i + 1..];
        if lo <= jungle[i] && jungle[i] <= hi {
          return true;
        }
        i := i + 1;
      }
      return false;
    }

    /** `have`: some cell holds `t`. */
    method Have(t: Cell) returns (r: bool)
      requires Valid() && 0 <= t
      ensures r == Has(jungle[..], t)
    {
      r := Scan(t, t);
    }

    /** `any_special_food`: some cell holds Apple through Present. */
    method AnySpecialFood() returns (r: bool)
      requires Valid()
      ensures r == HasSpecialFood(jungle[..])
    {
      r := Scan(FirstSpecialFood, LastSpecialFood);
    }

    /** `plant_food`: one draw out of 1024 picks a hole, a tracked mobile food
        or a static food. */
    method PlantFood()
      requires Valid()
      modifies this, jungle, damage
      ensures Valid() && screen == old(screen)
      ensures Abs() == Rules.PlantFood(old(Abs()), rand)
    {
      ghost var s := Abs();
      var p := Rand();
      p := p % 1024;
      ghost var s0 := Abs();
      assert s0 == s.(draws := s.draws + 1) && s0.board.cells == jungle[..];
      var hole := false;
      if p < 50 {
        hole := Have(Hole);
      }
      if p < 50 && !hole {
        HoleBranch(s, rand);
        var _ := PlantRandom(Hole);
        assert Abs() == Rules.PlantRandom(s0, rand, Hole).0;
      } else if p < 300 && yfood < 0 {
        MobileBranch(s, rand);
        PlantMobileFood();
        assert Abs() == PlantMobile(s0, rand);
      } else {
        StaticBranch(s, rand);
        var q := Rand();
        ghost var s1 := Abs();
        assert s1 == s.(draws := s.draws + 2) && q == Rules.Draw(rand, s.draws + 1);
        var _ := PlantRandom(StaticKind(q % 32));
        assert Abs() == Rules.PlantRandom(s0.(draws := s.draws + 2), rand, StaticKind(Rules.Draw(rand, s.draws + 1) % 32)).0;
      }
    }

    /** The mobile-food branch of `plant_food`: the kind, the cell, then the
        direction and (fifteen times in sixteen) a timeout of 30 ticks. */
    method PlantMobileFood()
      requires Valid()
      modifies this, jungle, damage
      ensures Valid() && screen == old(screen)
      ensures Abs() == Rules.PlantMobile(old(Abs()), rand)
    {
      ghost var s := Abs();
      var q := Rand();
      assert Abs() == s.(draws := s.draws + 1) && q == Rules.Draw(rand, s.draws);
      var t := MobileKind(q % 32);
      var pos := PlantRandom(t);
      ghost var s1 := Abs();
      assert (s1, pos) == Rules.PlantRandom(s.(draws := s.draws + 1), rand, t);
      if pos < 0 {
        MobileNoRoom(s, rand, t, s1, pos);
        return;
      }
      MobileTracked(s, rand, t, s1, pos);
      TrackFood(t, pos);
    }

    /** The end of the mobile branch: the food is tracked at `pos`, with a
        drawn direction (left or right for a Snail) and, fifteen times in
        sixteen, a timeout of 30 ticks. */
    method TrackFood(t: Cell, pos: int)
      requires Valid() && 0 <= pos < Size
      modifies this`draws, this`yfood, this`xfood, this`foodDir, this`foodTimeout
      ensures Valid() && screen == old(screen)
      ensures var d := Rules.Draw(rand, old(draws));
        var life := Rules.Draw(rand, old(draws) + 1);
        Abs() == old(Abs()).(yfood := pos / 5, xfood := pos % 5, draws := old(draws) + 2,
          foodDir := if t == Snail then (if d % 2 != 0 then Left else Right) else d % 4,
          foodTimeout := if life % 16 < 15 then FoodLifetime else old(foodTimeout))
    {
      ghost var s := Abs();
      var dir, timeout := DrawFoodMotion(t);
      yfood, xfood, foodDir, foodTimeout := pos / 5, pos % 5, dir, timeout;
      assert Abs() == s.(draws := s.draws + 2, yfood := pos / 5, xfood := pos % 5, foodDir := dir, foodTimeout := timeout);
    }

    /** The two draws of the mobile branch: the direction, then whether the
        food gets a lifetime. */
    method DrawFoodMotion(t: Cell) returns (dir: Direction, timeout: int)
      requires Valid()
      modifies this`draws
      ensures Valid() && screen == old(screen) && Abs() == old(Abs()).(draws := old(draws) + 2)
      ensures var d := Rules.Draw(rand, old(draws));
        var life := Rules.Draw(rand, old(draws) + 1);
        dir == (if t == Snail then (if d % 2 != 0 then Left else Right) else d % 4) &&
        timeout == (if life % 16 < 15 then FoodLifetime else foodTimeout)
    {
      var d := Rand();
      dir := if t == Snail then (if d % 2 != 0 then Left else Right) else d % 4;
      var life := Rand();
      timeout := if life % 16 < 15 then FoodLifetime else foodTimeout;
    }

    /** `plant_foodn`: `plant_food` `n` times. */
    method PlantFoodN(n: int)
      requires Valid()
      modifies this, jungle, damage
      ensures Valid() && screen == old(screen)
      ensures Abs() == Rules.PlantFoodN(old(Abs()), rand, n)
    {
      ghost var goal := Rules.PlantFoodN(Abs(), rand, n);
      var i := n;
      while 0 < i
        invariant Valid() && screen == old(screen)
        invariant Rules.PlantFoodN(Abs(), rand, i) == goal
      {
        i := PlantFoodCounted(i, goal);
      }
      ghost var last := Abs();
      assert Rules.PlantFoodN(last, rand, i) == last;
    }

    /** One turn of the loop of `plant_foodn`: `i` calls remain before the
        state reaches `goal`, and one fewer after this `plant_food`. */
    method PlantFoodCounted(i: int, ghost goal: State) returns (rest: int)
      requires Valid() && 0 < i && Rules.PlantFoodN(Abs(), rand, i) == goal
      modifies this, jungle, damage
      ensures Valid() && screen == old(screen)
      ensures rest == i - 1 && Rules.PlantFoodN(Abs(), rand, rest) == goal
    {
      ghost var prev := Abs();
      PlantFood();
      PlantFoodNStep(prev, Abs(), rand, i);
      rest := i - 1;
    }

    /** `move_food`, with the expiry write made only while a food is tracked:
        the timeout counts down, an expired food is cleared, an untracked one
        resets the timeout and a tracked one moves. */
    method MoveFood()
      requires Valid()
      modifies this, jungle, damage
      ensures Valid() && screen == old(screen)
      ensures Abs() == Rules.MoveFood(old(Abs()))
    {
      if 0 < foodTimeout {
        foodTimeout := foodTimeout - 1;
        if foodTimeout == 0 {
          if 0 <= yfood {
            PlantYX(yfood, xfood, Ground);
          }
          return;
        }
      }
      if yfood < 0 {
        foodTimeout := 0;
        return;
      }
      StepFood();
    }

    /** The move of a tracked food: reverse when the cell ahead is neither
        Ground nor a head, then step when the cell in the food's direction is
        Ground. */
    method StepFood()
      requires Valid() && 0 <= yfood
      modifies this, jungle, damage
      ensures Valid() && screen == old(screen)
      ensures Abs() == FoodStep(old(Abs()))
    {
      ghost var s := Abs();
      TurnFood();
      var food := Point(yfood, xfood);
      var p := Move(food, foodDir);
      if jungle[p.y * 5 + p.x] != Ground {
        FoodBlocked(s, foodDir);
        return;
      }
      FoodSteps(s, foodDir);
      Relocate(food, p);
    }

    /** The reverse-on-block rule: the food turns around when the cell ahead
        is neither Ground nor a head. */
    method TurnFood()
      requires Valid() && 0 <= yfood
      modifies this`foodDir
      ensures Valid() && screen == old(screen)
      ensures Abs() == old(Abs()).(foodDir := FoodDirection(old(Abs())))
    {
      var p := Move(Point(yfood, xfood), foodDir);
      var t := jungle[p.y * 5 + p.x];
      if t != Ground && !(Head <= t && t < Head + 4) {
        foodDir := Opposite(foodDir);
      }
    }

    /** The tail step of `move_snake`, taken while `snake_growth <= 0`: a
        negative counter moves toward zero, the tail cell is cleared and the
        tail follows the direction its cell encodes. */
    method StepTail()
      requires Valid() && snakeGrowth <= 0
      modifies this, jungle, damage
      ensures Valid() && screen == old(screen)
      ensures Abs() == TailStep(old(Abs()))
    {
      ghost var s := Abs();
      var tailDir := TailDir(jungle[ytail * 5 + xtail], snakeDir);
      if snakeGrowth < 0 {
        snakeGrowth := snakeGrowth + 1;
      }
      assert Abs() == s.(growth := snakeGrowth);
      VacateTail(tailDir);
    }

    /** The tail cell becomes Ground and the tail moves one step along `d`. */
    method VacateTail(d: Direction)
      requires Valid()
      modifies this`ytail, this`xtail, this`numDamages, this`partiallyDamaged, jungle, damage
      ensures Valid() && screen == old(screen)
      ensures Abs() == old(Abs()).(board := Jungle.Plant(old(Grid()), Index(old(Abs()).tail), Ground),
                                   tail := Move(old(Abs()).tail, d))
    {
      ghost var s := Abs();
      PlantYX(ytail, xtail, Ground);
      var p := Move(Point(ytail, xtail), d);
      ytail, xtail := p.y, p.x;
      assert Abs() == s.(board := Jungle.Plant(s.board, Index(s.tail), Ground), tail := p);
    }

    /** The Apple case of `move_snake`: one more segment, `speed` points and a
        new Apple; with no free cell the Apple is handled as a Hole; the extra
        spawns when `any_special_food()` finds nothing. */
    method EatAppleCell() returns (entered: Cell)
      requires Valid()
      modifies this, jungle, damage
      ensures Valid() && screen == old(screen)
      ensures (Abs(), entered) == EatApple(old(Abs()), rand)
    {
      var pos := RespawnApple();
      entered := FinishApple(pos);
    }

    /** The rest of the Apple case, after the respawn at `pos`. */
    method FinishApple(pos: int) returns (entered: Cell)
      requires Valid()
      modifies this, jungle, damage
      ensures Valid() && screen == old(screen)
      ensures pos < 0 ==> (Abs(), entered) == (old(Abs()).(growth := InHole), Hole)
      ensures 0 <= pos ==> (Abs(), entered) == (AppleRestock(old(Abs()), rand), Apple)
    {
      if pos < 0 {
        snakeGrowth := InHole;
        return Hole;
      }
      Restock();
      return Apple;
    }

    /** The guard of the extra spawns: when `any_special_food()` finds
        nothing, `rand() % 4` more foods. */
    method Restock()
      requires Valid()
      modifies this, jungle, damage
      ensures Valid() && screen == old(screen)
      ensures Abs() == AppleRestock(old(Abs()), rand)
    {
      ghost var s := Abs();
      var any := AnySpecialFood();
      if !any {
        PlantExtraFoods(0, s, Rules.Draw(rand, s.draws) % 4);
      }
    }

    /** The first part of the Apple case: one more segment, `speed` points
        and a new Apple on a random Ground cell. */
    method RespawnApple() returns (pos: int)
      requires Valid()
      modifies this, jungle, damage
      ensures Valid() && screen == old(screen)
      ensures (Abs(), pos) == AppleRespawn(old(Abs()), rand)
    {
      snakeGrowth := snakeGrowth + 1;
      score := score + speed;
      pos := PlantRandom(Apple);
    }

    /** The switch of `move_snake` on the cell the head enters. */
    method EatCell(kind: Cell, bug: bool) returns (entered: Cell)
      requires Valid()
      modifies this, jungle, damage
      ensures Valid() && screen == old(screen)
      ensures (Abs(), entered) == Eat(old(Abs()), kind, bug, rand)
    {
      ghost var s := Abs();
      entered := kind;
      if kind == Hole {
        snakeGrowth := InHole;
      } else if kind == Apple {
        entered := EatAppleCell();
      } else if kind == Snail || kind == Beetle || kind == Egg || kind == Ant {
        EatBug(bug);
      } else if kind == Present {
        PlantExtraFoods(2, s, 2 + Rules.Draw(rand, s.draws) % 4);
      } else if kind == Star {
        starBonus := starBonus + 10;
      }
    }

    /** A Snail, Beetle, Egg or Ant: `speed + rand() % speed^2` points,
        doubled for the tracked food, and one more segment. */
    method EatBug(bug: bool)
      requires Valid()
      modifies this`draws, this`score, this`snakeGrowth
      ensures Valid() && screen == old(screen)
      ensures var bonus := BugBonus(old(Abs()), rand);
        Abs() == old(Abs()).(draws := old(draws) + 1, growth := old(snakeGrowth) + 1,
                             score := old(score) + (if bug then bonus * 2 else bonus))
    {
      var r := Rand();
      var bonus := speed + r % (speed * speed);
      score := score + (if bug then bonus * 2 else bonus);
      snakeGrowth := snakeGrowth + 1;
    }

    /** `plant_foodn(base + rand() % 4)`: the extra foods of a Present
        (`base` 2) and of an Apple when `any_special_food()` finds nothing
        (`base` 0). */
    method PlantExtraFoods(base: int, ghost s: State, ghost count: int)
      requires Valid() && s == Abs() && count == base + Rules.Draw(rand, s.draws) % 4
      modifies this, jungle, damage
      ensures Valid() && screen == old(screen)
      ensures Abs() == ExtraFoods(s, rand, count)
    {
      ghost var next := s.(draws := s.draws + 1);
      assert ExtraFoods(s, rand, count) == Rules.PlantFoodN(next, rand, count);
      var r := Rand();
      var n := base + r % 4;
      assert n == count && Abs() == next;
      PlantFoodN(n);
    }

    /** The head step of `move_snake`, taken while `snake_growth >= 0`; false
        when the head ran into a wall or the snake. */
    method StepHead() returns (ok: bool)
      requires Valid() && 0 <= snakeGrowth
      modifies this, jungle, damage
      ensures Valid() && screen == old(screen)
      ensures (Abs(), ok) == HeadStep(old(Abs()), rand)
    {
      ghost var s := Abs();
      var prevPos, newPos, bug := Advance();
      var kind := jungle[newPos];
      if kind == Wall || (Head <= kind && kind < SnakeEnd) {
        Plant(newPos, Hit);
        return false;
      }
      var entered := EatCell(kind, bug);
      Land(prevPos, newPos, entered);
      return true;
    }

    /** The first half of the head step: the counter is decremented, the head
        moves, and a food the head lands on is no longer tracked. */
    method Advance() returns (prevPos: int, newPos: int, bug: bool)
      requires Valid()
      modifies this`snakeGrowth, this`yhead, this`xhead, this`yfood
      ensures Valid() && screen == old(screen)
      ensures Abs() == Entering(old(Abs()))
      ensures prevPos == Index(old(Abs()).head) && newPos == Index(Abs().head)
      ensures bug == (newPos == old(yfood) * 5 + old(xfood))
    {
      if 0 < snakeGrowth {
        snakeGrowth := snakeGrowth - 1;
      }
      prevPos := yhead * 5 + xhead;
      var h := Move(Point(yhead, xhead), snakeDir);
      yhead, xhead := h.y, h.x;
      newPos := yhead * 5 + xhead;
      bug := newPos == yfood * 5 + xfood;
      if bug {
        yfood := -1;
      }
    }

    /** The end of the head step: the head code on the new cell unless the
        snake fell into a hole, and the old head cell turned into a segment
        (or cleared, when the tail is on the new cell). */
    method Land(prevPos: int, newPos: int, entered: Cell)
      requires Valid() && 0 <= prevPos < Size && 0 <= newPos < Size
      modifies this, jungle, damage
      ensures Valid() && screen == old(screen)
      ensures Abs() == Rules.Land(old(Abs()), prevPos, newPos, entered)
    {
      if entered != Hole {
        Plant(newPos, HeadCode(snakeDir));
      }
      var into: Cell := Ground;
      if newPos != ytail * 5 + xtail {
        var base := if snakeGrowth <= 0 then Snake else FatSnake;
        into := BodyCode(base, jungle[prevPos], snakeDir);
      }
      Plant(prevPos, into);
    }

    /** `move_snake`: resolve the direction, step the tail, step the head. */
    method MoveSnake() returns (ok: bool)
      requires Valid()
      modifies this, jungle, damage
      ensures Valid() && screen == old(screen)
      ensures (Abs(), ok) == Rules.MoveSnake(old(Abs()), rand)
    {
      if nextSnakeDir != Opposite(snakeDir) {
        snakeDir := nextSnakeDir;
      }
      nextSnakeDir := snakeDir;
      if snakeGrowth <= 0 {
        StepTail();
      }
      if 0 <= snakeGrowth {
        ok := StepHead();
      } else {
        ok := true;
      }
    }

    /** `move_world`: the snake moves, and the food moves after a tick
        without collision. */
    method MoveWorld() returns (ok: bool)
      requires Valid()
      modifies this, jungle, damage
      ensures Valid() && screen == old(screen)
      ensures (Abs(), ok) == Rules.MoveWorld(old(Abs()), rand)
    {
      ok := MoveSnake();
      if ok {
        MoveFood();
      }
    }

    /** The last step of `move_food`: the food's code moves from `food` to
        `dest`, which the food is tracked at from then on. */
    method Relocate(food: Point, dest: Point)
      requires Valid() && food == Point(yfood, xfood) && InGrid(food) && InGrid(dest)
      modifies this, jungle, damage
      ensures Valid() && screen == old(screen)
      ensures var b := Jungle.Plant(old(Grid()), Index(food), Ground);
        Abs() == old(Abs()).(board := Jungle.Plant(b, Index(dest), old(jungle[Index(food)])),
                             yfood := dest.y, xfood := dest.x)
    {
      var t := jungle[yfood * 5 + xfood];
      PlantYX(yfood, xfood, Ground);
      yfood, xfood := dest.y, dest.x;
      PlantYX(yfood, xfood, t);
    }
  }

  // ------------------------------------------- the move of a tracked food

  lemma FoodBlocked(s: State, dir: Direction)
    requires Rules.Valid(s) && 0 <= s.yfood && dir == FoodDirection(s)
    requires s.board.cells[Index(Move(Point(s.yfood, s.xfood), dir))] != Ground
    ensures FoodStep(s) == s.(foodDir := dir)
  {
  }

  lemma FoodSteps(s: State, dir: Direction)
    requires Rules.Valid(s) && 0 <= s.yfood && dir == FoodDirection(s)
    requires s.board.cells[Index(Move(Point(s.yfood, s.xfood), dir))] == Ground
    ensures var food := Point(s.yfood, s.xfood);
      var dest := Move(food, dir);
      FoodStep(s) == s.(foodDir := dir,
        board := Jungle.Plant(Jungle.Plant(s.board, Index(food), Ground), Index(dest), s.board.cells[Index(food)]),
        yfood := dest.y, xfood := dest.x)
  {
  }

  // ---------------------------------------------- the branches of plant_food

  lemma HoleBranch(s: State, rand: Rand)
    requires Rules.Valid(s) && Rules.Draw(rand, s.draws) % 1024 < 50 && !Has(s.board.cells, Hole)
    ensures PlantFood(s, rand) == Rules.PlantRandom(s.(draws := s.draws + 1), rand, Hole).0
  {
  }

  lemma MobileBranch(s: State, rand: Rand)
    requires Rules.Valid(s) && s.yfood < 0
    requires var p := Rules.Draw(rand, s.draws) % 1024; p < 300 && !(p < 50 && !Has(s.board.cells, Hole))
    ensures PlantFood(s, rand) == PlantMobile(s.(draws := s.draws + 1), rand)
  {
  }

  lemma StaticBranch(s: State, rand: Rand)
    requires Rules.Valid(s)
    requires var p := Rules.Draw(rand, s.draws) % 1024;
      !(p < 50 && !Has(s.board.cells, Hole)) && !(p < 300 && s.yfood < 0)
    ensures PlantFood(s, rand) ==
      Rules.PlantRandom(s.(draws := s.draws + 2), rand, StaticKind(Rules.Draw(rand, s.draws + 1) % 32)).0
  {
  }

  /** One turn of the loop of `plant_foodn`. */
  lemma PlantFoodNStep(s: State, next: State, rand: Rand, n: int)
    requires Rules.Valid(s) && 0 < n && next == PlantFood(s, rand)
    ensures Rules.PlantFoodN(s, rand, n) == Rules.PlantFoodN(next, rand, n - 1)
  {
  }

  /** The mobile branch of `plant_food` when no cell is free. */
  lemma MobileNoRoom(s: State, rand: Rand, t: Cell, s1: State, pos: int)
    requires Rules.Valid(s) && t == MobileKind(Rules.Draw(rand, s.draws) % 32)
    requires (s1, pos) == Rules.PlantRandom(s.(draws := s.draws + 1), rand, t) && pos < 0
    ensures PlantMobile(s, rand) == s1
  {
  }

  /** The mobile branch of `plant_food` once the food has a cell. */
  lemma MobileTracked(s: State, rand: Rand, t: Cell, s1: State, pos: int)
    requires Rules.Valid(s) && t == MobileKind(Rules.Draw(rand, s.draws) % 32)
    requires (s1, pos) == Rules.PlantRandom(s.(draws := s.draws + 1), rand, t) && 0 <= pos
    ensures var d := Rules.Draw(rand, s1.draws);
      var life := Rules.Draw(rand, s1.draws + 1);
      PlantMobile(s, rand) == s1.(yfood := pos / 5, xfood := pos % 5, draws := s1.draws + 2,
        foodDir := if t == Snail then (if d % 2 != 0 then Left else Right) else d % 4,
        foodTimeout := if life % 16 < 15 then FoodLifetime else s1.foodTimeout)
  {
  }
}
