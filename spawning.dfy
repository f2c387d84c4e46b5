/** What the food spawner promises: placement on the chosen free cell, and
    that spawning only ever fills Ground cells and leaves the snake alone. */
module Spawning {
  import opened Geometry
  import opened Cells
  import opened Jungle
  import opened Rules

  /** `b` is `a` with some Ground cells filled by spawnable entities. */
  predicate Spawned(a: seq<Cell>, b: seq<Cell>) {
    |a| == |b| && forall i :: 0 <= i < |a| ==> b[i] == a[i] || (a[i] == Ground && IsSpawnable(b[i]))
  }

  /** The front-to-back scan finds a code in `lo..hi` exactly when some cell
      holds one. */
  lemma {:induction false} AnyInIff(cells: seq<Cell>, lo: int, hi: int)
    ensures AnyIn(cells, lo, hi) <==> exists i :: 0 <= i < |cells| && lo <= cells[i] <= hi
    decreases |cells|
  {
    if |cells| > 0 {
      var rest := cells[1..];
      AnyInIff(rest, lo, hi);
      if AnyIn(cells, lo, hi) && !(lo <= cells[0] <= hi) {
        var i :| 0 <= i < |rest| && lo <= rest[i] <= hi;
        assert cells[i + 1] == rest[i];
      }
      if exists i :: 0 <= i < |cells| && lo <= cells[i] <= hi {
        var i :| 0 <= i < |cells| && lo <= cells[i] <= hi;
        if i > 0 {
          assert rest[i - 1] == cells[i];
        }
      }
    }
  }

  /** Spawning twice is spawning. */
  lemma SpawnedTrans(a: seq<Cell>, b: seq<Cell>, c: seq<Cell>)
    requires Spawned(a, b) && Spawned(b, c)
    ensures Spawned(a, c)
  {
  }

  /** Food tracking across two spawning steps. */
  lemma FoodTrackingTrans(s: State, m: State, r: State)
    requires Valid(s) && Valid(m) && Valid(r)
    requires Spawned(s.board.cells, m.board.cells) && Spawned(m.board.cells, r.board.cells)
    requires FoodTracking(s, m) && FoodTracking(m, r)
    ensures FoodTracking(s, r)
  {
  }

  /** Nothing but the grid, the damage list, the draw counter and the mobile
      food changed. */
  predicate SameSnake(s: State, r: State) {
    r.snakeDir == s.snakeDir && r.nextDir == s.nextDir && r.growth == s.growth &&
    r.score == s.score && r.speed == s.speed && r.starBonus == s.starBonus &&
    r.head == s.head && r.tail == s.tail
  }

  /** The tracked mobile food is the same, or none was tracked and the new
      one sits on a cell that was Ground and now holds a spawned food. */
  predicate FoodTracking(s: State, r: State)
    requires Valid(s) && Valid(r)
  {
    (r.yfood == s.yfood && r.xfood == s.xfood && r.foodDir == s.foodDir && r.foodTimeout == s.foodTimeout) ||
    (s.yfood < 0 && 0 <= r.yfood &&
     s.board.cells[Index(Point(r.yfood, r.xfood))] == Ground &&
     IsSpawnable(r.board.cells[Index(Point(r.yfood, r.xfood))]))
  }

  /** Random placement (`plant_random`): with no Ground cell nothing happens
      and -1 is returned; otherwise `pos` is the `(rand() % count)`-th Ground
      cell in index order, it now holds `t`, and no other cell changed. */
  lemma PlantRandomPlacement(s: State, rand: Rand, t: Cell)
    requires Valid(s)
    ensures var (r, pos) := PlantRandom(s, rand, t);
      var n := CountGround(s.board.cells);
      (n == 0 ==> pos == -1 && r == s) &&
      (n > 0 ==>
        0 <= pos < Size && s.board.cells[pos] == Ground &&
        CountGround(s.board.cells[..pos]) == Draw(rand, s.draws) % n &&
        r.board == Plant(s.board, pos, t) &&
        r.board.cells == s.board.cells[pos := t] &&
        r == s.(board := r.board, draws := s.draws + 1))
  {
  }

  /** The chosen cell is the only Ground cell with that many Ground cells
      before it. */
  lemma {:induction false} PlacementIsUnique(cells: seq<Cell>, k: int, n: nat)
    requires n < CountGround(cells)
    requires 0 <= k < |cells| && cells[k] == Ground && CountGround(cells[..k]) == n
    ensures k == NthGround(cells, n)
  {
    var j := NthGround(cells, n);
    if k < j {
      CountGroundPrefix(cells, k + 1, j);
      CountGroundSnoc(cells, k);
    } else if j < k {
      CountGroundPrefix(cells, j + 1, k);
      CountGroundSnoc(cells, j);
    }
  }

  /** Ground counts grow along prefixes. */
  lemma {:induction false} CountGroundPrefix(cells: seq<Cell>, i: int, j: int)
    requires 0 <= i <= j <= |cells|
    ensures CountGround(cells[..i]) <= CountGround(cells[..j])
    decreases j - i
  {
    if i < j {
      CountGroundPrefix(cells, i, j - 1);
      CountGroundSnoc(cells, j - 1);
    }
  }

  lemma PlantRandomSpawns(s: State, rand: Rand, t: Cell)
    requires Valid(s) && IsSpawnable(t)
    ensures var (r, pos) := PlantRandom(s, rand, t);
      Spawned(s.board.cells, r.board.cells) && SameSnake(s, r) &&
      r.yfood == s.yfood && r.xfood == s.xfood && r.foodDir == s.foodDir &&
      r.foodTimeout == s.foodTimeout &&
      (pos < 0 <==> CountGround(s.board.cells) == 0) &&
      (0 <= pos ==> pos < Size && s.board.cells[pos] == Ground && r.board.cells[pos] == t)
  {
  }

  /** `plant_food` fills at most Ground cells, keeps the snake, and either keeps
      the tracked food or starts tracking a freshly spawned one. */
  lemma PlantFoodSpawns(s: State, rand: Rand)
    requires Valid(s)
    ensures var r := PlantFood(s, rand);
      Spawned(s.board.cells, r.board.cells) && SameSnake(s, r) && r.draws > s.draws &&
      FoodTracking(s, r)
  {
    var p := Draw(rand, s.draws) % 1024;
    var s0 := s.(draws := s.draws + 1);
    if p < 50 && !Has(s.board.cells, Hole) {
      PlantRandomSpawns(s0, rand, Hole);
    } else if p < 300 && s.yfood < 0 {
      var t := MobileKind(Draw(rand, s0.draws) % 32);
      var s1 := s0.(draws := s0.draws + 1);
      PlantRandomSpawns(s1, rand, t);
      var (s2, pos) := PlantRandom(s1, rand, t);
      if 0 <= pos {
        assert Index(Point(pos / 5, pos % 5)) == pos;
      }
    } else {
      PlantRandomSpawns(s0.(draws := s0.draws + 1), rand, StaticKind(Draw(rand, s0.draws) % 32));
    }
  }

  /** `plant_food`, low draw (below 50 of 1024) with no hole on the grid:
      a hole appears when a Ground cell is free. */
  lemma PlantFoodHole(s: State, rand: Rand)
    requires Valid(s) && CountGround(s.board.cells) > 0
    requires Draw(rand, s.draws) % 1024 < 50 && !Has(s.board.cells, Hole)
    ensures Has(PlantFood(s, rand).board.cells, Hole)
    ensures PlantFood(s, rand).draws == s.draws + 2
  {
    var planted := PlantRandom(s.(draws := s.draws + 1), rand, Hole);
    assert PlantFood(s, rand) == planted.0;
    assert planted.0.board.cells[planted.1] == Hole;
    AnyInIff(planted.0.board.cells, Hole, Hole);
  }

  /** `plant_food`, draw below 300 not taken by the hole branch and no tracked
      food: a new mobile food of the kind drawn out of 32 is tracked, with the
      full timeout on 15 draws out of 16. */
  lemma PlantFoodMobile(s: State, rand: Rand)
    requires Valid(s) && CountGround(s.board.cells) > 0 && s.yfood < 0
    requires var p := Draw(rand, s.draws) % 1024; p < 300 && (p < 50 ==> Has(s.board.cells, Hole))
    ensures var r := PlantFood(s, rand);
      0 <= r.yfood &&
      r.board.cells[Index(Point(r.yfood, r.xfood))] == MobileKind(Draw(rand, s.draws + 1) % 32) &&
      r.draws == s.draws + 5 &&
      (Draw(rand, s.draws + 4) % 16 < 15 ==> r.foodTimeout == FoodLifetime) &&
      (MobileKind(Draw(rand, s.draws + 1) % 32) == Snail ==> r.foodDir == Left || r.foodDir == Right)
  {
    var t := MobileKind(Draw(rand, s.draws + 1) % 32);
    var (s1, pos) := PlantRandom(s.(draws := s.draws + 2), rand, t);
    assert Index(Point(pos / 5, pos % 5)) == pos;
  }

  /** `plant_food`, draw of 300 or more: a static food of the kind drawn out
      of 32, and the tracked food is untouched. */
  lemma PlantFoodStatic(s: State, rand: Rand)
    requires Valid(s) && CountGround(s.board.cells) > 0
    requires 300 <= Draw(rand, s.draws) % 1024
    ensures var r := PlantFood(s, rand);
      r.yfood == s.yfood && r.draws == s.draws + 3 &&
      Has(r.board.cells, StaticKind(Draw(rand, s.draws + 1) % 32))
  {
    var t := StaticKind(Draw(rand, s.draws + 1) % 32);
    var planted := PlantRandom(s.(draws := s.draws + 2), rand, t);
    assert PlantFood(s, rand) == planted.0;
    assert planted.0.board.cells[planted.1] == t;
    AnyInIff(planted.0.board.cells, t, t);
  }

  /** `plant_foodn` keeps the same promises as `plant_food`, for any count. */
  lemma {:induction false} PlantFoodNSpawns(s: State, rand: Rand, n: int)
    requires Valid(s)
    ensures var r := PlantFoodN(s, rand, n);
      Spawned(s.board.cells, r.board.cells) && SameSnake(s, r) && r.draws >= s.draws + (if n > 0 then n else 0) &&
      FoodTracking(s, r)
    decreases n
  {
    if n > 0 {
      var s1 := PlantFood(s, rand);
      PlantFoodSpawns(s, rand);
      PlantFoodNSpawns(s1, rand, n - 1);
      var r := PlantFoodN(s1, rand, n - 1);
      assert r == PlantFoodN(s, rand, n);
      SpawnedTrans(s.board.cells, s1.board.cells, r.board.cells);
      FoodTrackingTrans(s, s1, r);
    }
  }

  /** The same for the foods planted after a counting draw. */
  lemma ExtraFoodsSpawns(s: State, rand: Rand, n: int)
    requires Valid(s)
    ensures var r := ExtraFoods(s, rand, n);
      Spawned(s.board.cells, r.board.cells) && SameSnake(s, r) &&
      r.draws >= s.draws + 1 && FoodTracking(s, r)
    ensures 0 <= n ==> ExtraFoods(s, rand, n).draws >= s.draws + 1 + n
  {
    var s1 := s.(draws := s.draws + 1);
    var r := PlantFoodN(s1, rand, n);
    PlantFoodNSpawns(s1, rand, n);
    assert ExtraFoods(s, rand, n) == r;
    OnlyDrawsDiffer(s, s1, r);
  }

  /** The promises of a spawning step do not depend on the draw counter of
      the state it started from. */
  lemma OnlyDrawsDiffer(s: State, s1: State, r: State)
    requires Valid(s) && Valid(r) && s1 == s.(draws := s1.draws)
    requires Spawned(s1.board.cells, r.board.cells) && SameSnake(s1, r) && FoodTracking(s1, r)
    ensures Spawned(s.board.cells, r.board.cells) && SameSnake(s, r) && FoodTracking(s, r)
  {
  }
}
