/** What eating an Apple does: a new Apple on a free cell and one more
    segment, or, with no free cell, the Apple handled as a Hole; and the guard
    of the extra spawns, as written (never true) and as intended. */
module Apples {
  import opened Geometry
  import opened Cells
  import opened Jungle
  import opened Rules
  import opened Spawning

  /** The respawn: with a free cell the Apple lands on the chosen Ground
      cell, one draw is used, the snake gets one more segment and `speed`
      points, and nothing else changes. */
  lemma RespawnPlacement(s: State, rand: Rand)
    requires Valid(s)
    ensures var (p, pos) := AppleRespawn(s, rand);
      (pos < 0 <==> CountGround(s.board.cells) == 0) &&
      (pos < 0 ==> p == s.(growth := s.growth + 1, score := s.score + s.speed)) &&
      (0 <= pos ==>
        pos < Size && s.board.cells[pos] == Ground && p.board.cells == s.board.cells[pos := Apple] &&
        p.draws == s.draws + 1) &&
      Spawned(s.board.cells, p.board.cells) &&
      p.growth == s.growth + 1 && p.score == s.score + s.speed &&
      p.snakeDir == s.snakeDir && p.nextDir == s.nextDir && p.speed == s.speed &&
      p.starBonus == s.starBonus && p.head == s.head && p.tail == s.tail &&
      p.yfood == s.yfood && p.xfood == s.xfood && p.foodDir == s.foodDir && p.foodTimeout == s.foodTimeout
  {
    var s1 := s.(growth := s.growth + 1, score := s.score + s.speed);
    PlantRandomSpawns(s1, rand, Apple);
    PlantRandomPlacement(s1, rand, Apple);
  }

  // ------------------------------------------------------------- as written

  /** As written, the extra spawns never happen: the Apple just planted makes
      `any_special_food()` true, so eating an Apple with a free cell is the
      respawn alone, with no draw after it. */
  lemma AsWrittenNeverRestocks(s: State, rand: Rand)
    requires Valid(s) && CountGround(s.board.cells) > 0
    ensures EatApple(s, rand) == (AppleRespawn(s, rand).0, Apple)
    ensures EatApple(s, rand).0.draws == s.draws + 1
  {
    RespawnPlacement(s, rand);
    var (p, pos) := AppleRespawn(s, rand);
    assert Apple <= p.board.cells[pos] <= LastSpecialFood;
    AnyInIff(p.board.cells, Apple, LastSpecialFood);
  }

  /** With no free cell the Apple is handled as a Hole: the points and the
      segment are granted, then the counter is set to -9999. */
  lemma EatAppleNoRoom(s: State, rand: Rand)
    requires Valid(s) && CountGround(s.board.cells) == 0
    ensures EatApple(s, rand) == (s.(growth := InHole, score := s.score + s.speed), Hole)
    ensures EatAppleIntended(s, rand) == EatApple(s, rand)
  {
    RespawnPlacement(s, rand);
  }

  /** With a free cell a new Apple appears on a cell that was Ground, every
      other cell keeps its code, one draw is used and the snake grows by one. */
  lemma EatAppleRoom(s: State, rand: Rand)
    requires Valid(s) && CountGround(s.board.cells) > 0
    ensures var (r, entered) := EatApple(s, rand);
      entered == Apple && r.growth == s.growth + 1 && r.draws == s.draws + 1 &&
      exists i :: 0 <= i < Size && s.board.cells[i] == Ground && r.board.cells == s.board.cells[i := Apple]
  {
    RespawnPlacement(s, rand);
    AsWrittenNeverRestocks(s, rand);
    var pos := AppleRespawn(s, rand).1;
    assert EatApple(s, rand).0.board.cells == s.board.cells[pos := Apple];
  }

  /** Eating an Apple never moves the snake, fills only Ground cells, keeps
      the tracked food and scores `speed`. */
  lemma EatAppleFrame(s: State, rand: Rand)
    requires Valid(s)
    ensures var r := EatApple(s, rand).0;
      Spawned(s.board.cells, r.board.cells) &&
      r.yfood == s.yfood && r.xfood == s.xfood && r.foodDir == s.foodDir && r.foodTimeout == s.foodTimeout &&
      r.head == s.head && r.tail == s.tail && r.snakeDir == s.snakeDir && r.nextDir == s.nextDir &&
      r.speed == s.speed && r.draws >= s.draws && r.score == s.score + s.speed &&
      r.starBonus == s.starBonus
  {
    RespawnPlacement(s, rand);
    if CountGround(s.board.cells) == 0 {
      EatAppleNoRoom(s, rand);
    } else {
      AsWrittenNeverRestocks(s, rand);
    }
  }

  // -------------------------------------------------------------- as intended

  lemma IntendedRestock(s: State, rand: Rand)
    requires Valid(s) && AppleRespawn(s, rand).1 >= 0
    requires !HasFoodBesidesApples(AppleRespawn(s, rand).0.board.cells)
    ensures var p := AppleRespawn(s, rand).0;
      EatAppleIntended(s, rand) == (ExtraFoods(p, rand, Draw(rand, p.draws) % 4), Apple)
  {
  }

  lemma IntendedNoRestock(s: State, rand: Rand)
    requires Valid(s) && AppleRespawn(s, rand).1 >= 0
    requires HasFoodBesidesApples(AppleRespawn(s, rand).0.board.cells)
    ensures EatAppleIntended(s, rand) == (AppleRespawn(s, rand).0, Apple)
  {
  }

  /** As intended, with a free cell the new Apple lands on a Ground cell, and
      what follows the respawn fills only Ground cells, leaves the snake alone
      and keeps the tracked food or tracks a freshly spawned one. */
  lemma IntendedSpawns(s: State, rand: Rand)
    requires Valid(s) && CountGround(s.board.cells) > 0
    ensures var p := AppleRespawn(s, rand).0;
      var r := EatAppleIntended(s, rand);
      r.1 == Apple && r.0.growth == s.growth + 1 && r.0.score == s.score + s.speed &&
      Spawned(s.board.cells, r.0.board.cells) && SameSnake(p, r.0) &&
      FoodTracking(s, r.0) && r.0.draws > s.draws
  {
    RespawnPlacement(s, rand);
    var p := AppleRespawn(s, rand).0;
    var r := EatAppleIntended(s, rand).0;
    if !HasFoodBesidesApples(p.board.cells) {
      IntendedRestock(s, rand);
      ExtraFoodsSpawns(p, rand, Draw(rand, p.draws) % 4);
    } else {
      IntendedNoRestock(s, rand);
    }
    SpawnedTrans(s.board.cells, p.board.cells, r.board.cells);
    FoodTrackingTrans(s, p, r);
  }

  /** As intended, with no food besides apples left after the respawn, the
      extra spawns take place: the count is drawn and `rand() % 4` foods are
      planted, each using at least one more draw. */
  lemma EatAppleRestocks(s: State, rand: Rand)
    requires Valid(s) && CountGround(s.board.cells) > 0
    requires !HasFoodBesidesApples(AppleRespawn(s, rand).0.board.cells)
    ensures var p := AppleRespawn(s, rand).0;
      EatAppleIntended(s, rand).0.draws >= s.draws + 2 + Draw(rand, p.draws) % 4
  {
    RespawnPlacement(s, rand);
    IntendedRestock(s, rand);
    var p := AppleRespawn(s, rand).0;
    ExtraFoodsSpawns(p, rand, Draw(rand, p.draws) % 4);
  }

  /** When a food other than apples is left after the respawn, both guards
      skip the extra spawns, so both versions agree. */
  lemma GuardsAgreeWithOtherFood(s: State, rand: Rand)
    requires Valid(s) && CountGround(s.board.cells) > 0
    requires HasFoodBesidesApples(AppleRespawn(s, rand).0.board.cells)
    ensures EatApple(s, rand) == EatAppleIntended(s, rand)
  {
    AsWrittenNeverRestocks(s, rand);
    IntendedNoRestock(s, rand);
  }
}
