/** What one call of `move_snake` promises: direction resolution, growth
    gating of the tail and head steps, collision, the effect of each food and
    the segment code left behind the head. */
module Ticks {
  import opened Geometry
  import opened Cells
  import opened Jungle
  import opened Rules
  import opened Spawning
  import opened Apples
  import opened MobileFood

  /** The direction of this tick. */
  function Dir(s: State): Direction {
    Resolve(s.snakeDir, s.nextDir)
  }

  /** The state after direction resolution and the (possible) tail step. */
  function AfterTail(s: State): (r: State)
    requires Valid(s)
    ensures Valid(r)
  {
    TailStep(s.(snakeDir := Dir(s), nextDir := Dir(s)))
  }

  /** Where the head goes if it steps. */
  function NewHead(s: State): (p: Point)
    requires Valid(s)
    ensures InGrid(p)
  {
    Move(s.head, Dir(s))
  }

  /** The code the head meets, read after the tail step. */
  function Target(s: State): Cell
    requires Valid(s)
  {
    AfterTail(s).board.cells[Index(NewHead(s))]
  }

  /** The counter after the tail step and after the head step's decrement. */
  function GrowthAfterTail(s: State): int {
    if s.growth < 0 then s.growth + 1 else s.growth
  }

  function GrowthAfterHead(s: State): int {
    var g := GrowthAfterTail(s);
    if g > 0 then g - 1 else g
  }

  /** Whether the head enters the tracked mobile food. */
  predicate EntersTrackedFood(s: State)
    requires Valid(s)
  {
    Index(NewHead(s)) == s.yfood * 5 + s.xfood
  }

  lemma AfterTailFacts(s: State)
    requires Valid(s)
    ensures var a := AfterTail(s);
      a.snakeDir == Dir(s) && a.nextDir == Dir(s) && a.head == s.head && a.growth == GrowthAfterTail(s) &&
      a.draws == s.draws && a.score == s.score && a.speed == s.speed && a.starBonus == s.starBonus &&
      a.yfood == s.yfood && a.xfood == s.xfood &&
      (s.growth <= 0 ==>
        a.tail == Move(s.tail, TailDir(s.board.cells[Index(s.tail)], Dir(s))) &&
        a.board == Plant(s.board, Index(s.tail), Ground)) &&
      (0 < s.growth ==> a.tail == s.tail && a.board == s.board)
  {
  }

  /** `Eat` keeps the snake's position and direction, fills only Ground cells,
      and reports the kind treated as a Hole exactly for a Hole and for an
      Apple that found no free cell to respawn on. */
  lemma EatFrame(s: State, kind: Cell, bug: bool, rand: Rand)
    requires Valid(s)
    ensures var (r, entered) := Eat(s, kind, bug, rand);
      Spawned(s.board.cells, r.board.cells) && FoodTracking(s, r) &&
      r.head == s.head && r.tail == s.tail && r.snakeDir == s.snakeDir && r.nextDir == s.nextDir &&
      r.speed == s.speed && r.draws >= s.draws &&
      (entered == Hole <==> kind == Hole || (kind == Apple && CountGround(s.board.cells) == 0)) &&
      (entered != Hole ==> entered == kind) &&
      (entered == Hole ==> r.growth == InHole && r.board == s.board)
  {
    if kind == Hole {
    } else if kind == Apple {
      EatAppleFrame(s, rand);
      if CountGround(s.board.cells) == 0 {
        EatAppleNoRoom(s, rand);
      } else {
        EatAppleRoom(s, rand);
      }
    } else if kind == Snail || kind == Beetle || kind == Egg || kind == Ant {
    } else if kind == Present {
      ExtraFoodsSpawns(s, rand, 2 + Draw(rand, s.draws) % 4);
    }
  }

  /** `Eat` leaves a non-Ground cell and the snake's tail and direction
      alone, and touches no cell when the kind is treated as a Hole. */
  lemma EatKeepsSnake(s: State, kind: Cell, bug: bool, rand: Rand, i: int)
    requires Valid(s) && 0 <= i < Size && s.board.cells[i] != Ground
    ensures var (r, entered) := Eat(s, kind, bug, rand);
      r.board.cells[i] == s.board.cells[i] && r.tail == s.tail && r.snakeDir == s.snakeDir &&
      (entered == Hole <==> kind == Hole || (kind == Apple && CountGround(s.board.cells) == 0)) &&
      (entered == Hole ==> r.board == s.board)
  {
    EatFrame(s, kind, bug, rand);
  }

  /** The counters each kind of cell changes. */
  lemma EatCounters(s: State, kind: Cell, bug: bool, rand: Rand)
    requires Valid(s)
    ensures var r := Eat(s, kind, bug, rand).0;
      var bonus := BugBonus(s, rand);
      (kind == Hole ==> r.growth == InHole && r.score == s.score && r.draws == s.draws) &&
      (kind == Apple ==>
        r.score == s.score + s.speed &&
        r.growth == (if CountGround(s.board.cells) == 0 then InHole else s.growth + 1) &&
        r.draws == (if CountGround(s.board.cells) == 0 then s.draws else s.draws + 1)) &&
      (kind in {Snail, Beetle, Egg, Ant} ==>
        r.score == s.score + (if bug then 2 * bonus else bonus) && r.growth == s.growth + 1 &&
        r.draws == s.draws + 1) &&
      (kind == Star ==> r.starBonus == s.starBonus + 10 && r.growth == s.growth && r.score == s.score) &&
      (kind == Present ==>
        r.growth == s.growth && r.score == s.score && r.draws >= s.draws + 3 + Draw(rand, s.draws) % 4) &&
      (kind !in {Hole, Apple, Snail, Beetle, Egg, Ant, Star, Present} ==> r == s) &&
      (kind != Apple && kind != Present ==> r.yfood == s.yfood && r.foodTimeout == s.foodTimeout)
  {
    if kind == Hole {
    } else if kind == Apple {
      EatAppleFrame(s, rand);
      if CountGround(s.board.cells) == 0 {
        EatAppleNoRoom(s, rand);
      } else {
        EatAppleRoom(s, rand);
      }
    } else if kind == Snail || kind == Beetle || kind == Egg || kind == Ant {
    } else if kind == Present {
      ExtraFoodsSpawns(s, rand, 2 + Draw(rand, s.draws) % 4);
    }
  }

  /** Direction resolution: a queued reversal is ignored, any other queued
      direction is taken, and afterwards the queue holds the direction taken. */
  lemma DirectionResolution(s: State, rand: Rand)
    requires Valid(s)
    ensures var r := MoveSnake(s, rand).0;
      r.snakeDir == r.nextDir &&
      (s.nextDir == Opposite(s.snakeDir) ==> r.snakeDir == s.snakeDir) &&
      (s.nextDir != Opposite(s.snakeDir) ==> r.snakeDir == s.nextDir)
  {
    var a := AfterTail(s);
    AfterTailFacts(s);
    if 0 <= a.growth {
      HeadStepFrame(a, rand);
    }
  }

  /** What `HeadStep` keeps, whatever the head meets. */
  lemma HeadStepFrame(s: State, rand: Rand)
    requires Valid(s)
    ensures var r := HeadStep(s, rand).0;
      r.snakeDir == s.snakeDir && r.nextDir == s.nextDir && r.tail == s.tail &&
      r.head == Move(s.head, s.snakeDir) && r.speed == s.speed
  {
    var s1 := Entering(s);
    var pos := Index(s1.head);
    EatFrame(s1, s1.board.cells[pos], pos == s.yfood * 5 + s.xfood, rand);
  }

  /** A head step that does not collide succeeds, and its counters are those
      the eaten cell gives. */
  lemma HeadStepCounters(s: State, rand: Rand)
    requires Valid(s) && !Collides(s.board.cells[Index(Move(s.head, s.snakeDir))])
    ensures var (r, ok) := HeadStep(s, rand);
      var s1 := Entering(s);
      var pos := Index(s1.head);
      var e := Eat(s1, s1.board.cells[pos], pos == s.yfood * 5 + s.xfood, rand).0;
      ok && r.growth == e.growth && r.score == e.score && r.starBonus == e.starBonus &&
      r.draws == e.draws && r.yfood == e.yfood && r.foodTimeout == e.foodTimeout
  {
  }

  /** Growth gating: the tail steps iff the counter is at most 0 on entry (a
      negative counter moving toward 0), following its cell's encoded
      direction; the head steps iff the counter is at least 0 after that. */
  lemma GrowthGating(s: State, rand: Rand)
    requires Valid(s)
    ensures var r := MoveSnake(s, rand).0;
      r.tail == (if s.growth <= 0 then Move(s.tail, TailDir(s.board.cells[Index(s.tail)], Dir(s))) else s.tail) &&
      r.head == (if 0 <= GrowthAfterTail(s) then NewHead(s) else s.head)
    ensures GrowthAfterTail(s) < 0 ==>
      MoveSnake(s, rand) == (AfterTail(s), true) &&
      AfterTail(s).growth == s.growth + 1 &&
      AfterTail(s).board == Plant(s.board, Index(s.tail), Ground)
  {
    AfterTailFacts(s);
    if 0 <= GrowthAfterTail(s) {
      HeadStepFrame(AfterTail(s), rand);
    }
  }

  /** Collision: the tick fails exactly when the head steps onto a wall or a
      snake cell; then that cell becomes Hit, nothing else but the tail step
      and the counters has happened, and `move_world` skips the food. */
  lemma Collision(s: State, rand: Rand)
    requires Valid(s)
    ensures var (r, ok) := MoveSnake(s, rand);
      !ok <==> 0 <= GrowthAfterTail(s) && Collides(Target(s))
    ensures var (r, ok) := MoveSnake(s, rand);
      !ok ==>
        r.board == Plant(AfterTail(s).board, Index(NewHead(s)), Hit) &&
        r.score == s.score && r.growth == GrowthAfterHead(s) && r.draws == s.draws &&
        r.starBonus == s.starBonus && MoveWorld(s, rand) == (r, false)
  {
    AfterTailFacts(s);
  }

  /** Food effects of a tick whose head step did not collide: a Hole sets the
      counter to -9999; an Apple scores `speed` and grows by one, or, with no
      free cell to respawn it, is handled as a Hole; a bug food scores
      `speed + rand() % speed^2`, doubled for the tracked food, and grows by
      one; a Star adds 10 to the star bonus; a Present spawns at least two
      foods; entering the tracked food forgets it (unless a spawn tracks a
      new one). */
  lemma FoodEffects(s: State, rand: Rand)
    requires Valid(s) && 0 <= GrowthAfterTail(s) && !Collides(Target(s))
    ensures var (r, ok) := MoveSnake(s, rand);
      var kind := Target(s);
      var bug := EntersTrackedFood(s);
      var g := GrowthAfterHead(s);
      var bonus := BugBonus(s, rand);
      ok &&
      (kind == Hole ==> r.growth == InHole && r.score == s.score) &&
      (kind == Apple ==>
        r.score == s.score + s.speed &&
        r.growth == (if CountGround(AfterTail(s).board.cells) == 0 then InHole else g + 1) &&
        r.draws == (if CountGround(AfterTail(s).board.cells) == 0 then s.draws else s.draws + 1)) &&
      (kind in {Snail, Beetle, Egg, Ant} ==>
        r.score == s.score + (if bug then 2 * bonus else bonus) && r.growth == g + 1) &&
      (kind == Star ==> r.starBonus == s.starBonus + 10 && r.growth == g && r.score == s.score) &&
      (kind == Present ==>
        r.growth == g && r.score == s.score && r.draws >= s.draws + 3 + Draw(rand, s.draws) % 4) &&
      (kind !in {Hole, Apple, Snail, Beetle, Egg, Ant, Star, Present} ==>
        r.growth == g && r.score == s.score && r.draws == s.draws && r.starBonus == s.starBonus) &&
      (bug && kind != Apple && kind != Present ==> r.yfood == -1) &&
      (kind != Apple && kind != Present ==> r.foodTimeout == s.foodTimeout)
  {
    AfterTailFacts(s);
    var a := AfterTail(s);
    HeadStepCounters(a, rand);
    var s1 := Entering(a);
    var pos := Index(s1.head);
    EatCounters(s1, s1.board.cells[pos], pos == a.yfood * 5 + a.xfood, rand);
  }

  /** The state the expiry write needs is reachable: when the head enters the
      tracked bug food on that food's last tick, `move_snake` forgets the food
      but leaves its timeout at 1, so the `move_food` of the same `move_world`
      takes the expiry branch with `yfood == -1`, where the index as written is
      negative. */
  lemma EatingOnLastTickReachesExpiry(s: State, rand: Rand)
    requires Valid(s) && s.foodTimeout == 1 && 0 <= GrowthAfterTail(s)
    requires EntersTrackedFood(s) && Target(s) in {Snail, Beetle, Ant}
    ensures var (r, ok) := MoveSnake(s, rand);
      ok && r.yfood == -1 && r.foodTimeout == 1 && ExpiryCellAsWritten(r) < 0 &&
      MoveFood(r).board == r.board
  {
    FoodEffects(s, rand);
    var r := MoveSnake(s, rand).0;
    ExpiryUntrackedIsOutOfBounds(r);
    Expiry(r);
  }

  /** The two cells a head step writes. The old head cell becomes the segment
      that points back along the opposite of the direction its head had faced
      and on along the direction taken, thin when the counter is at most 0 and
      fat otherwise, or Ground when the new head reached the tail's cell; the
      destination shows the head facing the direction taken, or keeps its
      code when the cell is handled as a Hole. */
  lemma HeadStepCells(s: State, rand: Rand)
    requires Valid(s) && IsHead(s.board.cells[Index(s.head)])
    requires !Collides(s.board.cells[Index(Move(s.head, s.snakeDir))])
    ensures var (r, ok) := HeadStep(s, rand);
      var prev := Index(s.head);
      var pos := Index(Move(s.head, s.snakeDir));
      var kind := s.board.cells[pos];
      var asHole := kind == Hole || (kind == Apple && CountGround(s.board.cells) == 0);
      ok && r.tail == s.tail &&
      r.board.cells[prev] == (if pos != Index(s.tail)
        then Segment(if r.growth <= 0 then Snake else FatSnake, Opposite(s.board.cells[prev] - Head), s.snakeDir)
        else Ground) &&
      r.board.cells[pos] == (if asHole then kind else HeadCode(s.snakeDir))
  {
    var prev := Index(s.head);
    var s1 := Entering(s);
    var pos := Index(s1.head);
    MoveChangesOneCoordinate(s.head, s.snakeDir);
    if pos == prev {
      IndexInjective(s.head, s1.head);
    }
    assert s1.board == s.board && s1.tail == s.tail && s1.snakeDir == s.snakeDir;
    var kind := s1.board.cells[pos];
    var bug := pos == s.yfood * 5 + s.xfood;
    var (s2, entered) := Eat(s1, kind, bug, rand);
    EatKeepsSnake(s1, kind, bug, rand, prev);
    var r := Land(s2, prev, pos, entered);
    assert HeadStep(s, rand) == (r, true);
    LandCells(s, s2, prev, pos, entered);
  }

  /** The two cells `Land` writes after the head has entered `pos` from
      `prev` with the snake of `s`: the head code on `pos` unless the cell is
      handled as a Hole, and on `prev` the segment toward `pos`, or Ground
      when the tail is on `pos`. */
  lemma LandCells(s: State, s2: State, prev: int, pos: int, entered: Cell)
    requires Valid(s) && Valid(s2) && 0 <= prev < Size && 0 <= pos < Size && prev != pos
    requires IsHead(s.board.cells[prev]) && s2.board.cells[prev] == s.board.cells[prev]
    requires s2.tail == s.tail && s2.snakeDir == s.snakeDir
    requires entered == Hole ==> s2.board.cells[pos] == s.board.cells[pos]
    ensures var r := Land(s2, prev, pos, entered);
      r.tail == s.tail &&
      r.board.cells[prev] == (if pos != Index(s.tail)
        then Segment(if r.growth <= 0 then Snake else FatSnake, Opposite(s.board.cells[prev] - Head), s.snakeDir)
        else Ground) &&
      r.board.cells[pos] == (if entered == Hole then s.board.cells[pos] else HeadCode(s.snakeDir))
  {
  }

  /** Body encoding for `move_snake`: when the head steps without colliding
      from a cell that still holds a head after the tail step, the old head
      cell becomes the segment toward the new head (or Ground when the head
      reached the tail) and the destination holds the new head. */
  lemma BodyEncoding(s: State, rand: Rand)
    requires Valid(s) && 0 <= GrowthAfterTail(s) && !Collides(Target(s))
    requires IsHead(AfterTail(s).board.cells[Index(s.head)])
    ensures var (r, ok) := MoveSnake(s, rand);
      var a := AfterTail(s);
      var prev := Index(s.head);
      var pos := Index(NewHead(s));
      var asHole := Target(s) == Hole || (Target(s) == Apple && CountGround(a.board.cells) == 0);
      ok && r.head == NewHead(s) && r.tail == a.tail &&
      r.board.cells[prev] == (if pos != Index(a.tail)
        then Segment(if r.growth <= 0 then Snake else FatSnake, Opposite(a.board.cells[prev] - Head), Dir(s))
        else Ground) &&
      r.board.cells[pos] == (if asHole then Target(s) else HeadCode(Dir(s)))
  {
    AfterTailFacts(s);
    HeadStepCells(AfterTail(s), rand);
    HeadStepFrame(AfterTail(s), rand);
  }

  // --------------------------------------------------- the head cell invariant

  /** The head cell shows a head and the tracked food lies elsewhere, unless
      the snake is in a hole (a negative counter), where the head sits on the
      Hole's own code. */
  predicate HeadShown(s: State)
    requires Valid(s)
  {
    s.growth < 0 ||
    (IsHead(s.board.cells[Index(s.head)]) &&
     !(0 <= s.yfood && Index(Point(s.yfood, s.xfood)) == Index(s.head)))
  }

  /** A head step that does not collide shows the head on the new head cell,
      with the tracked food elsewhere, or leaves the snake in a hole. */
  lemma HeadStepShowsHead(s: State, rand: Rand)
    requires Valid(s) && !Collides(s.board.cells[Index(Move(s.head, s.snakeDir))])
    ensures HeadStep(s, rand).1 && HeadShown(HeadStep(s, rand).0)
  {
    var prev := Index(s.head);
    var s1 := Entering(s);
    var pos := Index(s1.head);
    MoveChangesOneCoordinate(s.head, s.snakeDir);
    if pos == prev {
      IndexInjective(s.head, s1.head);
    }
    assert s1.board == s.board;
    assert !(0 <= s1.yfood && Index(Point(s1.yfood, s1.xfood)) == pos);
    var kind := s1.board.cells[pos];
    var bug := pos == s.yfood * 5 + s.xfood;
    var (s2, entered) := Eat(s1, kind, bug, rand);
    EatFrame(s1, kind, bug, rand);
    EatCounters(s1, kind, bug, rand);
    var r := Land(s2, prev, pos, entered);
    assert HeadStep(s, rand) == (r, true);
    if entered != Hole {
      assert r.board.cells[pos] == HeadCode(s.snakeDir);
      assert r.yfood == s2.yfood && r.xfood == s2.xfood && r.head == s1.head;
      if kind == Ground {
        assert s2 == s1;
      }
    }
  }

  /** `move_food` keeps the head cell showing a head: the food only moves onto
      Ground and only clears its own cell, which is not the head's. */
  lemma FoodKeepsHeadShown(s: State)
    requires Valid(s) && HeadShown(s)
    ensures HeadShown(MoveFood(s))
  {
    if s.foodTimeout == 1 {
      Expiry(s);
    } else if s.yfood < 0 {
      Untracked(s);
    } else {
      Step(s);
    }
  }

  /** The head cell invariant after a successful `move_world`, from any state:
      the head cell shows a head and the tracked food is elsewhere, or the
      snake is in a hole. */
  lemma TickShowsHead(s: State, rand: Rand)
    requires Valid(s)
    ensures var (r, ok) := MoveWorld(s, rand);
      ok ==> HeadShown(r)
  {
    AfterTailFacts(s);
    Collision(s, rand);
    var a := AfterTail(s);
    var (m, ok) := MoveSnake(s, rand);
    if ok {
      if 0 <= a.growth {
        HeadStepShowsHead(a, rand);
      }
      FoodKeepsHeadShown(m);
    }
  }

  /** With the head cell shown and the snake longer than one cell (or still
      growing), the head cell survives the tail step, which is what
      `HeadStepCells` and `BodyEncoding` require. */
  lemma HeadSurvivesTail(s: State)
    requires Valid(s) && 0 <= s.growth && HeadShown(s)
    requires 0 < s.growth || s.tail != s.head
    ensures IsHead(AfterTail(s).board.cells[Index(s.head)])
  {
    AfterTailFacts(s);
    if s.growth == 0 && Index(s.tail) == Index(s.head) {
      IndexInjective(s.tail, s.head);
    }
  }
}
