/** What `move_food` does with the single tracked mobile food, and the
    out-of-bounds write of its expiry branch as written. */
module MobileFood {
  import opened Geometry
  import opened Cells
  import opened Jungle
  import opened Rules
  import opened Spawning

  /** Expiry: a timeout counting down to zero clears the tracked food's cell
      (and only that cell) without forgetting its position. */
  lemma Expiry(s: State)
    requires Valid(s) && s.foodTimeout == 1
    ensures var r := MoveFood(s);
      r.foodTimeout == 0 && r.yfood == s.yfood && r.xfood == s.xfood && r.foodDir == s.foodDir &&
      SameSnake(s, r) && r.draws == s.draws &&
      (0 <= s.yfood ==> r.board == Plant(s.board, ExpiryCellAsWritten(s), Ground)) &&
      (s.yfood < 0 ==> r.board == s.board)
  {
  }

  /** Without a tracked food the timeout is reset and nothing else changes. */
  lemma Untracked(s: State)
    requires Valid(s) && s.foodTimeout != 1 && s.yfood < 0
    ensures MoveFood(s) == s.(foodTimeout := 0)
  {
  }

  /** The step of a tracked food: the timeout counts down, the food reverses
      when the cell ahead is neither Ground nor a head, and it moves one cell
      (taking its code along and leaving Ground) exactly when the cell in its
      direction is Ground. */
  lemma Step(s: State)
    requires Valid(s) && s.foodTimeout != 1 && 0 <= s.yfood
    ensures var r := MoveFood(s);
      var food := Point(s.yfood, s.xfood);
      var dir := FoodDirection(s);
      var dest := Move(food, dir);
      SameSnake(s, r) && r.draws == s.draws &&
      r.foodTimeout == (if 0 < s.foodTimeout then s.foodTimeout - 1 else s.foodTimeout) &&
      r.foodDir == dir &&
      (s.board.cells[Index(dest)] == Ground ==>
        Point(r.yfood, r.xfood) == dest &&
        r.board.cells == s.board.cells[Index(food) := Ground][Index(dest) := s.board.cells[Index(food)]] &&
        Move(dest, Opposite(dir)) == food) &&
      (s.board.cells[Index(dest)] != Ground ==>
        r.yfood == s.yfood && r.xfood == s.xfood && r.board == s.board)
  {
    MoveRoundTrip(Point(s.yfood, s.xfood), FoodDirection(s));
  }

  /** As written, the expiry branch indexes the jungle with `yfood * W + xfood`
      even after the snake ate the tracked food (`yfood == -1`): the index is
      then negative. */
  lemma ExpiryUntrackedIsOutOfBounds(s: State)
    requires Valid(s) && s.yfood == -1
    ensures ExpiryCellAsWritten(s) < 0
  {
  }
}
