/** The start of a round: `vacuum_jungle` clears the grid and the counters,
    `plant_snake` places a one-cell snake. */
module Setup {
  import opened Geometry
  import opened Cells
  import opened Jungle
  import opened Rules
  import opened Spawning
  import opened Ticks

  /** `vacuum_jungle`: every cell Ground, written past the damage list (which
      is left as it was) with incremental drawing switched off; one pending
      segment, no star bonus, no tracked food and no timeout. */
  function Vacuum(s: State): (r: State)
    requires Valid(s)
    ensures Valid(r)
  {
    s.(board := Board(seq(Size, i => Ground), false, s.board.damages),
       growth := 1, starBonus := 0, yfood := -1, foodTimeout := 0)
  }

  /** `plant_snake`: head and tail on `p`, both directions `d`, and the cell
      showing a head facing `d`. */
  function PlantSnake(s: State, p: Point, d: Direction): (r: State)
    requires Valid(s) && InGrid(p)
    ensures Valid(r)
  {
    s.(head := p, tail := p, snakeDir := d, nextDir := d,
       board := Plant(s.board, Index(p), HeadCode(d)))
  }

  lemma {:induction false} CountAllGround(cells: seq<Cell>)
    requires forall i :: 0 <= i < |cells| ==> cells[i] == Ground
    ensures CountGround(cells) == |cells|
    decreases |cells|
  {
    if cells != [] {
      CountAllGround(cells[1..]);
    }
  }

  /** After `vacuum_jungle` the grid is free everywhere, holds no food and no
      hole, the next draw repaints everything, and the snake's position and
      the score are untouched. */
  lemma VacuumClears(s: State)
    requires Valid(s)
    ensures var r := Vacuum(s);
      (forall i :: 0 <= i < Size ==> r.board.cells[i] == Ground) &&
      CountGround(r.board.cells) == Size &&
      !HasSpecialFood(r.board.cells) && !Has(r.board.cells, Hole) &&
      !r.board.partial && r.yfood < 0 && r.growth == 1 &&
      r.head == s.head && r.tail == s.tail && r.score == s.score && r.speed == s.speed
    ensures forall screen :: |screen| == Size ==> Covered(screen, Vacuum(s).board)
  {
    var cells := Vacuum(s).board.cells;
    CountAllGround(cells);
    AnyInIff(cells, Apple, LastSpecialFood);
    AnyInIff(cells, Hole, Hole);
  }

  /** A new round: after `vacuum_jungle` and `plant_snake` the snake is one
      head cell facing `d` with head and tail on it, every other cell is
      free, and one segment is pending. */
  lemma NewRound(s: State, p: Point, d: Direction)
    requires Valid(s) && InGrid(p)
    ensures var g := PlantSnake(Vacuum(s), p, d);
      g.head == p && g.tail == p && g.snakeDir == d && g.nextDir == d && g.growth == 1 &&
      g.yfood < 0 && g.board.cells[Index(p)] == HeadCode(d) &&
      (forall i :: 0 <= i < Size && i != Index(p) ==> g.board.cells[i] == Ground) &&
      CountGround(g.board.cells) == Size - 1
  {
    VacuumClears(s);
    var v := Vacuum(s);
    CountGroundAfterFill(v.board.cells, Index(p), HeadCode(d));
  }

  /** A new round starts with the head cell invariant, and with the pending
      segment that lets the head cell survive the first tail step. */
  lemma NewRoundShowsHead(s: State, p: Point, d: Direction)
    requires Valid(s) && InGrid(p)
    ensures var g := PlantSnake(Vacuum(s), p, d);
      HeadShown(g) && 0 < g.growth && IsHead(AfterTail(g).board.cells[Index(g.head)])
  {
    NewRound(s, p, d);
    var g := PlantSnake(Vacuum(s), p, d);
    HeadSurvivesTail(g);
  }

  /** The first tick of a new round grows the snake to two cells: the head
      moves on along `d`, the tail stays, the pending segment is used up, and
      the old head cell becomes a thin segment the tail will follow along
      `d`. */
  lemma FirstTick(s: State, p: Point, d: Direction, rand: Rand)
    requires Valid(s) && InGrid(p)
    ensures var (r, ok) := MoveSnake(PlantSnake(Vacuum(s), p, d), rand);
      ok && r.head == Move(p, d) && r.tail == p && r.growth == 0 &&
      r.board.cells[Index(p)] == Segment(Snake, Opposite(d), d) &&
      r.board.cells[Index(Move(p, d))] == HeadCode(d) &&
      TailDir(r.board.cells[Index(p)], d) == d
  {
    FirstTickGrowth(s, p, d, rand);
    FirstTickCells(s, p, d, rand);
  }

  /** The head of a new round enters a free cell, since it moves off its
      own. */
  lemma FirstTarget(s: State, p: Point, d: Direction)
    requires Valid(s) && InGrid(p)
    ensures var g := PlantSnake(Vacuum(s), p, d);
      Dir(g) == d && Target(g) == Ground && Index(Move(p, d)) != Index(p) &&
      AfterTail(g).board == g.board && AfterTail(g).tail == p && AfterTail(g).growth == 1
  {
    var g := PlantSnake(Vacuum(s), p, d);
    NewRound(s, p, d);
    MoveChangesOneCoordinate(p, d);
    if Index(Move(p, d)) == Index(p) {
      IndexInjective(Move(p, d), p);
    }
    AfterTailFacts(g);
  }

  lemma FirstTickGrowth(s: State, p: Point, d: Direction, rand: Rand)
    requires Valid(s) && InGrid(p)
    ensures var (r, ok) := MoveSnake(PlantSnake(Vacuum(s), p, d), rand);
      ok && r.growth == 0
  {
    var g := PlantSnake(Vacuum(s), p, d);
    FirstTarget(s, p, d);
    FoodEffects(g, rand);
  }

  lemma FirstTickCells(s: State, p: Point, d: Direction, rand: Rand)
    requires Valid(s) && InGrid(p)
    ensures var (r, ok) := MoveSnake(PlantSnake(Vacuum(s), p, d), rand);
      r.head == Move(p, d) && r.tail == p &&
      r.board.cells[Index(p)] == Segment(Snake, Opposite(d), d) &&
      r.board.cells[Index(Move(p, d))] == HeadCode(d) &&
      TailDir(r.board.cells[Index(p)], d) == d
  {
    var g := PlantSnake(Vacuum(s), p, d);
    NewRound(s, p, d);
    FirstTarget(s, p, d);
    FirstTickGrowth(s, p, d, rand);
    BodyEncoding(g, rand);
  }
}
