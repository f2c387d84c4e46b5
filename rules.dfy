/** The tick of the game as functions of one explicit state: spawning, the
    mobile food and the snake's move. `rand()` is an oracle: its `n`-th call
    returns `rand(n)`, and the state counts the calls made so far. */
module Rules {
  import opened CTypes
  import opened Geometry
  import opened Cells
  import opened Jungle

  type Rand = nat -> nat

  /** The value of the `n`-th call of `rand()`. */
  function Draw(rand: Rand, n: nat): nat {
    rand(n)
  }

  /** `snake_growth` after entering a hole. */
  const InHole := -9999
  /** Ticks a timed mobile food stays. */
  const FoodLifetime := 30

  /** The globals of the simulation (everything but the rendering bookkeeping
      of the status line). A negative `yfood` means no mobile food is tracked. */
  datatype State = State(
    board: Board, draws: nat,
    snakeDir: Direction, nextDir: Direction, growth: int,
    score: int, speed: int, starBonus: int,
    head: Point, tail: Point,
    yfood: int, xfood: int, foodDir: Direction, foodTimeout: int)

  predicate Valid(s: State) {
    Ok(s.board) && InGrid(s.head) && InGrid(s.tail) &&
    -1 <= s.yfood < H && 0 <= s.xfood < W && 1 <= s.speed <= 9
  }

  /** Some cell holds a code in `lo..hi`, scanning from the front as the
      loops of `have` and `any_special_food` do. */
  predicate AnyIn(cells: seq<Cell>, lo: int, hi: int)
    decreases |cells|
  {
    |cells| > 0 && ((lo <= cells[0] <= hi) || AnyIn(cells[1..], lo, hi))
  }

  /** `have`: some cell holds `t`. */
  predicate Has(cells: seq<Cell>, t: Cell) {
    AnyIn(cells, t, t)
  }

  /** `any_special_food`: some cell holds Apple through Present. */
  predicate HasSpecialFood(cells: seq<Cell>) {
    AnyIn(cells, Apple, LastSpecialFood)
  }

  /** Foods other than apples: Snail through Present. */
  predicate HasFoodBesidesApples(cells: seq<Cell>) {
    AnyIn(cells, Snail, LastSpecialFood)
  }

  // ------------------------------------------------------------- spawning

  /** `plant_random`: count the Ground cells; with none, fail with -1 and draw
      nothing; otherwise plant `t` on the `(rand() % count)`-th one. */
  function PlantRandom(s: State, rand: Rand, t: Cell): (r: (State, int))
    requires Valid(s)
    ensures Valid(r.0)
  {
    var n := CountGround(s.board.cells);
    if n == 0 then (s, -1)
    else
      var pos: int := NthGround(s.board.cells, Draw(rand, s.draws) % n);
      (s.(draws := s.draws + 1, board := Plant(s.board, pos, t)), pos)
  }

  /** The kind of a new mobile food, from `rand() % 32`. */
  function MobileKind(q: int): (t: Cell)
    ensures t in {Snail, Beetle, Ant, Present}
  {
    if q < 10 then Snail else if q < 20 then Beetle else if q < 30 then Ant else Present
  }

  /** The kind of a new static food, from `rand() % 32`. */
  function StaticKind(q: int): (t: Cell)
    ensures t in {Egg, Snail, Beetle}
  {
    if q < 17 then Egg else if q < 30 then Snail else Beetle
  }

  /** `plant_food`: one weighted draw out of 1024 picks a hole (below 50, when
      none exists), a new mobile food (below 300, when none is tracked) or a
      static food. */
  function PlantFood(s: State, rand: Rand): (r: State)
    requires Valid(s)
    ensures Valid(r)
  {
    var p := Draw(rand, s.draws) % 1024;
    var s0 := s.(draws := s.draws + 1);
    if p < 50 && !Has(s.board.cells, Hole) then
      PlantRandom(s0, rand, Hole).0
    else if p < 300 && s.yfood < 0 then
      PlantMobile(s0, rand)
    else
      PlantRandom(s0.(draws := s0.draws + 1), rand, StaticKind(Draw(rand, s0.draws) % 32)).0
  }

  /** The mobile branch of `plant_food`: a draw picks the kind; when a cell
      is free the food is tracked there, with a drawn direction and, fifteen
      times in sixteen, a timeout of 30 ticks. */
  function PlantMobile(s: State, rand: Rand): (r: State)
    requires Valid(s)
    ensures Valid(r)
  {
    var t := MobileKind(Draw(rand, s.draws) % 32);
    var (s1, pos) := PlantRandom(s.(draws := s.draws + 1), rand, t);
    if pos < 0 then s1
    else
      var d := Draw(rand, s1.draws);
      var dir: Direction := if t == Snail then (if d % 2 != 0 then Left else Right) else d % 4;
      var life := Draw(rand, s1.draws + 1);
      s1.(yfood := pos / 5, xfood := pos % 5, foodDir := dir, draws := s1.draws + 2,
          foodTimeout := if life % 16 < 15 then FoodLifetime else s1.foodTimeout)
  }

  /** `plant_foodn`: `plant_food` repeated `n` times. */
  function PlantFoodN(s: State, rand: Rand, n: int): (r: State)
    requires Valid(s)
    ensures Valid(r)
    decreases n
  {
    if n <= 0 then s else PlantFoodN(PlantFood(s, rand), rand, n - 1)
  }

  /** `plant_foodn(n)` where `n` came from the `rand()` call just made. */
  function ExtraFoods(s: State, rand: Rand, n: int): (r: State)
    requires Valid(s)
    ensures Valid(r)
  {
    PlantFoodN(s.(draws := s.draws + 1), rand, n)
  }

  // ---------------------------------------------------------- mobile food

  /** What blocks the mobile food: anything but Ground and a head. */
  predicate BlocksFood(c: Cell) {
    c != Ground && !IsHead(c)
  }

  /** `move_food` with the expiry write guarded by the tracking test: the food
      expires when its timeout counts down to zero; an untracked food resets the
      timeout; otherwise the food reverses when the cell ahead blocks it and
      steps when the cell in its (possibly new) direction is Ground. */
  function MoveFood(s: State): (r: State)
    requires Valid(s)
    ensures Valid(r)
  {
    if 0 < s.foodTimeout && s.foodTimeout - 1 == 0 then
      var s1 := s.(foodTimeout := 0);
      if s.yfood < 0 then s1
      else s1.(board := Plant(s1.board, s.yfood * 5 + s.xfood, Ground))
    else
      var s1 := s.(foodTimeout := if 0 < s.foodTimeout then s.foodTimeout - 1 else s.foodTimeout);
      if s1.yfood < 0 then s1.(foodTimeout := 0) else FoodStep(s1)
  }

  /** The direction of a tracked food after the reverse-on-block rule: it
      stays on its axis. */
  function FoodDirection(s: State): (d: Direction)
    requires Valid(s) && 0 <= s.yfood
    ensures d == s.foodDir || d == Opposite(s.foodDir)
  {
    var food := Point(s.yfood, s.xfood);
    if BlocksFood(s.board.cells[Index(Move(food, s.foodDir))]) then Opposite(s.foodDir) else s.foodDir
  }

  /** The move of a tracked food: it reverses when the cell ahead blocks it,
      then steps when the cell in its (possibly new) direction is Ground. */
  function FoodStep(s: State): (r: State)
    requires Valid(s) && 0 <= s.yfood
    ensures Valid(r)
  {
    var food := Point(s.yfood, s.xfood);
    var dir := FoodDirection(s);
    var dest := Move(food, dir);
    if s.board.cells[Index(dest)] != Ground then s.(foodDir := dir)
    else
      var t := s.board.cells[Index(food)];
      var b := Plant(Plant(s.board, Index(food), Ground), Index(dest), t);
      s.(foodDir := dir, board := b, yfood := dest.y, xfood := dest.x)
  }

  /** The cell the expiry branch of `move_food` clears, as written: it takes
      `yfood * W + xfood` whether or not a food is still tracked. */
  function ExpiryCellAsWritten(s: State): (i: int)
    requires Valid(s)
    ensures 0 <= s.yfood ==> 0 <= i < Size
  {
    s.yfood * 5 + s.xfood
  }

  // ----------------------------------------------------------------- snake

  /** Direction resolution: a queued reversal is ignored. */
  function Resolve(current: Direction, queued: Direction): (d: Direction)
    ensures d != Opposite(current)
    ensures queued != Opposite(current) ==> d == queued
  {
    if queued != Opposite(current) then queued else current
  }

  /** The tail step, taken when `snake_growth <= 0`: a negative counter moves
      toward zero, the tail cell becomes Ground and the tail follows the
      direction its cell encodes. */
  function TailStep(s: State): (r: State)
    requires Valid(s)
    ensures Valid(r)
  {
    if s.growth <= 0 then
      var p := Index(s.tail);
      var d := TailDir(s.board.cells[p], s.snakeDir);
      s.(growth := if s.growth < 0 then s.growth + 1 else s.growth,
         board := Plant(s.board, p, Ground),
         tail := Move(s.tail, d))
    else s
  }

  /** The first part of eating an Apple: one more segment, `speed` points
      and a new Apple on a random Ground cell. */
  function AppleRespawn(s: State, rand: Rand): (r: (State, int))
    requires Valid(s)
    ensures Valid(r.0)
  {
    PlantRandom(s.(growth := s.growth + 1, score := s.score + s.speed), rand, Apple)
  }

  /** Eating an Apple: one more segment, `speed` points and a new Apple; with
      no free cell for it the Apple is handled as a Hole (the `goto again`).
      The extra spawns are guarded by `!any_special_food()`, which the Apple
      just planted always falsifies. */
  function EatApple(s: State, rand: Rand): (r: (State, Cell))
    requires Valid(s)
    ensures Valid(r.0)
  {
    var planted := AppleRespawn(s, rand);
    if planted.1 < 0 then (planted.0.(growth := InHole), Hole)
    else (AppleRestock(planted.0, rand), Apple)
  }

  /** The guard after the respawn, as written: `rand() % 4` more foods when
      `any_special_food()` finds no code from Apple to Present. */
  function AppleRestock(s: State, rand: Rand): (r: State)
    requires Valid(s)
    ensures Valid(r)
  {
    if !HasSpecialFood(s.board.cells) then ExtraFoods(s, rand, Draw(rand, s.draws) % 4) else s
  }

  /** Eating an Apple with the extra spawns guarded as evidently intended: up
      to three more foods when no food besides apples is left on the grid. */
  function EatAppleIntended(s: State, rand: Rand): (r: (State, Cell))
    requires Valid(s)
    ensures Valid(r.0)
  {
    var planted := AppleRespawn(s, rand);
    if planted.1 < 0 then (planted.0.(growth := InHole), Hole)
    else if !HasFoodBesidesApples(planted.0.board.cells) then
      (ExtraFoods(planted.0, rand, Draw(rand, planted.0.draws) % 4), Apple)
    else (planted.0, Apple)
  }

  /** The points a bug food is worth: `speed + rand() % speed^2`. */
  function BugBonus(s: State, rand: Rand): (p: int)
    requires Valid(s)
    ensures s.speed <= p < s.speed + s.speed * s.speed
  {
    s.speed + Draw(rand, s.draws) % (s.speed * s.speed)
  }

  /** The effect of the food the head enters, and the kind the rest of the
      step treats the cell as. */
  function Eat(s: State, kind: Cell, bug: bool, rand: Rand): (r: (State, Cell))
    requires Valid(s)
    ensures Valid(r.0)
  {
    if kind == Hole then (s.(growth := InHole), Hole)
    else if kind == Apple then EatApple(s, rand)
    else if kind == Snail || kind == Beetle || kind == Egg || kind == Ant then
      var bonus := BugBonus(s, rand);
      (s.(draws := s.draws + 1, score := s.score + (if bug then bonus * 2 else bonus),
          growth := s.growth + 1), kind)
    else if kind == Present then
      (ExtraFoods(s, rand, 2 + Draw(rand, s.draws) % 4), kind)
    else if kind == Star then
      (s.(starBonus := s.starBonus + 10), kind)
    else (s, kind)
  }

  /** The state in which the head meets its destination: counter decremented,
      head moved, tracked food forgotten when the head is on it. */
  function Entering(s: State): (r: State)
    requires Valid(s)
    ensures Valid(r)
  {
    var head := Move(s.head, s.snakeDir);
    var bug := Index(head) == s.yfood * 5 + s.xfood;
    s.(growth := if s.growth > 0 then s.growth - 1 else s.growth,
       head := head, yfood := if bug then -1 else s.yfood)
  }

  /** The head step, taken when `snake_growth >= 0` after the tail step. The
      result is false when the head ran into a wall or the snake. */
  function HeadStep(s: State, rand: Rand): (r: (State, bool))
    requires Valid(s)
    ensures Valid(r.0)
  {
    var prev := Index(s.head);
    var s1 := Entering(s);
    var pos := Index(s1.head);
    var kind := s1.board.cells[pos];
    if Collides(kind) then (s1.(board := Plant(s1.board, pos, Hit)), false)
    else
      var (s2, entered) := Eat(s1, kind, pos == s.yfood * 5 + s.xfood, rand);
      (Land(s2, prev, pos, entered), true)
  }

  /** The end of the head step, once the head has entered `pos` as `entered`:
      the head code there unless the snake fell into a hole, then the old head
      cell `prev` turned into a segment, or cleared when the tail is on `pos`. */
  function Land(s: State, prev: int, pos: int, entered: Cell): (r: State)
    requires Valid(s) && 0 <= prev < Size && 0 <= pos < Size
    ensures Valid(r)
  {
    var s3 := if entered != Hole then s.(board := Plant(s.board, pos, HeadCode(s.snakeDir))) else s;
    var into := if pos != Index(s3.tail)
      then BodyCode(if s3.growth <= 0 then Snake else FatSnake, s3.board.cells[prev], s.snakeDir)
      else Ground;
    s3.(board := Plant(s3.board, prev, into))
  }

  /** `move_snake`. */
  function MoveSnake(s: State, rand: Rand): (r: (State, bool))
    requires Valid(s)
    ensures Valid(r.0)
  {
    var dir := Resolve(s.snakeDir, s.nextDir);
    var s1 := TailStep(s.(snakeDir := dir, nextDir := dir));
    if 0 <= s1.growth then HeadStep(s1, rand) else (s1, true)
  }

  /** `move_world`: the food moves only after a tick without collision. */
  function MoveWorld(s: State, rand: Rand): (r: (State, bool))
    requires Valid(s)
    ensures Valid(r.0)
  {
    var (s1, ok) := MoveSnake(s, rand);
    if ok then (MoveFood(s1), true) else (s1, false)
  }
}
