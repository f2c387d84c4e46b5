/** Directions and toroidal stepping on the fixed H x W jungle. */
module Geometry {
  import opened CTypes

  /** Grid width and height (the `W`, `H` enumerators). Index arithmetic
      below writes them as the literals 5 and 6 so that it stays linear. */
  const W := 5
  const H := 6

  /** `enum direction`: UP, RIGHT, DOWN, LEFT in clockwise order. */
  type Direction = d: int | 0 <= d < 4
  const Up: Direction := 0
  const Right: Direction := 1
  const Down: Direction := 2
  const Left: Direction := 3

  /** A (row, column) pair, as the source keeps them in separate `y`, `x` ints. */
  datatype Point = Point(y: int, x: int)

  predicate InGrid(p: Point) {
    0 <= p.y < H && 0 <= p.x < W
  }

  /** Row-major cell index `y * W + x`. */
  function Index(p: Point): (i: int)
    ensures InGrid(p) ==> 0 <= i < 30
  {
    p.y * 5 + p.x
  }

  /** The cell with index `i`: row `i / W`, column `i % W`. */
  function PointAt(i: int): (p: Point)
    requires 0 <= i < 30
    ensures InGrid(p) && Index(p) == i
  {
    Point(i / 5, i % 5)
  }

  /** Distinct grid points have distinct indices. */
  lemma IndexInjective(p: Point, q: Point)
    requires InGrid(p) && InGrid(q) && Index(p) == Index(q)
    ensures p == q
  {
  }

  /** `opposite`: the direction enum XOR 2. */
  function Opposite(d: Direction): (r: Direction)
    ensures r == (d + 2) % 4
  {
    Xor2(d)
  }

  /** `Xor2` is the bitwise `^ 2` on the enum's values. */
  lemma OppositeIsBitwiseXor(d: Direction)
    ensures Opposite(d) == ((d as bv8) ^ 2) as int
  {
  }

  /** `turn_left`: `(d - 1) % 4` on the unsigned enum, i.e. `(d + 3) % 4`. */
  function TurnLeft(d: Direction): (r: Direction)
    ensures r != d && r != Opposite(d)
  {
    (d + 3) % 4
  }

  /** `turn_right`: `(d + 1) % 4`. */
  function TurnRight(d: Direction): (r: Direction)
    ensures r != d && r != Opposite(d)
  {
    (d + 1) % 4
  }

  lemma OppositeInvolution(d: Direction)
    ensures Opposite(Opposite(d)) == d
    ensures Opposite(d) != d
  {
  }

  lemma TurnsAreInverse(d: Direction)
    ensures TurnLeft(TurnRight(d)) == d && TurnRight(TurnLeft(d)) == d
    ensures TurnLeft(TurnLeft(d)) == Opposite(d)
  {
  }

  /** The row and column offsets of `move`: H-1 (one row up, modulo H) for
      UP, 1 for DOWN; W-1 (one column left, modulo W) for LEFT, 1 for RIGHT. */
  function RowStep(d: Direction): int {
    if d == Up then H - 1 else if d == Down then 1 else 0
  }

  function ColumnStep(d: Direction): int {
    if d == Left then W - 1 else if d == Right then 1 else 0
  }

  /** `move` packs those offsets one byte per direction into an int and
      selects one by shifting and truncating to a `char`. */
  const RowOffsets: bv32 := (((H - 1) as bv32) << (Up * 8)) | ((1 as bv32) << (Down * 8))
  const ColumnOffsets: bv32 := (((W - 1) as bv32) << (Left * 8)) | ((1 as bv32) << (Right * 8))

  /** `(char)(packed >> (d * 8))`: the byte of direction `d`. */
  function Offset(packed: bv32, d: Direction): int {
    Char((packed >> (d * 8)) as int)
  }

  /** The packed constants decode to the offsets of each direction. */
  lemma OffsetTable(d: Direction)
    ensures Offset(RowOffsets, d) == RowStep(d)
    ensures Offset(ColumnOffsets, d) == ColumnStep(d)
  {
  }

  /** `move`: one step in direction `d`, wrapping around the edges. */
  function Move(p: Point, d: Direction): (r: Point)
    requires 0 <= p.y && 0 <= p.x
    ensures InGrid(r)
  {
    Point((p.y + RowStep(d)) % 6, (p.x + ColumnStep(d)) % 5)
  }

  /** The step as `move` computes it, from the packed offsets. */
  lemma MoveUsesPackedOffsets(p: Point, d: Direction)
    requires 0 <= p.y && 0 <= p.x
    ensures Move(p, d) == Point((p.y + Offset(RowOffsets, d)) % 6, (p.x + Offset(ColumnOffsets, d)) % 5)
  {
    OffsetTable(d);
  }

  /** Moving changes exactly one coordinate, and by one cell on the torus. */
  lemma MoveChangesOneCoordinate(p: Point, d: Direction)
    requires InGrid(p)
    ensures var r := Move(p, d);
      (d == Up || d == Down ==> r.x == p.x && r.y != p.y) &&
      (d == Left || d == Right ==> r.y == p.y && r.x != p.x)
    ensures d == Up ==> Move(p, d).y == if p.y == 0 then H - 1 else p.y - 1
    ensures d == Down ==> Move(p, d).y == if p.y == H - 1 then 0 else p.y + 1
    ensures d == Left ==> Move(p, d).x == if p.x == 0 then W - 1 else p.x - 1
    ensures d == Right ==> Move(p, d).x == if p.x == W - 1 then 0 else p.x + 1
  {
  }

  /** Toroidal closure: stepping back the opposite way returns to the start. */
  lemma MoveRoundTrip(p: Point, d: Direction)
    requires InGrid(p)
    ensures Move(Move(p, d), Opposite(d)) == p
  {
    MoveChangesOneCoordinate(p, d);
    MoveChangesOneCoordinate(Move(p, d), Opposite(d));
  }
}
