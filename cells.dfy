/** The `enum type` cell encoding of the jungle. */
module Cells {
  import opened CTypes
  import opened Geometry

  /** A jungle cell holds a C `char`. */
  type Cell = c: int | -128 <= c < 128

  const Ground: Cell := 0
  /** A head facing `d` is `Head + d`. */
  const Head: Cell := 1
  /** A thin body segment is `Snake + in * 4 + out`. */
  const Snake: Cell := Head + 4
  /** A fat (still digesting) segment is `FatSnake + in * 4 + out`. */
  const FatSnake: Cell := Snake + 4 * 4
  const Wall: Cell := FatSnake + 4 * 4
  const SnakeEnd: Cell := Wall
  const Hole: Cell := Wall + 1
  const Apple: Cell := Hole + 1
  const Snail: Cell := Apple + 1
  const Egg: Cell := Snail + 1
  const Star: Cell := Egg + 1
  const Ant: Cell := Star + 1
  const Beetle: Cell := Ant + 1
  const Present: Cell := Beetle + 1
  const FirstSpecialFood: Cell := Apple
  const LastSpecialFood: Cell := Present
  const Hit: Cell := Present + 1
  const Alphabet: Cell := Hit + 1

  lemma CodeValues()
    ensures Head == 1 && Snake == 5 && FatSnake == 21 && Wall == 37 && Hole == 38
    ensures Apple == 39 && Present == 45 && Hit == 46 && Alphabet == 47
  {
  }

  predicate IsHead(c: Cell) {
    Head <= c < Head + 4
  }

  function HeadCode(d: Direction): (c: Cell)
    ensures IsHead(c) && c - Head == d
  {
    Head + d
  }

  /** The segment code with the given base, entry side `dirIn` (the direction
      pointing back to the tail) and exit direction `dirOut` (toward the head). */
  function Segment(base: Cell, dirIn: Direction, dirOut: Direction): (c: Cell)
    requires base == Snake || base == FatSnake
    ensures base <= c < base + 16
    ensures (c - base) / 4 == dirIn && (c - Snake) % 4 == dirOut
  {
    base + dirIn * 4 + dirOut
  }

  /** A snake cell: a head or a thin or fat segment, `Head <= c < SnakeEnd`. */
  predicate IsSnake(c: Cell) {
    Head <= c < SnakeEnd
  }

  /** The test that ends a tick: the head runs into a wall or into the snake. */
  predicate Collides(c: Cell) {
    c == Wall || (Head <= c && c < SnakeEnd)
  }

  /** Foods counted by `any_special_food`: Apple through Present. */
  predicate IsSpecialFood(c: Cell) {
    FirstSpecialFood <= c <= LastSpecialFood
  }

  /** Everything the food spawner can place: Hole through Present. */
  predicate IsSpawnable(c: Cell) {
    Hole <= c <= Present
  }

  /** The direction the tail leaves its cell by. Codes below `Snake` (the
      head of a one-cell snake) leave along the snake's direction; every other
      code is read as a segment, through the unsigned enum, modulo 4. */
  function TailDir(c: Cell, snakeDir: Direction): (d: Direction)
    ensures Snake <= c < SnakeEnd ==> d == (c - Snake) % 4
    ensures IsHead(c) || c == Ground ==> d == snakeDir
  {
    if 0 <= c < Snake then snakeDir else (c - Snake) % 4
  }

  /** The code written into the old head cell: `base + opposite(prev - Head) * 4 + dir`
      computed on the unsigned enum and stored into a char. */
  function BodyCode(base: Cell, prev: Cell, dir: Direction): (c: Cell)
    requires base == Snake || base == FatSnake
    ensures IsHead(prev) ==> c == Segment(base, Opposite(prev - Head), dir)
  {
    Char(base + Xor2((prev - Head) % 0x1_0000_0000) * 4 + dir)
  }

  /** The segment written behind a head that had faced `d` points back along
      `opposite(d)` and forward along the new direction. */
  lemma BodyCodeDirections(base: Cell, d: Direction, dir: Direction)
    requires base == Snake || base == FatSnake
    ensures var c := BodyCode(base, HeadCode(d), dir);
      base <= c < base + 16 && IsSnake(c) && !IsHead(c) &&
      TailDir(c, d) == dir && (c - base) / 4 == Opposite(d)
  {
  }

  /** `plant_text`: a space is Ground, any other character `ch` is
      `Alphabet + (ch - 'A')`. */
  function Glyph(ch: char): (c: Cell)
    requires ch as int < 128
    ensures ch == ' ' ==> c == Ground
    ensures 'A' <= ch <= 'Z' ==> Alphabet <= c < Alphabet + 26
  {
    if ch == ' ' then Ground else Alphabet + (ch as int - 'A' as int)
  }

  /** Letters are told apart by their cells: the glyph gives the letter back. */
  lemma GlyphLetter(ch: char)
    requires 'A' <= ch <= 'Z'
    ensures (Glyph(ch) - Alphabet + 'A' as int) as char == ch
  {
  }
}
