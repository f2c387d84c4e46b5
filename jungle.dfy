/** The jungle array together with the damage list that drives incremental redraws. */
module Jungle {
  import opened Geometry
  import opened Cells

  const Size := 30  // H * W
  /** Capacity of `jungle_damage`. */
  const DamageCapacity := 20

  /** An index into the grid. */
  type Pos = i: int | 0 <= i < Size

  /** The grid cells, the `partially_damaged` flag and the recorded damage list
      `jungle_damage[0 .. num_damages)`. */
  datatype Board = Board(cells: seq<Cell>, partial: bool, damages: seq<Pos>)

  predicate Ok(b: Board) {
    |b.cells| == Size && |b.damages| <= DamageCapacity
  }

  /** `plant`: write `t` at `pos` and record `pos` while the damage list has room;
      once it is full, incremental drawing is given up until the next draw. */
  function Plant(b: Board, pos: int, t: Cell): (r: Board)
    requires Ok(b) && 0 <= pos < Size
    ensures Ok(r)
    ensures r.cells == b.cells[pos := t]
    ensures r.partial == (b.partial && |b.damages| < DamageCapacity)
    ensures r.damages == if r.partial then b.damages + [pos] else b.damages
  {
    var partial := b.partial && |b.damages| < DamageCapacity;
    Board(b.cells[pos := t], partial, if partial then b.damages + [pos] else b.damages)
  }

  /** Damage-list bound: a full list gets nothing more and switches to a full redraw. */
  lemma PlantOnFullList(b: Board, pos: int, t: Cell)
    requires Ok(b) && 0 <= pos < Size && |b.damages| == DamageCapacity
    ensures !Plant(b, pos, t).partial && Plant(b, pos, t).damages == b.damages
    ensures |Plant(b, pos, t).damages| <= DamageCapacity
  {
  }

  // ---------------------------------------------------------------- rendering

  /** The terminal shows `screen`; the damage list is sound for it when, in
      incremental mode, every cell that differs from the screen is recorded. */
  predicate Covered(screen: seq<Cell>, b: Board) {
    |screen| == |b.cells| &&
    (b.partial ==> forall i {:trigger Stale(screen, b.cells, i)} :: 0 <= i < |screen| && Stale(screen, b.cells, i) ==> i in b.damages)
  }

  /** Cell `i` of the terminal does not show the grid's cell. */
  predicate Stale(screen: seq<Cell>, cells: seq<Cell>, i: int) {
    0 <= i < |screen| && i < |cells| && screen[i] != cells[i]
  }

  /** Redrawing the recorded cells one after the other, as `draw_jungle` does. */
  function Repaint(screen: seq<Cell>, cells: seq<Cell>, damages: seq<Pos>): (r: seq<Cell>)
    requires |screen| == |cells| == Size
    ensures |r| == |screen|
    decreases |damages|
  {
    if damages == [] then screen
    else Repaint(screen[damages[0] := cells[damages[0]]], cells, damages[1..])
  }

  lemma {:induction false} RepaintAt(screen: seq<Cell>, cells: seq<Cell>, damages: seq<Pos>, i: int)
    requires |screen| == |cells| == Size
    requires 0 <= i < |screen|
    ensures Repaint(screen, cells, damages)[i] == if i in damages then cells[i] else screen[i]
    decreases |damages|
  {
    if damages != [] {
      var s' := screen[damages[0] := cells[damages[0]]];
      RepaintAt(s', cells, damages[1..], i);
      assert damages == [damages[0]] + damages[1..];
    }
  }

  /** The screen after `draw_jungle`: the damaged cells redrawn in incremental
      mode, the whole grid otherwise. */
  function Redraw(screen: seq<Cell>, b: Board): (r: seq<Cell>)
    requires Ok(b) && |screen| == Size
  {
    if b.partial then Repaint(screen, b.cells, b.damages) else b.cells
  }

  /** A sound damage list makes the incremental redraw show exactly the grid. */
  lemma RedrawShowsGrid(screen: seq<Cell>, b: Board)
    requires Ok(b) && Covered(screen, b)
    ensures Redraw(screen, b) == b.cells
  {
    if b.partial {
      forall i | 0 <= i < Size
        ensures Repaint(screen, b.cells, b.damages)[i] == b.cells[i]
      {
        RepaintAt(screen, b.cells, b.damages, i);
        assert Stale(screen, b.cells, i) ==> i in b.damages;
      }
    }
  }

  /** Every `plant` keeps the damage list sound. */
  lemma PlantKeepsCovered(screen: seq<Cell>, b: Board, pos: int, t: Cell)
    requires Ok(b) && 0 <= pos < Size && Covered(screen, b)
    ensures Covered(screen, Plant(b, pos, t))
  {
    var r := Plant(b, pos, t);
    if r.partial {
      forall i | Stale(screen, r.cells, i)
        ensures i in r.damages
      {
        if i != pos {
          assert Stale(screen, b.cells, i);
        }
      }
    }
  }

  // ------------------------------------------------------------- bulk writes

  /** Whether `p` is one of `start, start + stride, ..., start + (n-1) * stride`. */
  predicate OnRun(p: int, start: int, stride: int, n: int)
    requires stride > 0
  {
    start <= p && (p - start) % stride == 0 && (p - start) / stride < n
  }

  /** `plant_yxh` (stride 1) and `plant_yxv` (stride W): `n` plants of `t`. */
  function PlantRun(b: Board, start: int, stride: int, n: int, t: Cell): (r: Board)
    requires Ok(b) && (stride == 1 || stride == W)
    requires n <= 0 || (0 <= start && start + (n - 1) * stride < Size)
    ensures Ok(r)
    decreases n
  {
    if n <= 0 then b else PlantRun(Plant(b, start, t), start + stride, stride, n - 1, t)
  }

  lemma OnRunStep(p: int, start: int, stride: int, n: int)
    requires stride == 1 || stride == W
    requires n > 0
    ensures OnRun(p, start, stride, n) == (p == start || OnRun(p, start + stride, stride, n - 1))
  {
    if start + stride <= p {
      assert (p - start) % stride == (p - (start + stride)) % stride;
      assert (p - start) / stride == (p - (start + stride)) / stride + 1;
    }
  }

  lemma {:induction false} PlantRunCells(b: Board, start: int, stride: int, n: int, t: Cell)
    requires Ok(b) && (stride == 1 || stride == W)
    requires n <= 0 || (0 <= start && start + (n - 1) * stride < Size)
    ensures forall p :: 0 <= p < Size ==>
      PlantRun(b, start, stride, n, t).cells[p] == if OnRun(p, start, stride, n) then t else b.cells[p]
    decreases n
  {
    if n > 0 {
      var b' := Plant(b, start, t);
      PlantRunCells(b', start + stride, stride, n - 1, t);
      forall p | 0 <= p < Size
        ensures PlantRun(b, start, stride, n, t).cells[p] == if OnRun(p, start, stride, n) then t else b.cells[p]
      {
        OnRunStep(p, start, stride, n);
      }
    } else {
      forall p | 0 <= p < Size ensures !OnRun(p, start, stride, n) {
      }
    }
  }

  /** `plant_text`: one glyph per character, moving right and wrapping within the row. */
  function PlantText(b: Board, y: int, x: int, s: string): (r: Board)
    requires Ok(b) && InGrid(Point(y, x))
    requires forall i :: 0 <= i < |s| ==> s[i] as int < 128
    ensures Ok(r)
    decreases |s|
  {
    if s == [] then b
    else PlantText(Plant(b, y * 5 + x, Glyph(s[0])), y, Move(Point(y, x), Right).x, s[1..])
  }

  /** The text lands in row `y` from column `x` on, wrapping; a later character
      overwrites the one `W` columns back. */
  lemma {:induction false} PlantTextGlyphs(b: Board, y: int, x: int, s: string)
    requires Ok(b) && InGrid(Point(y, x))
    requires forall i :: 0 <= i < |s| ==> s[i] as int < 128
    ensures forall i :: 0 <= i < |s| && |s| - W <= i ==>
      PlantText(b, y, x, s).cells[y * 5 + (x + i) % 5] == Glyph(s[i])
    decreases |s|
  {
    if s != [] {
      var x' := Move(Point(y, x), Right).x;
      MoveChangesOneCoordinate(Point(y, x), Right);
      var b' := Plant(b, y * 5 + x, Glyph(s[0]));
      PlantTextGlyphs(b', y, x', s[1..]);
      if |s| <= W {
        PlantTextFirst(b, y, x, s);
      }
      forall i | 0 < i < |s| && |s| - W <= i
        ensures PlantText(b, y, x, s).cells[y * 5 + (x + i) % 5] == Glyph(s[i])
      {
        assert (x' + (i - 1)) % 5 == (x + i) % 5;
        assert s[1..][i - 1] == s[i];
      }
    }
  }

  /** The first character stays visible when the text fits in the row. */
  lemma PlantTextFirst(b: Board, y: int, x: int, s: string)
    requires Ok(b) && InGrid(Point(y, x))
    requires forall i :: 0 <= i < |s| ==> s[i] as int < 128
    requires 0 < |s| <= W
    ensures PlantText(b, y, x, s).cells[y * 5 + x] == Glyph(s[0])
  {
    var x' := Move(Point(y, x), Right).x;
    MoveChangesOneCoordinate(Point(y, x), Right);
    var b' := Plant(b, y * 5 + x, Glyph(s[0]));
    assert Gap(x', x) == W - 1;
    PlantTextKeeps(b', y, x', s[1..], x);
    assert PlantText(b, y, x, s) == PlantText(b', y, x', s[1..]);
  }

  /** How many steps right, wrapping, lead from column `x` to column `c`. */
  function Gap(x: int, c: int): (g: int)
    requires 0 <= x < W && 0 <= c < W
    ensures 0 <= g < W && (g == 0 <==> c == x)
  {
    if x <= c then c - x else c - x + W
  }

  /** `plant_text` writes only in row `y`. */
  lemma {:induction false} PlantTextRows(b: Board, y: int, x: int, s: string)
    requires Ok(b) && InGrid(Point(y, x))
    requires forall i :: 0 <= i < |s| ==> s[i] as int < 128
    ensures forall p :: 0 <= p < Size && p / 5 != y ==> PlantText(b, y, x, s).cells[p] == b.cells[p]
    decreases |s|
  {
    if s != [] {
      var x' := Move(Point(y, x), Right).x;
      var b' := Plant(b, y * 5 + x, Glyph(s[0]));
      assert (y * 5 + x) / 5 == y;
      PlantTextRows(b', y, x', s[1..]);
    }
  }

  /** A column of row `y` that the text does not reach keeps its cell. */
  lemma {:induction false} PlantTextKeeps(b: Board, y: int, x: int, s: string, c: int)
    requires Ok(b) && InGrid(Point(y, x)) && 0 <= c < W
    requires forall i :: 0 <= i < |s| ==> s[i] as int < 128
    requires Gap(x, c) >= |s|
    ensures PlantText(b, y, x, s).cells[y * 5 + c] == b.cells[y * 5 + c]
    decreases |s|
  {
    if s != [] {
      var x' := Move(Point(y, x), Right).x;
      MoveChangesOneCoordinate(Point(y, x), Right);
      var b' := Plant(b, y * 5 + x, Glyph(s[0]));
      assert Gap(x', c) == Gap(x, c) - 1;
      PlantTextKeeps(b', y, x', s[1..], c);
    }
  }

  /** Columns of row `y` that the text does not reach keep their cells. */
  lemma PlantTextColumns(b: Board, y: int, x: int, s: string)
    requires Ok(b) && InGrid(Point(y, x))
    requires forall i :: 0 <= i < |s| ==> s[i] as int < 128
    ensures forall c :: 0 <= c < W && Gap(x, c) >= |s| ==>
      PlantText(b, y, x, s).cells[y * 5 + c] == b.cells[y * 5 + c]
  {
    forall c | 0 <= c < W && Gap(x, c) >= |s|
      ensures PlantText(b, y, x, s).cells[y * 5 + c] == b.cells[y * 5 + c]
    {
      PlantTextKeeps(b, y, x, s, c);
    }
  }

  // ---------------------------------------------------------- ground cells

  function CountGround(s: seq<Cell>): (n: nat)
    ensures n <= |s|
  {
    if s == [] then 0 else (if s[0] == Ground then 1 else 0) + CountGround(s[1..])
  }

  lemma {:induction false} CountGroundSnoc(s: seq<Cell>, k: int)
    requires 0 <= k < |s|
    ensures CountGround(s[..k + 1]) == CountGround(s[..k]) + (if s[k] == Ground then 1 else 0)
    decreases k
  {
    if k > 0 {
      CountGroundSnoc(s[1..], k - 1);
      assert s[..k + 1][1..] == s[1..][..k];
      assert s[..k][1..] == s[1..][..k - 1];
    } else {
      assert s[..1][1..] == [];
    }
  }

  /** Index of the `n`-th Ground cell in index order, counting from 0. */
  function NthGround(s: seq<Cell>, n: nat): (k: nat)
    requires n < CountGround(s)
    ensures k < |s| && s[k] == Ground && CountGround(s[..k]) == n
    decreases |s|
  {
    if s[0] == Ground && n == 0 then 0
    else
      var k := 1 + NthGround(s[1..], if s[0] == Ground then n - 1 else n);
      assert s[..k][1..] == s[1..][..k - 1];
      k
  }

  /** Writing food over a Ground cell removes exactly one free cell. */
  lemma {:induction false} CountGroundAfterFill(s: seq<Cell>, k: int, t: Cell)
    requires 0 <= k < |s| && s[k] == Ground && t != Ground
    ensures CountGround(s[k := t]) == CountGround(s) - 1
    decreases k
  {
    if k > 0 {
      CountGroundAfterFill(s[1..], k - 1, t);
      assert s[k := t][1..] == s[1..][k - 1 := t];
    } else {
      assert s[k := t][1..] == s[1..];
    }
  }
}
