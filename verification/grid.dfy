/**
 * The board the snake lives on: pixel cells aligned to a fixed tile size,
 * the four headings, one-tile moves, and the placement of food.
 */
module Grid {

  /** Side of one tile, in pixels. */
  const Tile: int := 20

  /**
   * Pixel coordinates of a tile's top-left corner. They are real numbers:
   * the snake starts at half the canvas size, which is not whole when a
   * canvas dimension is odd.
   */
  datatype Cell = Cell(x: real, y: real)

  datatype Direction = Up | Down | Left | Right

  /**
   * The canvas, in pixels. No food can be placed on a canvas without
   * positive width and height, so every operation that places food
   * requires them implicitly through `ValidDraw`.
   */
  datatype Board = Board(width: int, height: int)

  predicate Horizontal(d: Direction) {
    d.Left? || d.Right?
  }

  /** The heading that would turn the snake back onto itself. */
  function Opposite(d: Direction): (r: Direction)
    ensures r != d
    ensures Horizontal(r) == Horizontal(d)
  {
    match d
    case Right => Left
    case Left => Right
    case Up => Down
    case Down => Up
  }

  function Abs(v: real): real {
    if v < 0.0 then -v else v
  }

  /**
   * The cell one tile away from `c` in heading `d`. The y axis grows
   * downwards, as on a canvas.
   */
  function Step(c: Cell, d: Direction): (r: Cell)
    ensures Horizontal(d) ==> r.y == c.y && Abs(r.x - c.x) == Tile as real
    ensures !Horizontal(d) ==> r.x == c.x && Abs(r.y - c.y) == Tile as real
    ensures d.Right? ==> r.x > c.x
    ensures d.Left? ==> r.x < c.x
    ensures d.Down? ==> r.y > c.y
    ensures d.Up? ==> r.y < c.y
  {
    match d
    case Right => c.(x := c.x + Tile as real)
    case Left => c.(x := c.x - Tile as real)
    case Up => c.(y := c.y - Tile as real)
    case Down => c.(y := c.y + Tile as real)
  }

  /** Stepping back in the opposite heading undoes a step. */
  lemma StepOpposite(c: Cell, d: Direction)
    ensures Step(Step(c, d), Opposite(d)) == c
  {
  }

  /** Different headings lead to different cells. */
  lemma StepInjective(c: Cell, d1: Direction, d2: Direction)
    ensures Step(c, d1) == Step(c, d2) <==> d1 == d2
  {
  }

  /** The cell lies on the canvas, `[0, width) x [0, height)`. */
  predicate Inside(c: Cell, b: Board) {
    && 0.0 <= c.x < b.width as real
    && 0.0 <= c.y < b.height as real
  }

  /** A coordinate is a whole multiple of the tile size. */
  predicate Aligned(v: real) {
    v == ((v / Tile as real).Floor * Tile) as real
  }

  predicate AlignedCell(c: Cell) {
    Aligned(c.x) && Aligned(c.y)
  }

  lemma AlignedMultiple(k: int)
    ensures Aligned((k * Tile) as real)
  {
    var v := (k * Tile) as real;
    assert v / Tile as real == k as real;
  }

  lemma NotAlignedFloor(v: real)
    requires !Aligned(v)
    ensures !Aligned(v + Tile as real) && !Aligned(v - Tile as real)
  {
    var q := v / Tile as real;
    assert (v + Tile as real) / Tile as real == q + 1.0;
    assert (v - Tile as real) / Tile as real == q - 1.0;
    assert (q + 1.0).Floor == q.Floor + 1;
    assert (q - 1.0).Floor == q.Floor - 1;
  }

  /**
   * A one-tile step keeps a cell on the tile lattice, and keeps a cell that
   * is off the lattice off it.
   */
  lemma StepKeepsAlignment(c: Cell, d: Direction)
    ensures AlignedCell(Step(c, d)) <==> AlignedCell(c)
  {
    var r := Step(c, d);
    if AlignedCell(c) {
      var kx := (c.x / Tile as real).Floor;
      var ky := (c.y / Tile as real).Floor;
      assert r.x == ((kx + (if d.Right? then 1 else if d.Left? then -1 else 0)) * Tile) as real;
      assert r.y == ((ky + (if d.Down? then 1 else if d.Up? then -1 else 0)) * Tile) as real;
      AlignedMultiple(kx + (if d.Right? then 1 else if d.Left? then -1 else 0));
      AlignedMultiple(ky + (if d.Down? then 1 else if d.Up? then -1 else 0));
    } else if !Aligned(c.x) {
      NotAlignedFloor(c.x);
    } else {
      NotAlignedFloor(c.y);
    }
  }

  /**
   * The two indices the food placement draws at random: a column and a row,
   * each the floor of a uniform number in [0, 1) times the number of tiles
   * that fit across the canvas, which ranges exactly over the indices whose
   * pixel offset is still on the canvas.
   */
  datatype FoodDraw = FoodDraw(col: int, row: int)

  predicate ValidDraw(g: FoodDraw, b: Board) {
    && 0 <= g.col && g.col * Tile < b.width
    && 0 <= g.row && g.row * Tile < b.height
  }

  /** Food placement: a tile-aligned cell on the canvas. */
  function FoodCell(g: FoodDraw, b: Board): (r: Cell)
    requires ValidDraw(g, b)
    ensures Inside(r, b)
    ensures AlignedCell(r)
    ensures r.x / Tile as real == g.col as real && r.y / Tile as real == g.row as real
  {
    AlignedMultiple(g.col);
    AlignedMultiple(g.row);
    Cell((g.col * Tile) as real, (g.row * Tile) as real)
  }

  /** Every aligned cell on the canvas is the food placement of some draw. */
  lemma FoodCellCovers(c: Cell, b: Board)
    requires Inside(c, b) && AlignedCell(c)
    ensures exists g :: ValidDraw(g, b) && FoodCell(g, b) == c
  {
    var g := FoodDraw((c.x / Tile as real).Floor, (c.y / Tile as real).Floor);
    assert ValidDraw(g, b);
    assert FoodCell(g, b) == c;
  }
}
