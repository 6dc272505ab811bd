/** The store's cell helpers: one step in a direction, wrap-around on the
    grid's edges, the bounds test and cell equality. */
module Geometry {
  import opened GameTypes

  /** The direction of exact reversal. */
  function Opposite(d: Direction): (r: Direction)
    ensures r != d
  {
    match d
    case Up => Down
    case Down => Up
    case Left => Right
    case Right => Left
  }

  /** Horizontal component of the unit step taken in direction `d`. */
  function StepX(d: Direction): int
  {
    match d
    case Left => -1
    case Right => 1
    case _ => 0
  }

  /** Vertical component of the unit step; y grows downwards. */
  function StepY(d: Direction): int
  {
    match d
    case Up => -1
    case Down => 1
    case _ => 0
  }

  /** The cell one step from `head` in direction `d`. */
  function NextPosition(head: Cell, d: Direction): (r: Cell)
    ensures r.x == head.x + StepX(d) && r.y == head.y + StepY(d)
    // exactly one coordinate moves, and by exactly one unit
    ensures (r.x == head.x) != (r.y == head.y)
    ensures -1 <= r.x - head.x <= 1 && -1 <= r.y - head.y <= 1
  {
    match d
    case Up => Cell(head.x, head.y - 1)
    case Down => Cell(head.x, head.y + 1)
    case Left => Cell(head.x - 1, head.y)
    case Right => Cell(head.x + 1, head.y)
  }

  /** Stepping back in the opposite direction undoes a step. */
  lemma NextPositionReversible(c: Cell, d: Direction)
    ensures NextPosition(NextPosition(c, d), Opposite(d)) == c
  {
  }

  /** Different directions lead to different cells. */
  lemma NextPositionInjective(c: Cell, d1: Direction, d2: Direction)
    ensures NextPosition(c, d1) == NextPosition(c, d2) <==> d1 == d2
  {
  }

  /** The remainder of JavaScript's `%` on integers: truncated division, so the
      result takes the sign of the dividend (unlike Dafny's Euclidean `%`). */
  function JsRem(a: int, n: int): (r: int)
    requires n > 0
    ensures a >= 0 ==> 0 <= r < n
    ensures a < 0 ==> -n < r <= 0
    // within one modulus of zero nothing is removed; further out, whole moduli are
    ensures -n < a < n ==> r == a
    ensures n <= a < 2 * n ==> r == a - n
    ensures 2 * n <= a < 3 * n ==> r == a - 2 * n
    ensures -2 * n < a <= -n ==> r == a + n
  {
    if a >= 0 then
      EuclideanRemNear(a, n);
      a % n
    else
      EuclideanRemNear(-a, n);
      -((-a) % n)
  }

  /** Dafny's `%` on a non-negative value below three moduli removes whole moduli. */
  lemma EuclideanRemNear(a: int, n: int)
    requires n > 0 && a >= 0
    ensures 0 <= a % n < n
    ensures a < n ==> a % n == a
    ensures n <= a < 2 * n ==> a % n == a - n
    ensures 2 * n <= a < 3 * n ==> a % n == a - 2 * n
  {
    if n <= a < 2 * n {
      assert (a - n) % n == a - n;
    } else if 2 * n <= a < 3 * n {
      assert (a - 2 * n) % n == a - 2 * n;
      assert (a - n) % n == a - 2 * n;
    }
  }

  predicate ValidGrid(g: Grid)
  {
    g.rows > 0 && g.cols > 0
  }

  predicate InGrid(c: Cell, g: Grid)
  {
    0 <= c.x < g.cols && 0 <= c.y < g.rows
  }

  /** Where one coordinate lands when it is wrapped onto [0, dim): values up to
      one dimension either side of the range are shifted by one dimension. */
  function Folded(v: int, dim: int): int
  {
    if v < 0 then v + dim else if v < dim then v else v - dim
  }

  /** The source's `wrapPosition`: each coordinate becomes `(v + dim) % dim`
      with JavaScript's truncating remainder. */
  function WrapPosition(p: Cell, g: Grid): (r: Cell)
    requires ValidGrid(g)
    // for inputs no further than one grid width below zero the result is on the grid
    ensures p.x >= -g.cols ==> 0 <= r.x < g.cols
    ensures p.y >= -g.rows ==> 0 <= r.y < g.rows
    // within one grid width either side, each coordinate is shifted onto the grid
    ensures -g.cols <= p.x < 2 * g.cols ==> r.x == Folded(p.x, g.cols)
    ensures -g.rows <= p.y < 2 * g.rows ==> r.y == Folded(p.y, g.rows)
    // cells on the grid are left alone
    ensures InGrid(p, g) ==> r == p
  {
    Cell(JsRem(p.x + g.cols, g.cols), JsRem(p.y + g.rows, g.rows))
  }

  /** One step off an edge re-enters on the opposite edge, same row or column. */
  lemma WrapEdges(g: Grid, x: int, y: int)
    requires ValidGrid(g)
    ensures 0 <= y < g.rows ==> WrapPosition(Cell(-1, y), g) == Cell(g.cols - 1, y)
    ensures 0 <= y < g.rows ==> WrapPosition(Cell(g.cols, y), g) == Cell(0, y)
    ensures 0 <= x < g.cols ==> WrapPosition(Cell(x, -1), g) == Cell(x, g.rows - 1)
    ensures 0 <= x < g.cols ==> WrapPosition(Cell(x, g.rows), g) == Cell(x, 0)
  {
  }

  /** Some cells more than one grid width below zero wrap off the grid: at
      `-cols - 1` the truncating remainder is `-1`. So the lower bound in
      `WrapPosition` is needed. */
  lemma WrapFarBelowStaysOff(g: Grid, y: int)
    requires ValidGrid(g) && g.cols > 1
    ensures WrapPosition(Cell(-g.cols - 1, y), g).x == -1
  {
  }

  /** Not every cell below that bound wraps off the grid: at a multiple of the
      width the remainder is zero (JavaScript's `-0`, which compares equal to 0),
      so `-2 * cols` lands on column 0. */
  lemma WrapAtDoubleWidthLandsOnGrid(g: Grid, y: int)
    requires ValidGrid(g)
    ensures WrapPosition(Cell(-2 * g.cols, y), g).x == 0
  {
  }

  /** A step from a cell on the grid, then wrapped, is on the grid. */
  lemma WrappedStepInGrid(c: Cell, d: Direction, g: Grid)
    requires ValidGrid(g) && InGrid(c, g)
    ensures InGrid(WrapPosition(NextPosition(c, d), g), g)
  {
  }

  function IsOutOfBounds(p: Cell, g: Grid): (r: bool)
    ensures r <==> !InGrid(p, g)
  {
    p.x < 0 || p.x >= g.cols || p.y < 0 || p.y >= g.rows
  }

  /** The source's `cellsEqual`: coordinate-wise comparison is datatype equality. */
  function CellsEqual(a: Cell, b: Cell): (r: bool)
    ensures r <==> a == b
  {
    a.x == b.x && a.y == b.y
  }

  /** `cells.some(c => cellsEqual(c, p))`, scanned front to back. */
  function Any(cells: seq<Cell>, p: Cell): (r: bool)
    ensures r <==> p in cells
    decreases |cells|
  {
    if |cells| == 0 then false
    else CellsEqual(cells[0], p) || Any(cells[1..], p)
  }
}
