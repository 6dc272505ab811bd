/** The entities of the snake game: lattice cells, directions, boundary modes,
    the grid and the one state record the store owns.

    The source's `GameConfig` record and the state's `config` field are left
    out: the store never populates or reads them. */
module GameTypes {

  /** A lattice point. Equality is structural, as in the source's `cellsEqual`. */
  datatype Cell = Cell(x: int, y: int)

  datatype Direction = Up | Down | Left | Right

  /** `WallsSolid`: leaving the grid ends the game; `Wrap`: the snake re-enters on the opposite edge. */
  datatype GameMode = WallsSolid | Wrap

  /** The coordinate space is [0, cols) x [0, rows). */
  datatype Grid = Grid(rows: int, cols: int)

  /** The store's state. `snake` is head first; `food` and `bombs` are lists,
      as in the source (they may in principle repeat a cell). */
  datatype GameState = GameState(
    grid: Grid,
    snake: seq<Cell>,
    direction: Direction,
    food: seq<Cell>,
    bombs: seq<Cell>,
    score: int,
    speedMs: int,
    running: bool,
    mode: GameMode,
    gameOver: bool)
}
