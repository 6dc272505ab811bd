/** The game store: its initial state, its mutators and the per-step `tick`
    transition, each a pure function from the current state to the next.

    The reactive container around the state (creating the store, `set`, `get`)
    is replaced by passing the state in and returning the new one. */
module GameStore {
  import opened GameTypes
  import opened Geometry
  import opened Placement

  /** Points awarded per food eaten. */
  const FoodScore := 10

  /** The store's starting state: a 20 x 20 board, a three-segment snake heading
      right, one food cell, two bombs, paused, solid walls, 200 ms per tick. */
  function InitialState(): (r: GameState)
    ensures ValidGrid(r.grid) && |r.snake| == 3
    ensures r.direction == Right && NextPosition(r.snake[1], Right) == r.snake[0]
    ensures r.score == 0 && r.speedMs == 200 && r.mode == WallsSolid
    ensures !r.running && !r.gameOver
    ensures |r.food| == 1 && r.food[0] !in r.snake && r.food[0] !in r.bombs
    ensures forall b :: b in r.bombs ==> b !in r.snake
  {
    GameState(
      grid := Grid(20, 20),
      snake := [Cell(10, 10), Cell(9, 10), Cell(8, 10)],
      direction := Right,
      food := [Cell(15, 15)],
      bombs := [Cell(5, 5), Cell(12, 8)],
      score := 0,
      speedMs := 200,
      running := false,
      mode := WallsSolid,
      gameOver := false)
  }

  function SetMode(s: GameState, mode: GameMode): (r: GameState)
    ensures r.mode == mode && r.(mode := s.mode) == s
  {
    s.(mode := mode)
  }

  function SetSpeed(s: GameState, speedMs: int): (r: GameState)
    ensures r.speedMs == speedMs && r.(speedMs := s.speedMs) == s
  {
    s.(speedMs := speedMs)
  }

  /** Only the grid changes: the snake, food and bombs are kept as they are,
      even where they now lie off the grid. */
  function SetGridSize(s: GameState, rows: int, cols: int): (r: GameState)
    ensures r.grid == Grid(rows, cols) && r.(grid := s.grid) == s
  {
    s.(grid := Grid(rows, cols))
  }

  /** True when turning to `d` would put the head onto the second segment. */
  predicate TurnsIntoNeck(s: GameState, d: Direction)
  {
    |s.snake| > 1 && NextPosition(s.snake[0], d) == s.snake[1]
  }

  /** The store's guarded turn: ignored when the unwrapped step in direction `d`
      lands on the second segment, otherwise `direction` becomes `d`. */
  function SetDirection(s: GameState, d: Direction): (r: GameState)
    ensures r == s || r == s.(direction := d)
    ensures r.direction == d <==> (d == s.direction || !TurnsIntoNeck(s, d))
  {
    if |s.snake| > 1 && CellsEqual(NextPosition(s.snake[0], d), s.snake[1]) then s
    else s.(direction := d)
  }

  function TogglePause(s: GameState): (r: GameState)
    ensures r.running != s.running && r.(running := s.running) == s
  {
    s.(running := !s.running)
  }

  function SetGameOver(s: GameState, value: bool): (r: GameState)
    ensures r.gameOver == value && r.(gameOver := s.gameOver) == s
  {
    s.(gameOver := value)
  }

  /** Restores the initial state whatever the current one, mode and speed included. */
  function ResetGame(s: GameState): (r: GameState)
    ensures r == InitialState()
    ensures r.mode == WallsSolid && r.speedMs == 200 && !r.gameOver && !r.running
  {
    InitialState()
  }

  /** A tick does anything only while the game runs and is not over. */
  predicate Live(s: GameState)
  {
    s.running && !s.gameOver
  }

  /** What `tick` needs to be defined: a head to move from, and a grid to wrap
      around in `Wrap` mode (JavaScript's `% 0` yields NaN, which an integer cell
      cannot hold). */
  predicate CanTick(s: GameState)
  {
    Live(s) ==> |s.snake| > 0 && (s.mode == Wrap ==> ValidGrid(s.grid))
  }

  /** The cell one step ahead of the head, before any wrapping. */
  function Ahead(s: GameState): Cell
    requires |s.snake| > 0
  {
    NextPosition(s.snake[0], s.direction)
  }

  /** The cell the head moves to: wrapped in `Wrap` mode, as is otherwise. */
  function Target(s: GameState): Cell
    requires |s.snake| > 0 && (s.mode == Wrap ==> ValidGrid(s.grid))
  {
    if s.mode == Wrap then WrapPosition(Ahead(s), s.grid) else Ahead(s)
  }

  /** The step ends the game: off the grid with solid walls, or onto any current
      segment (the tail included) or onto a bomb. */
  predicate Crashes(s: GameState)
    requires |s.snake| > 0 && (s.mode == Wrap ==> ValidGrid(s.grid))
  {
    || (s.mode == WallsSolid && !InGrid(Ahead(s), s.grid))
    || Target(s) in s.snake
    || Target(s) in s.bombs
  }

  /** The avoid list for the replacement food after a growth step. */
  function GrowthAvoid(s: GameState): seq<Cell>
    requires |s.snake| > 0 && (s.mode == Wrap ==> ValidGrid(s.grid))
  {
    [Target(s)] + s.snake + s.bombs
  }

  /** One step of the game. Checks run in the order wall, self, bomb, food; a
      collision only stops the game. On food the snake keeps its tail, scores
      `FoodScore`, and the whole food list is replaced by one placed cell. */
  function Tick(s: GameState, draws: seq<Draw>): (r: GameState)
    requires CanTick(s)
    requires MaxAttempts <= |draws|
    // a paused or finished game does not move
    ensures !Live(s) ==> r == s
    // nothing a tick does touches these
    ensures r.grid == s.grid && r.mode == s.mode && r.direction == s.direction
    ensures r.bombs == s.bombs && r.speedMs == s.speedMs
    // a collision changes the two flags and nothing else
    ensures Live(s) && Crashes(s) ==> r == s.(running := false, gameOver := true)
    // otherwise the head advances and the rest of the snake follows
    ensures Live(s) && !Crashes(s) ==>
              && Live(r) && |r.snake| > 0 && r.snake[0] == Target(s)
              && r.snake[0] !in s.snake && r.snake[0] !in s.bombs
    ensures Live(s) && !Crashes(s) && Target(s) in s.food ==>
              && |r.snake| == |s.snake| + 1 && r.snake[1..] == s.snake
              && r.score == s.score + FoodScore
              && |r.food| == 1
              && r.food[0] == RandomPosition(s.grid, GrowthAvoid(s), draws)
    ensures Live(s) && !Crashes(s) && Target(s) !in s.food ==>
              && |r.snake| == |s.snake| && r.snake[1..] == s.snake[..|s.snake| - 1]
              && r.score == s.score && r.food == s.food
  {
    if !s.running || s.gameOver then s
    else
      var next := NextPosition(s.snake[0], s.direction);
      if s.mode != Wrap && IsOutOfBounds(next, s.grid) then
        s.(running := false, gameOver := true)
      else
        var nextHead := if s.mode == Wrap then WrapPosition(next, s.grid) else next;
        if Any(s.snake, nextHead) then
          s.(running := false, gameOver := true)
        else if Any(s.bombs, nextHead) then
          s.(running := false, gameOver := true)
        else if Any(s.food, nextHead) then
          var newSnake := [nextHead] + s.snake;
          s.(snake := newSnake,
             score := s.score + FoodScore,
             food := [RandomPosition(s.grid, newSnake + s.bombs, draws)])
        else
          s.(snake := [nextHead] + s.snake[..|s.snake| - 1])
  }
}
