/** Properties of the store across operations: the board invariant a step
    keeps, the score/length bookkeeping every operation keeps, placement of the
    replacement food, and worked scenarios. */
module StoreInvariants {
  import opened GameTypes
  import opened Geometry
  import opened Placement
  import opened GameStore

  predicate Distinct(cells: seq<Cell>)
  {
    forall i, j :: 0 <= i < j < |cells| ==> cells[i] != cells[j]
  }

  predicate AllInGrid(cells: seq<Cell>, g: Grid)
  {
    forall c :: c in cells ==> InGrid(c, g)
  }

  /** The board is consistent: a snake of distinct segments, everything on the
      grid, and no bomb under the snake. */
  predicate WellFormed(s: GameState)
  {
    && ValidGrid(s.grid)
    && |s.snake| > 0
    && Distinct(s.snake)
    && AllInGrid(s.snake, s.grid)
    && AllInGrid(s.food, s.grid)
    && AllInGrid(s.bombs, s.grid)
    && (forall b :: b in s.bombs ==> b !in s.snake)
  }

  /** Length of the snake in the initial state. */
  const InitialLength := 3

  /** Each point of score is matched by growth: ten points per segment beyond
      the initial three. */
  predicate ScoreTracksLength(s: GameState)
  {
    |s.snake| >= InitialLength && s.score == FoodScore * (|s.snake| - InitialLength)
  }

  lemma InitialWellFormed()
    ensures WellFormed(InitialState()) && ScoreTracksLength(InitialState())
  {
  }

  lemma PrependDistinct(c: Cell, cells: seq<Cell>)
    requires Distinct(cells) && c !in cells
    ensures Distinct([c] + cells)
  {
  }

  /** The head's destination after a step that does not crash is on the grid. */
  lemma TargetInGrid(s: GameState)
    requires WellFormed(s) && !Crashes(s)
    ensures InGrid(Target(s), s.grid)
  {
    assert InGrid(s.snake[0], s.grid);
    if s.mode == Wrap {
      WrappedStepInGrid(s.snake[0], s.direction, s.grid);
    }
  }

  /** A growth step keeps the board consistent: the new head is on the grid and
      off the snake, and the replacement food is on the grid. */
  lemma GrowthPreservesWellFormed(s: GameState, draws: seq<Draw>)
    requires WellFormed(s) && MaxAttempts <= |draws| && UnitDraws(draws)
    requires Live(s) && !Crashes(s) && Target(s) in s.food
    ensures WellFormed(Tick(s, draws))
  {
  }

  /** A plain move keeps the board consistent: the new head is on the grid and
      off every segment, including the one the tail leaves. */
  lemma MovePreservesWellFormed(s: GameState, draws: seq<Draw>)
    requires WellFormed(s) && MaxAttempts <= |draws|
    requires Live(s) && !Crashes(s) && Target(s) !in s.food
    ensures WellFormed(Tick(s, draws))
  {
    var body := s.snake[..|s.snake| - 1];
    TargetInGrid(s);
    assert Distinct(body) && Target(s) !in body;
    PrependDistinct(Target(s), body);
    assert Tick(s, draws).snake == [Target(s)] + body;
  }

  /** A step keeps the board consistent: the collision check against the whole
      snake keeps segments distinct, and walls or wrapping keep the head on the
      grid. */
  lemma TickPreservesWellFormed(s: GameState, draws: seq<Draw>)
    requires WellFormed(s) && MaxAttempts <= |draws| && UnitDraws(draws)
    ensures WellFormed(Tick(s, draws))
  {
    if Live(s) && !Crashes(s) {
      if Target(s) in s.food {
        GrowthPreservesWellFormed(s, draws);
      } else {
        MovePreservesWellFormed(s, draws);
      }
    }
  }

  /** The replacement food after a growth step lies off the new snake and off
      every bomb whenever any of the attempts could find such a cell, and it is
      on the grid. */
  lemma GrowthFoodPlacement(s: GameState, draws: seq<Draw>)
    requires WellFormed(s) && MaxAttempts <= |draws| && UnitDraws(draws)
    requires Live(s) && !Crashes(s) && Target(s) in s.food
    ensures var r := Tick(s, draws);
      && |r.food| == 1 && InGrid(r.food[0], r.grid)
      && ((exists k :: 0 <= k < MaxAttempts && Candidate(s.grid, draws, k) !in r.snake + r.bombs)
          ==> r.food[0] !in r.snake && r.food[0] !in r.bombs)
  {
    var r := Tick(s, draws);
    RandomPositionInGrid(s.grid, GrowthAvoid(s), draws);
    assert GrowthAvoid(s) == r.snake + r.bombs;
  }

  /** In `Wrap` mode the edges never end the game: a step ends it only by
      landing on the snake or on a bomb. */
  lemma WrapEndsOnlyOnCollision(s: GameState, draws: seq<Draw>)
    requires WellFormed(s) && s.mode == Wrap && Live(s) && MaxAttempts <= |draws|
    ensures Tick(s, draws).gameOver <==> Target(s) in s.snake || Target(s) in s.bombs
    ensures !Tick(s, draws).gameOver ==> InGrid(Tick(s, draws).snake[0], s.grid)
  {
    WrappedStepInGrid(s.snake[0], s.direction, s.grid);
  }

  /** With solid walls a step off the grid ends the game and leaves the snake,
      food, bombs and score as they were. */
  lemma WallStopsSnake(s: GameState, draws: seq<Draw>)
    requires |s.snake| > 0 && s.mode == WallsSolid && Live(s) && MaxAttempts <= |draws|
    requires !InGrid(Ahead(s), s.grid)
    ensures var r := Tick(s, draws);
      && r.gameOver && !r.running
      && r.snake == s.snake && r.food == s.food && r.bombs == s.bombs && r.score == s.score
  {
  }

  /** Changing the grid keeps a consistent board consistent exactly when the new
      grid is non-empty and still holds every snake segment, food and bomb. */
  lemma SetGridSizeWellFormedIff(s: GameState, rows: int, cols: int)
    requires WellFormed(s)
    ensures var g := Grid(rows, cols);
      WellFormed(SetGridSize(s, rows, cols)) <==>
        ValidGrid(g) && AllInGrid(s.snake, g) && AllInGrid(s.food, g) && AllInGrid(s.bombs, g)
  {
  }

  /** Shrinking the initial board to 10 x 10 leaves the snake off the grid, and
      the next step with solid walls ends the game at once. */
  lemma ShrinkThenTickEndsGame(draws: seq<Draw>)
    requires MaxAttempts <= |draws|
    ensures !WellFormed(SetGridSize(InitialState(), 10, 10))
    ensures Tick(TogglePause(SetGridSize(InitialState(), 10, 10)), draws).gameOver
  {
    var s := SetGridSize(InitialState(), 10, 10);
    assert s.snake[0] == Cell(10, 10) && !InGrid(s.snake[0], s.grid);
  }

  lemma MutatorsPreserveWellFormed(s: GameState, d: Direction, m: GameMode, ms: int, v: bool)
    requires WellFormed(s)
    ensures WellFormed(SetDirection(s, d)) && WellFormed(TogglePause(s))
    ensures WellFormed(SetMode(s, m)) && WellFormed(SetSpeed(s, ms))
    ensures WellFormed(SetGameOver(s, v)) && WellFormed(ResetGame(s))
  {
  }

  /** Applying `TogglePause` twice restores the state. */
  lemma TogglePauseTwice(s: GameState)
    ensures TogglePause(TogglePause(s)) == s
  {
  }

  /** A finished game is frozen until it is reset or the flag is cleared. */
  lemma GameOverFreezesTick(s: GameState, draws: seq<Draw>)
    requires MaxAttempts <= |draws|
    ensures Tick(SetGameOver(s, true), draws) == SetGameOver(s, true)
  {
  }

  /** The operations of the store, as an input to `Step`. */
  datatype Action =
    | DoTick(draws: seq<Draw>)
    | DoSetDirection(d: Direction)
    | DoTogglePause
    | DoResetGame
    | DoSetGridSize(rows: int, cols: int)
    | DoSetMode(mode: GameMode)
    | DoSetSpeed(speedMs: int)
    | DoSetGameOver(value: bool)

  /** An action `Step` can apply: ticks come with a full supply of draws, and
      grid sizes are positive, since an integer cell cannot hold the NaN that
      wrapping on an empty grid produces. */
  predicate Admissible(a: Action)
  {
    match a
    case DoTick(draws) => MaxAttempts <= |draws|
    case DoSetGridSize(rows, cols) => rows > 0 && cols > 0
    case _ => true
  }

  /** The bookkeeping `Step` keeps: a positive grid, and ten points of score
      for every segment grown beyond the initial three. */
  predicate Bookkept(s: GameState)
  {
    ValidGrid(s.grid) && ScoreTracksLength(s)
  }

  function Step(s: GameState, a: Action): (r: GameState)
    requires Bookkept(s) && Admissible(a)
    ensures Bookkept(r)
    // only a tick changes the score, and only upwards, by one portion of food
    ensures !a.DoTick? && !a.DoResetGame? ==> r.score == s.score
    ensures a.DoTick? ==> r.score == s.score || r.score == s.score + FoodScore
  {
    match a
    case DoTick(draws) => Tick(s, draws)
    case DoSetDirection(d) => SetDirection(s, d)
    case DoTogglePause => TogglePause(s)
    case DoResetGame => ResetGame(s)
    case DoSetGridSize(rows, cols) => SetGridSize(s, rows, cols)
    case DoSetMode(mode) => SetMode(s, mode)
    case DoSetSpeed(speedMs) => SetSpeed(s, speedMs)
    case DoSetGameOver(value) => SetGameOver(s, value)
  }

  /** Runs a sequence of actions; every state on the way keeps the bookkeeping,
      so the snake is never empty and the score is never negative. */
  function Run(s: GameState, actions: seq<Action>): (r: GameState)
    requires Bookkept(s)
    requires forall i :: 0 <= i < |actions| ==> Admissible(actions[i])
    ensures Bookkept(r)
    ensures |r.snake| >= InitialLength && r.score >= 0 && r.score % FoodScore == 0
    decreases |actions|
  {
    if |actions| == 0 then s
    else Run(Step(s, actions[0]), actions[1..])
  }

  // Worked scenarios

  /** Draws whose first candidate is the corner cell (0, 0). */
  function CornerDraws(): (draws: seq<Draw>)
    ensures |draws| == MaxAttempts && UnitDraws(draws)
  {
    seq(MaxAttempts, _ => Draw(0.0, 0.0))
  }

  /** Eating the food straight ahead: the snake grows by the food cell, the score
      rises by ten and the food list is the one newly placed cell. */
  lemma GrowthScenario()
    ensures var s := InitialState().(food := [Cell(11, 10)], running := true);
      Tick(s, CornerDraws()) ==
        s.(snake := [Cell(11, 10), Cell(10, 10), Cell(9, 10), Cell(8, 10)],
           score := 10, food := [Cell(0, 0)])
  {
    var s := InitialState().(food := [Cell(11, 10)], running := true);
    assert Candidate(s.grid, CornerDraws(), 0) == Cell(0, 0);
  }

  /** Solid walls: moving right from (9, 5) on a 10 x 10 board ends the game. */
  lemma WallScenario()
    ensures var s := InitialState().(grid := Grid(10, 10), snake := [Cell(9, 5), Cell(8, 5), Cell(7, 5)],
                                    food := [], bombs := [], running := true);
      Tick(s, CornerDraws()) == s.(running := false, gameOver := true)
  {
  }

  /** Wrap: moving right from (9, 5) on a 10 x 10 board re-enters at (0, 5). */
  lemma WrapScenario()
    ensures var s := InitialState().(grid := Grid(10, 10), snake := [Cell(9, 5), Cell(8, 5), Cell(7, 5)],
                                    food := [], bombs := [], running := true, mode := Wrap);
      Tick(s, CornerDraws()) == s.(snake := [Cell(0, 5), Cell(9, 5), Cell(8, 5)])
  {
  }

  /** The tail has not moved away yet when the collision check runs, so stepping
      onto it ends the game. */
  lemma TailChaseScenario()
    ensures var s := InitialState().(snake := [Cell(1, 1), Cell(2, 1), Cell(2, 2), Cell(1, 2)],
                                    direction := Down, running := true);
      Tick(s, CornerDraws()).gameOver
  {
  }
}
