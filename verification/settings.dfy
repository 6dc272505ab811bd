/** The settings page's grid-size fields, which hand `Number(value)` of the
    text typed into a number input straight to the store's `setGridSize`.

    The inputs carry `min="10"` and `max="40"`, but the browser does not
    enforce those on typing: clearing a field gives `Number("") == 0`, and a
    negative or oversized number can be typed in. A zero or negative size
    reaches the store unchanged, and a wrapping tick on it needs `% 0` or
    leaves the head off the board. `SetGridSizeClamped` keeps each size in
    the range the fields advertise. */
module SettingsInput {
  import opened GameTypes
  import opened Geometry
  import opened GameStore
  import opened StoreInvariants

  /** The bounds the grid-size fields advertise. */
  const MinGridSize := 10
  const MaxGridSize := 40

  /** The page's rows field as written: its value goes to the store unchecked. */
  function SetRowsAsWritten(s: GameState, value: int): (r: GameState)
    ensures r.grid == Grid(value, s.grid.cols) && r.(grid := s.grid) == s
  {
    SetGridSize(s, value, s.grid.cols)
  }

  /** Clearing the rows field of a running wrapping game leaves a state that
      `tick` cannot step: the grid is empty, so wrapping would need `% 0`. */
  lemma EmptyRowsFieldBreaksWrap()
    ensures Live(InitialState().(mode := Wrap, running := true))
    ensures !CanTick(SetRowsAsWritten(InitialState().(mode := Wrap, running := true), 0))
    ensures !Bookkept(SetRowsAsWritten(InitialState().(mode := Wrap, running := true), 0))
  {
  }

  /** A typed size pulled into the advertised range. */
  function ClampSize(n: int): (r: int)
    ensures MinGridSize <= r <= MaxGridSize
    // sizes in range pass unchanged; others go to the nearer bound
    ensures MinGridSize <= n <= MaxGridSize ==> r == n
    ensures n < MinGridSize ==> r == MinGridSize
    ensures n > MaxGridSize ==> r == MaxGridSize
  {
    if n < MinGridSize then MinGridSize
    else if n > MaxGridSize then MaxGridSize
    else n
  }

  /** The fields with their advertised bounds applied before the store sees them. */
  function SetGridSizeClamped(s: GameState, rows: int, cols: int): (r: GameState)
    ensures ValidGrid(r.grid) && r.(grid := s.grid) == s
    ensures MinGridSize <= r.grid.rows <= MaxGridSize && MinGridSize <= r.grid.cols <= MaxGridSize
    // within the advertised range the store's setter is used unchanged
    ensures MinGridSize <= rows <= MaxGridSize && MinGridSize <= cols <= MaxGridSize ==>
              r == SetGridSize(s, rows, cols)
  {
    SetGridSize(s, ClampSize(rows), ClampSize(cols))
  }

  /** Whatever is typed, the clamped setter issues an action `Step` accepts and
      keeps the bookkeeping, so a wrapping tick stays defined afterwards. */
  lemma ClampedSettingKeepsBookkeeping(s: GameState, rows: int, cols: int)
    requires Bookkept(s)
    ensures Admissible(DoSetGridSize(ClampSize(rows), ClampSize(cols)))
    ensures Step(s, DoSetGridSize(ClampSize(rows), ClampSize(cols))) == SetGridSizeClamped(s, rows, cols)
    ensures Bookkept(SetGridSizeClamped(s, rows, cols))
    ensures |s.snake| > 0 ==> CanTick(SetGridSizeClamped(s, rows, cols))
  {
  }
}
