/** The store's 180-degree guard in `SetDirection` and where it falls short.

    The guard compares the neck with the head's UNWRAPPED next cell, while
    `Tick` moves the head to the WRAPPED one. On the wrap seam the two differ,
    so a turn straight back into the neck is accepted and the following step
    ends the game on the snake's own body. `SetDirectionWrapAware` compares the
    neck with the cell the step will really reach. */
module ReversalGuard {
  import opened GameTypes
  import opened Geometry
  import opened GameStore
  import opened StoreInvariants

  /** The current direction does not aim the next step at the second segment. */
  predicate NeckSafe(s: GameState)
    requires |s.snake| > 0 && (s.mode == Wrap ==> ValidGrid(s.grid))
  {
    |s.snake| > 1 ==> Target(s) != s.snake[1]
  }

  /** When the neck lies directly behind the head, the guard rejects exactly the
      reverse of the current direction and accepts every other one. */
  lemma GuardRejectsExactlyReversal(s: GameState, d: Direction)
    requires |s.snake| > 1 && s.snake[1] == NextPosition(s.snake[0], Opposite(s.direction))
    ensures SetDirection(s, d).direction == d <==> d != Opposite(s.direction)
    ensures d == Opposite(s.direction) ==> SetDirection(s, d) == s
  {
    NextPositionInjective(s.snake[0], d, Opposite(s.direction));
  }

  /** With solid walls the guard as written keeps the next step off the neck. */
  lemma GuardKeepsNeckSafeWithWalls(s: GameState, d: Direction)
    requires |s.snake| > 0 && s.mode == WallsSolid && NeckSafe(s)
    ensures NeckSafe(SetDirection(s, d))
  {
  }

  /** A 20 x 20 wrapping board whose head has just crossed the left edge and
      then turned up: head (0, 5), neck (19, 5) across the seam. */
  function SeamState(): (s: GameState)
    ensures |s.snake| == 3 && s.mode == Wrap && ValidGrid(s.grid) && Live(s)
    ensures WellFormed(s) && NeckSafe(s)
  {
    InitialState().(snake := [Cell(0, 5), Cell(19, 5), Cell(18, 5)], direction := Up,
                    food := [Cell(15, 15)], running := true, mode := Wrap)
  }

  /** The guard as written accepts the turn left at the seam, which aims the next
      step at the neck, and that step ends the game. */
  lemma SeamReversalAccepted()
    ensures SetDirection(SeamState(), Left).direction == Left
    ensures !NeckSafe(SetDirection(SeamState(), Left))
    ensures Tick(SetDirection(SeamState(), Left), CornerDraws()).gameOver
  {
    var s := SetDirection(SeamState(), Left);
    assert Ahead(s) == Cell(-1, 5);
    assert Target(s) == Cell(19, 5);
  }

  /** The guard with the neck compared against the cell the step really reaches. */
  function SetDirectionWrapAware(s: GameState, d: Direction): (r: GameState)
    requires |s.snake| > 0 && (s.mode == Wrap ==> ValidGrid(s.grid))
    ensures r == s || r == s.(direction := d)
    // no accepted turn aims the next step at the neck
    ensures NeckSafe(s) ==> NeckSafe(r)
    // with solid walls nothing differs from the guard as written
    ensures s.mode == WallsSolid ==> r == SetDirection(s, d)
  {
    if |s.snake| > 1 && CellsEqual(Target(s.(direction := d)), s.snake[1]) then s
    else s.(direction := d)
  }

  /** The corrected guard refuses the seam turn the original accepts. */
  lemma WrapAwareRejectsSeamReversal()
    ensures SetDirectionWrapAware(SeamState(), Left) == SeamState()
  {
    var s := SeamState().(direction := Left);
    assert Ahead(s) == Cell(-1, 5);
    assert Target(s) == Cell(19, 5);
  }
}
