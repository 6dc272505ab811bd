/** The store's `randomPosition`: rejection sampling over the grid, capped at
    `MaxAttempts` draws, that falls back to the last draw when every draw
    collides.

    `Math.random` becomes an explicit oracle: a sequence of draws, each a pair
    of numbers in [0, 1), one per coordinate, consumed front to back. */
module Placement {
  import opened GameTypes
  import opened Geometry

  /** The attempt cap of the rejection loop. */
  const MaxAttempts: nat := 100

  /** One call's worth of randomness for one candidate cell: `u` scales the
      column and `v` the row. */
  datatype Draw = Draw(u: real, v: real)

  /** What `Math.random` promises of each value it returns. */
  predicate UnitDraw(d: Draw)
  {
    0.0 <= d.u < 1.0 && 0.0 <= d.v < 1.0
  }

  predicate UnitDraws(draws: seq<Draw>)
  {
    forall i :: 0 <= i < |draws| ==> UnitDraw(draws[i])
  }

  /** The cell `{ x: floor(u * cols), y: floor(v * rows) }` made from one draw. */
  function DrawCell(d: Draw, g: Grid): (r: Cell)
    ensures UnitDraw(d) && ValidGrid(g) ==> InGrid(r, g)
  {
    ScaledFloorBelow(d.u, g.cols);
    ScaledFloorBelow(d.v, g.rows);
    Cell((d.u * g.cols as real).Floor, (d.v * g.rows as real).Floor)
  }

  /** floor(u * n) lies in [0, n) for u in [0, 1) and n > 0. */
  lemma ScaledFloorBelow(u: real, n: int)
    ensures 0.0 <= u < 1.0 && n > 0 ==> 0 <= (u * n as real).Floor < n
  {
    if 0.0 <= u < 1.0 && n > 0 {
      assert u * n as real < 1.0 * n as real;
    }
  }

  /** The candidate cell of attempt `k` (zero-based). */
  function Candidate(g: Grid, draws: seq<Draw>, k: nat): Cell
    requires k < |draws|
  {
    DrawCell(draws[k], g)
  }

  /** The attempt at which the loop stops, searching from attempt `i` on: the
      first candidate not in `avoid`, or the last attempt if none is free. */
  function PlacementIndex(g: Grid, avoid: seq<Cell>, draws: seq<Draw>, i: nat): (k: nat)
    requires i < MaxAttempts <= |draws|
    decreases MaxAttempts - i
    ensures i <= k < MaxAttempts
    // every attempt before the stopping one collided
    ensures forall j :: i <= j < k ==> Candidate(g, draws, j) in avoid
    // the loop stops early only on a free candidate
    ensures k < MaxAttempts - 1 ==> Candidate(g, draws, k) !in avoid
  {
    if i == MaxAttempts - 1 || !Any(avoid, Candidate(g, draws, i)) then i
    else PlacementIndex(g, avoid, draws, i + 1)
  }

  /** The cell `randomPosition(grid, avoid)` returns for the given draws. */
  function RandomPosition(g: Grid, avoid: seq<Cell>, draws: seq<Draw>): (r: Cell)
    requires MaxAttempts <= |draws|
    // the result is one of the first MaxAttempts candidates ...
    ensures exists k :: 0 <= k < MaxAttempts && r == Candidate(g, draws, k)
    // ... and it avoids `avoid` whenever some candidate does
    ensures (exists j :: 0 <= j < MaxAttempts && Candidate(g, draws, j) !in avoid) ==> r !in avoid
    // when no candidate is free, the last one is returned regardless
    ensures (forall j :: 0 <= j < MaxAttempts ==> Candidate(g, draws, j) in avoid) ==>
              r == Candidate(g, draws, MaxAttempts - 1)
  {
    var k := PlacementIndex(g, avoid, draws, 0);
    Candidate(g, draws, k)
  }

  /** With draws in [0, 1) the placed cell is on a non-empty grid. */
  lemma RandomPositionInGrid(g: Grid, avoid: seq<Cell>, draws: seq<Draw>)
    requires MaxAttempts <= |draws| && UnitDraws(draws) && ValidGrid(g)
    ensures InGrid(RandomPosition(g, avoid, draws), g)
  {
  }

  /** The first free candidate wins: if attempt `j` is free and every earlier one
      collides, attempt `j` is the result. */
  lemma FirstFreeCandidateWins(g: Grid, avoid: seq<Cell>, draws: seq<Draw>, j: nat)
    requires j < MaxAttempts <= |draws|
    requires Candidate(g, draws, j) !in avoid
    requires forall i :: 0 <= i < j ==> Candidate(g, draws, i) in avoid
    ensures RandomPosition(g, avoid, draws) == Candidate(g, draws, j)
  {
  }

  /** The source's do-while loop, step by step: draw, count the attempt, and go
      on while attempts remain and the candidate collides. */
  method RandomPositionLoop(g: Grid, avoid: seq<Cell>, draws: seq<Draw>) returns (pos: Cell)
    requires MaxAttempts <= |draws|
    ensures pos == RandomPosition(g, avoid, draws)
  {
    var attempts: nat := 0;
    pos := Candidate(g, draws, attempts);
    attempts := attempts + 1;
    while attempts < MaxAttempts && Any(avoid, pos)
      invariant 1 <= attempts <= MaxAttempts
      invariant pos == Candidate(g, draws, attempts - 1)
      invariant PlacementIndex(g, avoid, draws, 0) == PlacementIndex(g, avoid, draws, attempts - 1)
      decreases MaxAttempts - attempts
    {
      pos := Candidate(g, draws, attempts);
      attempts := attempts + 1;
    }
  }
}
