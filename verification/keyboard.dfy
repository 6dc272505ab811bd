/** The keyboard handler's decision: which store action a key press triggers,
    given the current direction and whether the game is over. Registering the
    listener and calling `preventDefault` are left to the page. */
module KeyboardInput {
  import opened GameTypes
  import opened Geometry

  /** What a key press asks the store to do. */
  datatype KeyAction = NoAction | TogglePauseAction | SetDirectionAction(direction: Direction)

  /** What a key is bound to, independent of the game's state. */
  datatype Binding = Steer(towards: Direction) | PauseKey | Unbound

  /** Arrow keys and W/A/S/D (either case) steer; the space bar pauses. */
  function BindingOf(key: string): Binding
  {
    if key in {"ArrowUp", "w", "W"} then Steer(Up)
    else if key in {"ArrowDown", "s", "S"} then Steer(Down)
    else if key in {"ArrowLeft", "a", "A"} then Steer(Left)
    else if key in {"ArrowRight", "d", "D"} then Steer(Right)
    else if key == " " then PauseKey
    else Unbound
  }

  /** The handler's `switch`: nothing once the game is over; a steering key turns
      unless it asks for the reverse of the current direction; space pauses. */
  function HandleKey(key: string, current: Direction, gameOver: bool): (a: KeyAction)
    ensures gameOver ==> a == NoAction
    ensures !gameOver && BindingOf(key) == PauseKey ==> a == TogglePauseAction
    ensures !gameOver && BindingOf(key) == Unbound ==> a == NoAction
    ensures !gameOver && BindingOf(key).Steer? ==>
              a == (if BindingOf(key).towards == Opposite(current) then NoAction
                    else SetDirectionAction(BindingOf(key).towards))
    // a turn it asks for is never a reversal
    ensures a.SetDirectionAction? ==> a.direction != Opposite(current)
  {
    if gameOver then NoAction
    else if key == "ArrowUp" || key == "w" || key == "W" then
      if current != Down then SetDirectionAction(Up) else NoAction
    else if key == "ArrowDown" || key == "s" || key == "S" then
      if current != Up then SetDirectionAction(Down) else NoAction
    else if key == "ArrowLeft" || key == "a" || key == "A" then
      if current != Right then SetDirectionAction(Left) else NoAction
    else if key == "ArrowRight" || key == "d" || key == "D" then
      if current != Left then SetDirectionAction(Right) else NoAction
    else if key == " " then TogglePauseAction
    else NoAction
  }

  /** The space bar only ever pauses or does nothing; it never steers. */
  lemma SpaceOnlyPauses(current: Direction, gameOver: bool)
    ensures HandleKey(" ", current, gameOver) == (if gameOver then NoAction else TogglePauseAction)
  {
  }

  /** A key asks for direction `d` exactly when it is bound to `d`, the game is
      running or paused but not over, and `d` is not the reverse of the current one. */
  lemma TurnRequestedIff(key: string, current: Direction, gameOver: bool, d: Direction)
    ensures HandleKey(key, current, gameOver) == SetDirectionAction(d) <==>
              !gameOver && BindingOf(key) == Steer(d) && d != Opposite(current)
  {
  }
}
