/** Reaching the exit, and the exit that the last level reveals when its puzzle is solved. */
module Goal {
  import opened Tiles

  const FirstLevel: int := 1
  const LastLevel: int := 5

  /** What a tick asks of the game: nothing, to start the given level, or to show the win screen. */
  datatype Outcome = Continue | Restart(level: int) | Won

  /** The outcome of a tick on `level` with the hero over cell `under`. */
  function GoalOutcome(level: int, under: Cell): (o: Outcome)
    ensures o.Continue? <==> !(under.Tile? && under.index == GoalIndex)
    ensures o.Restart? <==> under.Tile? && under.index == GoalIndex && level < LastLevel
    ensures o.Restart? ==> o.level == level + 1
    ensures o.Won? <==> under.Tile? && under.index == GoalIndex && level >= LastLevel
  {
    if under.Tile? && under.index == GoalIndex then
      if level < LastLevel then Restart(level + 1) else Won
    else Continue
  }

  /** The three cells of the last level's puzzle, left to right, on one row. */
  const PatternRow: int := 34
  const PatternLeft: int := 60
  const PatternMid: int := 61
  const PatternRight: int := 62
  /** The cell where the exit appears: right above the middle of the puzzle. */
  const ExitX: int := 61
  const ExitY: int := 33

  /** The puzzle is solved when the three cells hold tiles 104, 105 and 106, in that order. */
  predicate EndPattern(left: Cell, mid: Cell, right: Cell)
  {
    left.Tile? && left.index == 104 && mid.Tile? && mid.index == 105 && right.Tile? && right.index == 106
  }
}
