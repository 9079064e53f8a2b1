/** The ladder game ("Lesenka"): ten levels of three positions, climbed one
    level at a time. Each accepted step is a fresh coin toss (`isMine`, true
    with probability 0.3 in the program); there is no hidden layout. */
module Ladder {
  import opened Wager

  const Levels := 10
  const Positions := 3

  /** What a safe step adds to the multiplier, in hundredths (0.4). */
  const Step := 40

  /** The position chosen on a level, or none (`null` in the program). */
  datatype Pick = Unpicked | Picked(position: int)

  class LadderGame {
    /** The only level that accepts a click; never reset. */
    var currentLevel: int
    var revealed: array<Pick>

    /** Every level below the current one has a pick, every level above it
        has none, and every pick names a position of its level. */
    ghost predicate Valid()
      reads this, revealed
    {
      && revealed.Length == Levels
      && 0 <= currentLevel <= Levels
      && (forall l :: 0 <= l < currentLevel ==> revealed[l].Picked?)
      && (forall l :: currentLevel < l < Levels ==> revealed[l] == Unpicked)
      && (forall l :: 0 <= l < Levels && revealed[l].Picked? ==> 0 <= revealed[l].position < Positions)
    }

    /** Mounting: level 0, nothing picked. */
    constructor ()
      ensures Valid() && fresh(revealed) && currentLevel == 0
      ensures forall l :: 0 <= l < Levels ==> revealed[l] == Unpicked
    {
      currentLevel := 0;
      revealed := new Pick[Levels](_ => Unpicked);
    }

    /** Whether a click on `level` gets past the handler's guard: nothing
        passes while not playing, and a level that passes has every level
        below it picked and none above it. */
    predicate Accepts(isPlaying: bool, level: int): (a: bool)
      reads this, revealed
      requires Valid()
      ensures !isPlaying ==> !a
      ensures a ==> 0 <= level <= Levels
      ensures a ==> forall l :: 0 <= l < level ==> revealed[l].Picked?
      ensures a ==> forall l :: level < l < Levels ==> revealed[l] == Unpicked
    {
      isPlaying && level == currentLevel
    }

    /** The click handler. Ignored unless playing on the current level. An
        accepted click records the position on that level only; a mine ends
        the round through the view's game-over callback and leaves the pick on
        the current level, a safe step adds 0.4 to the multiplier and moves up
        one level. No level above the current one is ever picked. */
    method HandleClick(view: GameView, level: int, position: int, isMine: bool)
      requires Valid() && view.Valid()
      requires 0 <= level < Levels && 0 <= position < Positions
      modifies this`currentLevel, revealed, view`multiplier, view`isPlaying
      ensures Valid() && view.Valid()
      ensures !old(Accepts(view.isPlaying, level)) ==> unchanged(this, revealed, view)
      ensures old(Accepts(view.isPlaying, level)) ==>
        revealed[..] == old(revealed[..])[level := Picked(position)]
      ensures old(Accepts(view.isPlaying, level)) && isMine ==>
        && !view.isPlaying && currentLevel == old(currentLevel)
        && view.multiplier == old(view.multiplier)
      ensures old(Accepts(view.isPlaying, level)) && !isMine ==>
        && view.isPlaying && currentLevel == old(currentLevel) + 1
        && view.multiplier == old(view.multiplier) + Step
    {
      if !view.isPlaying || level != currentLevel {
        return;
      }
      revealed[level] := Picked(position);
      if isMine {
        view.GameOver();
      } else {
        view.multiplier := view.multiplier + Step;
        currentLevel := level + 1;
      }
    }
  }
}
