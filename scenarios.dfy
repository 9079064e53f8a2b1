/** Whole rounds, played through the components' own methods, showing what a
    player sees from start to settlement. */
module Scenarios {
  import opened Wager
  import opened Sapper
  import opened Ladder

  /** Start and cash out at once: the multiplier is still x1.00, so the
      balance is back where it was. */
  method StartThenCashout(view: GameView)
    requires view.Valid() && view.bet <= view.balance
    modifies view
    ensures view.Valid() && !view.isPlaying
    ensures view.balance == old(view.balance)
  {
    view.StartGame();
    PayoutAtOne(view.bet);
    view.Cashout();
  }

  /** Start a grid round, let the effect place the bombs, click a bomb, and let
      the delayed step run: the wager is lost, the board is gone, and the
      multiplier is still the x1.00 that the start set. */
  method LoseOnBomb(view: GameView, game: SapperGame, draws: seq<nat>, index: nat)
    requires view.Valid() && game.Valid()
    requires view.bet <= view.balance
    requires index < Cells && game.bombs.Length == 0 && !game.revealed[index]
    requires forall j :: 0 <= j < |draws| ==> draws[j] < Cells
    requires view.bombCount <= |Elems(draws)|
    requires index in DrawFrom({}, draws, view.bombCount)
    modifies view, game, game.revealed
    ensures view.Valid() && game.Valid()
    ensures view.balance == old(view.balance) - old(view.bet)
    ensures !view.isPlaying && view.multiplier == One
    ensures game.bombs.Length == 0 && !game.gameOver
    ensures forall i :: 0 <= i < Cells ==> !game.revealed[i]
  {
    view.StartGame();
    game.GenerateBoard(view, draws);
    assert BombAt(game.bombs[..], index);
    game.HandleClick(view, index);
    assert game.gameOver;
    game.ResolveLoss(view);
  }

  /** Reveal distinct safe cells one by one from an untouched board: after
      the k-th reveal the multiplier is the curve at k. */
  method RevealSafeCells(view: GameView, game: SapperGame, cells: seq<nat>)
    requires view.Valid() && game.Valid()
    requires view.isPlaying && !game.gameOver
    requires forall i :: 0 <= i < Cells ==> !game.revealed[i]
    requires forall j :: 0 <= j < |cells| ==> cells[j] < Cells && !BombAt(game.bombs[..], cells[j])
    requires forall j, k :: 0 <= j < k < |cells| ==> cells[j] != cells[k]
    modifies game, game.revealed, view
    ensures view.Valid() && game.Valid() && !game.gameOver
    ensures view.bombCount == old(view.bombCount) && game.bombs == old(game.bombs)
    ensures game.bombs[..] == old(game.bombs[..])
    ensures OpenedSafe(game.revealed[..], game.bombs[..]) == |cells|
    ensures |cells| > 0 ==> view.multiplier == CalculateMultiplier(view.bombCount, |cells|)
  {
    assert SafeOpened(game.revealed[..], game.bombs[..]) == {};
    var k := 0;
    while k < |cells|
      invariant 0 <= k <= |cells|
      invariant view.Valid() && game.Valid() && view.isPlaying && !game.gameOver
      invariant game.revealed == old(game.revealed) && game.bombs == old(game.bombs)
      invariant view.bombCount == old(view.bombCount)
      invariant forall i :: 0 <= i < Cells ==> (game.revealed[i] <==> i in cells[..k])
      invariant OpenedSafe(game.revealed[..], game.bombs[..]) == k
      invariant k > 0 ==> view.multiplier == CalculateMultiplier(view.bombCount, k)
    {
      assert !game.revealed[cells[k]];
      RevealSafeAddsOne(game.revealed[..], game.bombs[..], cells[k]);
      game.HandleClick(view, cells[k]);
      k := k + 1;
    }
  }

  /** Cash out and start again: the board is not cleared, so the placement
      effect does not run and the old layout and the old reveals carry over. */
  method RestartAfterCashout(view: GameView, game: SapperGame, draws: seq<nat>)
    requires view.Valid() && game.Valid()
    requires game.bombs.Length == Cells && !game.gameOver
    requires view.bet <= view.balance + Payout(view.bet, view.multiplier)
    requires forall j :: 0 <= j < |draws| ==> draws[j] < Cells
    modifies view, game
    ensures view.Valid() && game.Valid() && view.isPlaying
    ensures view.balance == old(view.balance) + Payout(old(view.bet), old(view.multiplier)) - old(view.bet)
    ensures game.bombs == old(game.bombs) && game.revealed == old(game.revealed)
    ensures game.bombs[..] == old(game.bombs[..]) && game.revealed[..] == old(game.revealed[..])
  {
    view.Cashout();
    view.StartGame();
    game.GenerateBoard(view, draws);
  }

  /** Cash out, move the slider and start again: the kept board is not
      regenerated for the new count, so the next safe reveal is priced with a
      bomb count that the board does not have (see `StaleBoardPricing`). */
  method RestartWithOtherBombCount(view: GameView, game: SapperGame, draws: seq<nat>, bombCount: int, index: nat)
    requires view.Valid() && game.Valid()
    requires MinBombs <= bombCount <= MaxBombs && index < Cells
    requires game.bombs.Length == Cells && !game.gameOver && !game.revealed[index]
    requires !BombAt(game.bombs[..], index)
    requires view.bet <= view.balance + Payout(view.bet, view.multiplier)
    requires forall j :: 0 <= j < |draws| ==> draws[j] < Cells
    modifies view, game, game.revealed
    ensures view.Valid() && game.Valid() && view.isPlaying
    ensures game.bombs == old(game.bombs) && game.bombs[..] == old(game.bombs[..])
    ensures game.revealed[..] == old(game.revealed[..])[index := true]
    ensures view.multiplier == CalculateMultiplier(bombCount, OpenedSafe(game.revealed[..], game.bombs[..]))
  {
    view.Cashout();
    view.SetBombCount(bombCount);
    view.StartGame();
    game.GenerateBoard(view, draws);
    game.HandleClick(view, index);
  }

  /** Hit a bomb, cash out and start a new round before the delayed step
      runs: the step still fires and ends the new round, whose wager stays
      debited, and it drops the board. */
  method RestartDuringDisclosure(view: GameView, game: SapperGame, index: nat)
    requires view.Valid() && game.Valid() && index < Cells
    requires game.Accepts(view.isPlaying, index) && BombAt(game.bombs[..], index)
    requires view.bet <= view.balance + Payout(view.bet, view.multiplier)
    modifies view, game, game.revealed
    ensures view.Valid() && game.Valid()
    ensures view.balance == old(view.balance) + Payout(old(view.bet), old(view.multiplier)) - old(view.bet)
    ensures !view.isPlaying && view.multiplier == One && game.bombs.Length == 0
  {
    game.HandleClick(view, index);
    view.Cashout();
    view.StartGame();
    game.ResolveLoss(view);
  }

  /** Hit a bomb and cash out before the delayed step runs: the round is still
      marked as playing, so the cash-out credits the wager at the multiplier of
      the last safe reveal. */
  method CashoutDuringDisclosure(view: GameView, game: SapperGame, index: nat)
    requires view.Valid() && game.Valid() && index < Cells
    requires game.Accepts(view.isPlaying, index) && BombAt(game.bombs[..], index)
    modifies view, game, game.revealed
    ensures view.Valid() && game.Valid() && game.gameOver
    ensures view.balance == old(view.balance) + Payout(old(view.bet), old(view.multiplier))
  {
    game.HandleClick(view, index);
    view.Cashout();
  }

  /** Start a grid round and hit a bomb on the first click, then cash out
      before the delayed step runs: the multiplier is still the x1.00 that
      the start set, so the whole wager comes back. */
  method FirstClickBombRefund(view: GameView, game: SapperGame, index: nat)
    requires view.Valid() && game.Valid() && index < Cells
    requires view.bet <= view.balance
    requires !game.revealed[index] && !game.gameOver && BombAt(game.bombs[..], index)
    modifies view, game, game.revealed
    ensures view.Valid() && game.Valid() && game.gameOver && !view.isPlaying
    ensures view.balance == old(view.balance)
  {
    view.StartGame();
    game.HandleClick(view, index);
    PayoutAtOne(view.bet);
    view.Cashout();
  }

  /** Start a ladder round and climb safely: after k safe steps the
      multiplier is 1 + 0.4 k, and the climb starts wherever the previous
      round left the current level. */
  method ClimbSafely(view: GameView, ladder: LadderGame, positions: seq<int>)
    requires view.Valid() && ladder.Valid()
    requires view.bet <= view.balance
    requires ladder.currentLevel + |positions| <= Levels
    requires forall j :: 0 <= j < |positions| ==> 0 <= positions[j] < Positions
    modifies view, ladder, ladder.revealed
    ensures view.Valid() && ladder.Valid() && view.isPlaying
    ensures view.multiplier == One + Step * |positions|
    ensures ladder.currentLevel == old(ladder.currentLevel) + |positions|
  {
    view.StartGame();
    var k := 0;
    while k < |positions|
      invariant 0 <= k <= |positions|
      invariant view.Valid() && ladder.Valid() && view.isPlaying
      invariant ladder.revealed == old(ladder.revealed)
      invariant ladder.currentLevel == old(ladder.currentLevel) + k
      invariant view.multiplier == One + Step * k
    {
      ladder.HandleClick(view, ladder.currentLevel, positions[k], false);
      k := k + 1;
    }
  }
}
