# DuckCasino game engine, modelled in Dafny

DuckCasino is a web casino page with two mini-games that share one wager
lifecycle. All of its game logic lives on the client, in
`src/pages/Index.tsx`. This project models that logic and proves properties
about it:

- **Wager lifecycle** (`GameView`). `startGame` refuses a bet above the
  balance. Otherwise it debits the bet, marks the round as playing and sets the
  multiplier to x1. `cashout` credits `floor(bet × multiplier)` and ends the
  round. The `onGameOver` callback that both games receive only ends the round.
- **Grid game** (`SapperGame`, "Sapper"). A 5×5 board. While a round is
  playing and no board exists, an effect draws random cells until `bombCount`
  distinct ones are chosen (3 to 15, from the slider). A click is ignored when
  the round is not playing, the cell is already revealed, or the round is over.
  A safe click reveals the cell and sets the multiplier from the payout curve
  `calculateMultiplier`. A bomb click marks the round over and discloses every
  bomb. A step scheduled 1500 ms later ends the round and clears the board.
- **Ladder game** (`LadderGame`, "Lesenka"). Ten levels of three positions.
  Only the current level accepts a click. Each accepted click is a fresh
  random draw ("mine" with probability 0.3). A safe step adds 0.4 to the
  multiplier and moves up one level.

Modules: `Wager` (the view's state, plus the page's balance and bet that the
view reads and writes), `Sapper`, `Ladder`, `Scenarios` (whole rounds played
through the components' methods) and `Arithmetic` (division and real-number
facts the proofs use).

How the model represents things:

- Multipliers are whole numbers of hundredths: `One == 100` stands for x1.00.
  In exact arithmetic every multiplier the program produces is a multiple of
  0.01. The grid curve is rounded by `toFixed(2)`, and the ladder starts at 1
  and adds 0.4.
- `toFixed(2)` is modelled as rounding the exact rational curve to the nearest
  hundredth, with halves rounded up. `CalculateMultiplier` states this against
  `ExactMultiplier`, the curve written in `real` arithmetic.
- `Math.random()` is an input. The grid effect receives the successive draws
  as `draws: seq<nat>`. The ladder click receives `isMine: bool`.
- The 1500 ms `setTimeout` is the explicit step `SapperGame.ResolveLoss`. The
  `useEffect` is the explicit step `SapperGame.GenerateBoard`. React state
  updates take effect at once and in program order. Of the two `setRevealed`
  calls in the bomb branch, the later one wins, as under React batching.
- Reading `bombs[i]` on the empty array (no board yet) yields `undefined`,
  which is falsy. `BombAt` models it as "no bomb".

Where the code behaves differently from what a player would expect, the model
follows the code:

- A cash-out does not clear the grid board. Generation runs only when
  `bombs.length === 0`, so the next round reuses the old layout and the old
  reveals (`Scenarios.RestartAfterCashout`). That round is then priced with
  the slider's current bomb count, which may differ from the board's
  (`Scenarios.RestartWithOtherBombCount`). A board placed with 3 bombs and
  priced with 15 pays x6.50 once its 22 safe cells are open, above the x3.50
  that a 15-bomb board can reach (`Sapper.StaleBoardPricing`).
- A loss does not reset the multiplier. Only the next `startGame` does.
- Cash-out is still offered during the 1500 ms after a bomb, since the round is
  still playing. It credits the multiplier in force before the bomb
  (`Scenarios.CashoutDuringDisclosure`). If the round had no safe reveal that
  is x1.00, so a bomb on the first click followed by a quick cash-out refunds
  the whole bet (`Scenarios.FirstClickBombRefund`). A new round started in that window
  is ended by the pending delayed step, with its wager already debited
  (`Scenarios.RestartDuringDisclosure`).
- There is no check that the bet is positive, and no guard against starting
  twice.
- The ladder is a 10×3 column of coin tosses. It has no hazard layout, no
  adjacency rule and no delayed disclosure. Its current level and its picks are
  never reset, so a new round resumes where the last one stopped.

## Model

| member | source | states |
|---|---|---|
| `Wager.Payout` | src/pages/Index.tsx:126 | the win is the largest integer w with w·100 ≤ bet·multiplier (bet × multiplier rounded down) |
| `Wager.PayoutAtOne` | src/pages/Index.tsx:118-127 | at multiplier x1.00 the payout is exactly the bet, so start-then-cash-out is balance-neutral |
| `Wager.PayoutMonotone` | src/pages/Index.tsx:126 | for a non-negative bet, a larger multiplier never pays less |
| `Wager.PayoutCoversWager` | src/pages/Index.tsx:126 | for a non-negative bet and any multiplier ≥ x1.00, the payout is at least the bet |
| `Wager.GameView.constructor` | src/pages/Index.tsx:107-109 | a mounted view is not playing, has multiplier x1.00 and 3 bombs, and holds the page's balance and bet |
| `Wager.GameView.SetBet` | src/pages/Index.tsx:172 | the bet becomes the typed value; nothing else changes |
| `Wager.GameView.SetBombCount` | src/pages/Index.tsx:183-188 | the slider sets a bomb count within 3..15 |
| `Wager.GameView.StartGame` | src/pages/Index.tsx:118-123 | a bet above the balance changes nothing; otherwise the balance drops by the bet, the round plays and the multiplier is x1.00 |
| `Wager.GameView.Cashout` | src/pages/Index.tsx:125-129 | the balance rises by floor(bet × multiplier) and the round stops; the multiplier is kept |
| `Wager.GameView.GameOver` | src/pages/Index.tsx:152 | the loss callback only stops the round: balance and multiplier are untouched |
| `Sapper.CalculateMultiplier` | src/pages/Index.tsx:255-261 | the result is at least x1.00 and is the exact curve 1 + (openedSafe/safeCells)(1 + bombCount/10) rounded to the nearest hundredth, halves up |
| `Sapper.RoundsHalfUp` | src/pages/Index.tsx:259-260 | the integer quotient used for the rounding is within half a hundredth of the exact curve |
| `Sapper.ExactInHundredths` | src/pages/Index.tsx:256-259 | the curve in hundredths equals 100 + 10·openedSafe·(10 + bombCount)/safeCells |
| `Sapper.MultiplierAtStart` | src/pages/Index.tsx:255-261 | with no safe cell opened the multiplier is exactly x1.00 |
| `Sapper.MultiplierMonotone` | src/pages/Index.tsx:255-261 | for a fixed bomb count, more opened safe cells never give a lower rounded multiplier |
| `Sapper.MultiplierAtFullBoard` | src/pages/Index.tsx:255-261 | with all 25 − bombCount safe cells opened the multiplier is exactly 2 + bombCount/10 |
| `Sapper.BombAt` | src/pages/Index.tsx:270 | a cell holds a bomb exactly when it is in the board's bomb set; with no board yet no cell does |
| `Sapper.OpenedSafe` | src/pages/Index.tsx:281 | the size of the set of revealed non-bomb cells equals the left-to-right filter count over the board, and is at most the board's size |
| `Sapper.RevealSafeAddsOne` | src/pages/Index.tsx:281 | revealing a hidden safe cell raises the count of revealed non-bomb cells by exactly one |
| `Sapper.SafeRevealRaisesMultiplier` | src/pages/Index.tsx:280-284 | the multiplier set by a safe reveal is never below the curve at the previous count |
| `Sapper.MultiplierCeiling` | src/pages/Index.tsx:255-261 | on a board with bombCount bombs at most 25 − bombCount safe cells are open, so the multiplier never exceeds 2 + bombCount/10 |
| `Sapper.StaleBoardPricing` | src/pages/Index.tsx:243-261 | a 3-bomb board with its 22 safe cells open, priced with 15 bombs, gives x6.50: above the x3.50 ceiling for 15 bombs and the x2.30 for the board's own 3 |
| `Sapper.DrawFrom` | src/pages/Index.tsx:247-249 | the drawing keeps every cell already chosen and, started below `count`, never chooses more than `count` cells |
| `Sapper.DrawnSize` | src/pages/Index.tsx:246-249 | adding draws until the set has `count` elements yields exactly `count` elements when the draws hold enough distinct cells |
| `Sapper.DrawnWithin` | src/pages/Index.tsx:246-249 | every chosen cell is one of the draws |
| `Sapper.LayoutFromDraws` | src/pages/Index.tsx:246-249 | from an empty set the draws choose exactly bombCount distinct cells, all in [0, 25) |
| `Sapper.DrawPositions` | src/pages/Index.tsx:246-249 | the rejection loop returns exactly `count` distinct cells in [0, 25), namely the first `count` distinct draws |
| `Sapper.MarkPositions` | src/pages/Index.tsx:245-250 | the fresh 25-cell board has a bomb exactly at the chosen cells |
| `Sapper.SapperGame.constructor` | src/pages/Index.tsx:239-241 | nothing revealed, no board, not over |
| `Sapper.SapperGame.Accepts` | src/pages/Index.tsx:264 | no click passes while not playing or after a bomb; a cell that passes is hidden, so not yet among the opened safe cells |
| `Sapper.SapperGame.GenerateBoard` | src/pages/Index.tsx:243-253 | only while playing with no board: a fresh 25-cell board whose bomb set is the drawn set and has exactly bombCount cells; otherwise the board is untouched |
| `Sapper.SapperGame.HandleClick` | src/pages/Index.tsx:263-285 | ignored clicks change nothing; a safe click reveals only that cell and sets the multiplier to the curve at the number of revealed non-bomb cells; a bomb click marks the round over (gameOver) while it is still playing, reveals old reveals ∪ bombs, and keeps the multiplier |
| `Sapper.SapperGame.ResolveLoss` | src/pages/Index.tsx:274-279 | the delayed step stops the round, hides every cell, drops the board and clears the game-over flag |
| `Ladder.LadderGame.constructor` | src/pages/Index.tsx:322-323 | level 0 and no level picked |
| `Ladder.LadderGame.Accepts` | src/pages/Index.tsx:326 | no click passes while not playing; a level that passes has every level below it picked and none above it |
| `Ladder.LadderGame.HandleClick` | src/pages/Index.tsx:325-339 | ignored unless playing on the current level; an accepted click records the position on that level only; a mine stops the round and keeps level and multiplier; a safe step adds 0.4 and moves up one level; no level above the current one is picked |
| `Scenarios.StartThenCashout` | src/pages/Index.tsx:118-129 | starting and cashing out at once leaves the balance unchanged |
| `Scenarios.LoseOnBomb` | src/pages/Index.tsx:263-279 | start, bomb, delayed step: the balance is down by the bet, the round is stopped, the board is cleared and the multiplier is still x1.00 |
| `Scenarios.RevealSafeCells` | src/pages/Index.tsx:263-284 | after the k-th distinct safe reveal on a fresh board the multiplier is the curve at k for the unchanged bomb count, and the board is unchanged |
| `Scenarios.RestartAfterCashout` | src/pages/Index.tsx:243-253 | after cash-out and a new start the old layout and reveals are kept and generation does not run |
| `Scenarios.RestartWithOtherBombCount` | src/pages/Index.tsx:243-284 | after cash-out, a slider move and a new start the board is kept, and the next safe reveal is priced with the new bomb count |
| `Scenarios.RestartDuringDisclosure` | src/pages/Index.tsx:270-279 | cash-out and a new start between a bomb and the delayed step: the new wager is debited, and the delayed step ends the new round and drops the board |
| `Scenarios.FirstClickBombRefund` | src/pages/Index.tsx:118-127 | start, a bomb on the first click, then a cash-out before the delayed step: the balance is back where it was |
| `Scenarios.CashoutDuringDisclosure` | src/pages/Index.tsx:125-129 | a cash-out after a bomb but before the delayed step still credits floor(bet × multiplier before the bomb) |
| `Scenarios.ClimbSafely` | src/pages/Index.tsx:325-339 | after k safe ladder steps from a start the multiplier is 1 + 0.4k and the level has risen by k |

## Left out

- `backend/user/index.py` and `backend/payment/index.py`: HTTP handlers whose work is SQL against a database. The page's balance here is local state only.
- Rendering, styling, icons, cards, the game list and navigation. Leaving a game with "Back" unmounts the view in the middle of a round, which forfeits the bet; this is not modelled.
- The slider captions "×1.2" and "×3.0" are display text that the curve does not produce.
- Randomness. The model does not capture the uniform distribution of the draws or the probability 0.3 of a ladder mine. Both are inputs.
- `Sapper.SapperGame.GenerateBoard`: it requires the supplied draws to contain at least `bombCount` distinct cells. This stands in for "the rejection loop ends", which the program reaches only with probability 1.
- Floating point. Multipliers are exact hundredths and the payout is computed exactly. The program computes on doubles, and the results can differ. For example, `toFixed(2)` may round a value ending in 5 down, the repeated `+ 0.4` accumulates binary error, and `1.15 * 100` evaluates just below 115, so `Math.floor` pays one unit less.
- `Wager.Payout`: it is the exact floor of bet × multiplier and does not model the double-precision product described above.
- The bet is modelled as an integer. The input accepts any number, including fractions and NaN.
- Time. The 1500 ms delay is not modelled. Any other step may run between `HandleClick` and `ResolveLoss`, and the scenarios show what that allows.
- `GameView` offers "start", the bet input and the bomb-count slider only while not playing, and "cash out" only while playing. `StartGame`, `Cashout`, `SetBet` and `SetBombCount` do not require this, because the handlers do not check it; so the model also admits a bet or slider change in the middle of a round, which the page does not show.
