/** The grid game ("Sapper"): a 5x5 board with hidden bombs, the payout curve
    that prices each safe reveal, the effect that places the bombs, the click
    handler and the delayed step that ends a lost round. */
module Sapper {
  import opened Wager
  import opened Arithmetic

  const Cells := 25

  // ---------------------------------------------------------------------------
  // The payout curve

  /** The curve in exact arithmetic: 1 + (openedSafe / safeCells) * (1 + bombCount / 10). */
  function ExactMultiplier(bombCount: int, openedSafe: int): real
    requires 0 <= bombCount < Cells
  {
    1.0 + (openedSafe as real / (Cells - bombCount) as real) * (1.0 + bombCount as real / 10.0)
  }

  /** `calculateMultiplier`: the curve rounded to two decimals, halves upwards,
      as `toFixed(2)` does; the result is in hundredths. */
  function CalculateMultiplier(bombCount: int, openedSafe: nat): (m: int)
    requires 0 <= bombCount < Cells
    ensures One <= m
    ensures m as real - 0.5 <= 100.0 * ExactMultiplier(bombCount, openedSafe) < m as real + 0.5
  {
    var safeCells := Cells - bombCount;
    var excess := Excess(bombCount, openedSafe);
    var q := (2 * excess + safeCells) / (2 * safeCells);
    RoundsHalfUp(bombCount, openedSafe, q);
    One + q
  }

  /** The curve's excess over x1.00, in hundredths, times the safe cells. */
  function Excess(bombCount: int, openedSafe: nat): int
  {
    10 * openedSafe * (10 + bombCount)
  }

  /** The integer quotient in `CalculateMultiplier` is the exact curve's excess
      over x1.00, in hundredths, rounded to the nearest integer. */
  lemma RoundsHalfUp(bombCount: int, openedSafe: nat, q: int)
    requires 0 <= bombCount < Cells
    requires q == (2 * Excess(bombCount, openedSafe) + (Cells - bombCount)) / (2 * (Cells - bombCount))
    ensures 0 <= q
    ensures (One + q) as real - 0.5 <= 100.0 * ExactMultiplier(bombCount, openedSafe) < (One + q) as real + 0.5
  {
    var s, a := Cells - bombCount, Excess(bombCount, openedSafe);
    assert 0 <= a by {
      MulMonotone(10 * openedSafe, 0, 10 + bombCount);
    }
    HalfUpQuotient(a, s, q);
    NearestInteger(a, s, q);
    ExactInHundredths(bombCount, openedSafe);
  }

  /** The curve, scaled to hundredths, as one fraction over the safe cells. */
  lemma ExactInHundredths(bombCount: int, openedSafe: nat)
    requires 0 <= bombCount < Cells
    ensures 100.0 * ExactMultiplier(bombCount, openedSafe)
         == 100.0 + Excess(bombCount, openedSafe) as real / (Cells - bombCount) as real
  {
    var sr := (Cells - bombCount) as real;
    var x := openedSafe as real / sr;
    var c := 10.0 * (10 + bombCount) as real;
    assert 100.0 * (1.0 + bombCount as real / 10.0) == c;
    CastProduct(10 * openedSafe, 10 + bombCount);
    assert (10 * openedSafe * (10 + bombCount)) as real == openedSafe as real * c;
    assert x * c == (openedSafe as real * c) / sr;
  }

  /** No safe cell opened: the multiplier is exactly x1.00. */
  lemma MultiplierAtStart(bombCount: int)
    requires 0 <= bombCount < Cells
    ensures CalculateMultiplier(bombCount, 0) == One
  {
    var s := Cells - bombCount;
    assert s / (2 * s) == 0;
  }

  /** For a fixed bomb count, opening more safe cells never lowers the
      (rounded) multiplier. */
  lemma MultiplierMonotone(bombCount: int, k1: nat, k2: nat)
    requires 0 <= bombCount < Cells
    requires k1 <= k2
    ensures CalculateMultiplier(bombCount, k1) <= CalculateMultiplier(bombCount, k2)
  {
    var s := Cells - bombCount;
    var e1, e2 := Excess(bombCount, k1), Excess(bombCount, k2);
    assert e1 <= e2 by {
      MulMonotone(10 + bombCount, 10 * k1, 10 * k2);
    }
    DivMonotone(2 * e1 + s, 2 * e2 + s, 2 * s);
  }

  /** Every safe cell opened: the multiplier is 2 + bombCount / 10 exactly. */
  lemma MultiplierAtFullBoard(bombCount: int)
    requires 0 <= bombCount < Cells
    ensures CalculateMultiplier(bombCount, Cells - bombCount) == 2 * One + 10 * bombCount
  {
    var s := Cells - bombCount;
    var e := Excess(bombCount, s);
    assert 2 * e == (2 * s) * (10 * (10 + bombCount));
    DivExact(2 * s, 10 * (10 + bombCount), s);
  }

  // ---------------------------------------------------------------------------
  // Counting the opened safe cells

  /** Reading `bombs[i]`: a missing element (no board yet) is `undefined`,
      which reads as "no bomb"; on a board it is that cell's flag. */
  function BombAt(bombs: seq<bool>, i: int): (b: bool)
    ensures b <==> 0 <= i && i as nat in BombSet(bombs)
    ensures bombs == [] ==> !b
  {
    0 <= i < |bombs| && bombs[i]
  }

  /** The cells that are revealed and are not bombs. */
  function SafeOpened(revealed: seq<bool>, bombs: seq<bool>): set<nat>
  {
    set i: nat | i < |revealed| && revealed[i] && !BombAt(bombs, i)
  }

  /** The number of revealed non-bomb cells: it is the left-to-right
      `filter(...).length` count over the whole board, so at most its size. */
  function OpenedSafe(revealed: seq<bool>, bombs: seq<bool>): (n: nat)
    ensures n == SafeCount(revealed, bombs, |revealed|)
    ensures n <= |revealed|
  {
    assert SafeOpened(revealed, bombs) == SafePrefix(revealed, bombs, |revealed|);
    SafePrefixCount(revealed, bombs, |revealed|);
    |SafeOpened(revealed, bombs)|
  }

  /** `filter((r, i) => r && !bombs[i]).length` over the first `k` cells. */
  function SafeCount(revealed: seq<bool>, bombs: seq<bool>, k: nat): nat
    requires k <= |revealed|
  {
    if k == 0 then 0
    else SafeCount(revealed, bombs, k - 1) + (if revealed[k - 1] && !BombAt(bombs, k - 1) then 1 else 0)
  }

  /** The revealed non-bomb cells among the first `k`. */
  function SafePrefix(revealed: seq<bool>, bombs: seq<bool>, k: nat): set<nat>
    requires k <= |revealed|
  {
    set i: nat | i < k && revealed[i] && !BombAt(bombs, i)
  }

  /** Counting the cells one by one gives the size of the set of them. */
  lemma {:induction false} SafePrefixCount(revealed: seq<bool>, bombs: seq<bool>, k: nat)
    requires k <= |revealed|
    ensures |SafePrefix(revealed, bombs, k)| == SafeCount(revealed, bombs, k) <= k
  {
    if k > 0 {
      SafePrefixCount(revealed, bombs, k - 1);
      var before, after := SafePrefix(revealed, bombs, k - 1), SafePrefix(revealed, bombs, k);
      var safe := revealed[k - 1] && !BombAt(bombs, k - 1);
      assert after == before + (if safe then {k - 1} else {});
    }
  }

  /** Revealing one more safe cell adds exactly one to the count. */
  lemma RevealSafeAddsOne(revealed: seq<bool>, bombs: seq<bool>, i: int)
    requires 0 <= i < |revealed| && !revealed[i] && !BombAt(bombs, i)
    ensures OpenedSafe(revealed[i := true], bombs) == OpenedSafe(revealed, bombs) + 1
  {
    assert SafeOpened(revealed[i := true], bombs) == SafeOpened(revealed, bombs) + {i};
  }

  /** So a safe reveal never lowers the multiplier. */
  lemma SafeRevealRaisesMultiplier(bombCount: int, revealed: seq<bool>, bombs: seq<bool>, i: int)
    requires 0 <= bombCount < Cells
    requires 0 <= i < |revealed| && !revealed[i] && !BombAt(bombs, i)
    ensures CalculateMultiplier(bombCount, OpenedSafe(revealed, bombs))
         <= CalculateMultiplier(bombCount, OpenedSafe(revealed[i := true], bombs))
  {
    RevealSafeAddsOne(revealed, bombs, i);
    MultiplierMonotone(bombCount, OpenedSafe(revealed, bombs), OpenedSafe(revealed[i := true], bombs));
  }

  /** The cells of a board that hold a bomb. */
  function BombSet(bombs: seq<bool>): set<nat>
  {
    set i: nat | i < |bombs| && bombs[i]
  }

  /** The cells of a board that hold no bomb. */
  function SafeSet(bombs: seq<bool>): set<nat>
  {
    set i: nat | i < |bombs| && !bombs[i]
  }

  /** Every cell is either a bomb or safe. */
  lemma {:induction false} BoardSplits(bombs: seq<bool>)
    ensures |BombSet(bombs)| + |SafeSet(bombs)| == |bombs|
  {
    if bombs != [] {
      var n := |bombs| - 1;
      var front := bombs[..n];
      BoardSplits(front);
      if bombs[n] {
        assert BombSet(bombs) == BombSet(front) + {n};
        assert SafeSet(bombs) == SafeSet(front);
      } else {
        assert BombSet(bombs) == BombSet(front);
        assert SafeSet(bombs) == SafeSet(front) + {n};
      }
    }
  }

  lemma {:induction false} SubsetSize<T>(a: set<T>, b: set<T>)
    requires a <= b
    ensures |a| <= |b|
    decreases |b|
  {
    if a != {} {
      var x :| x in a;
      SubsetSize(a - {x}, b - {x});
    }
  }

  /** On a full board with `bombCount` bombs at most `Cells - bombCount` safe
      cells can be open, so the multiplier never exceeds 2 + bombCount / 10. */
  lemma MultiplierCeiling(bombCount: int, revealed: seq<bool>, bombs: seq<bool>)
    requires 0 <= bombCount < Cells
    requires |revealed| == Cells && |bombs| == Cells && |BombSet(bombs)| == bombCount
    ensures OpenedSafe(revealed, bombs) <= Cells - bombCount
    ensures CalculateMultiplier(bombCount, OpenedSafe(revealed, bombs)) <= 2 * One + 10 * bombCount
  {
    BoardSplits(bombs);
    SubsetSize(SafeOpened(revealed, bombs), SafeSet(bombs));
    MultiplierMonotone(bombCount, OpenedSafe(revealed, bombs), Cells - bombCount);
    MultiplierAtFullBoard(bombCount);
  }

  /** The board is kept after a cash-out and priced with the slider's count
      at the next start. A board placed with 3 bombs has 22 safe cells;
      priced with 15 bombs, opening all of them gives x6.50, above both the
      x3.50 ceiling of a 15-bomb board and the x2.30 of the board's own. */
  lemma StaleBoardPricing(revealed: seq<bool>, bombs: seq<bool>)
    requires |revealed| == Cells && |bombs| == Cells && |BombSet(bombs)| == 3
    requires forall i :: 0 <= i < Cells ==> (revealed[i] <==> !bombs[i])
    ensures OpenedSafe(revealed, bombs) == Cells - 3
    ensures CalculateMultiplier(15, OpenedSafe(revealed, bombs)) == 650
    ensures CalculateMultiplier(15, OpenedSafe(revealed, bombs)) > 2 * One + 10 * 15
    ensures CalculateMultiplier(15, OpenedSafe(revealed, bombs)) > CalculateMultiplier(3, Cells - 3)
  {
    BoardSplits(bombs);
    assert SafeOpened(revealed, bombs) == SafeSet(bombs);
    MultiplierAtFullBoard(3);
  }

  // ---------------------------------------------------------------------------
  // Placing the bombs

  /** The distinct values among the draws. */
  function Elems(draws: seq<nat>): set<nat>
  {
    set d | d in draws
  }

  /** The set-building loop: add draws one at a time until `count` distinct
      cells are chosen; a repeated draw adds nothing. The chosen cells are
      kept, and the loop never overshoots `count`. */
  function DrawFrom(chosen: set<nat>, draws: seq<nat>, count: int): (r: set<nat>)
    ensures chosen <= r
    ensures |chosen| <= count ==> |r| <= count
    decreases |draws|
  {
    if |chosen| >= count || draws == [] then chosen
    else DrawFrom(chosen + {draws[0]}, draws[1..], count)
  }

  /** Given enough distinct draws, exactly `count` cells are chosen. */
  lemma {:induction false} DrawnSize(chosen: set<nat>, draws: seq<nat>, count: int)
    requires |chosen| <= count <= |chosen + Elems(draws)|
    ensures |DrawFrom(chosen, draws, count)| == count
    decreases |draws|
  {
    if |chosen| < count {
      assert draws != [];
      assert Elems(draws) == {draws[0]} + Elems(draws[1..]);
      assert chosen + Elems(draws) == (chosen + {draws[0]}) + Elems(draws[1..]);
      DrawnSize(chosen + {draws[0]}, draws[1..], count);
    }
  }

  /** Only drawn cells are chosen. */
  lemma {:induction false} DrawnWithin(chosen: set<nat>, draws: seq<nat>, count: int)
    ensures DrawFrom(chosen, draws, count) <= chosen + Elems(draws)
    decreases |draws|
  {
    if !(|chosen| >= count || draws == []) {
      assert Elems(draws) == {draws[0]} + Elems(draws[1..]);
      DrawnWithin(chosen + {draws[0]}, draws[1..], count);
    }
  }

  /** The layout the effect builds from a fresh set of `bombCount` draws:
      exactly `bombCount` distinct cells, all on the board. */
  lemma LayoutFromDraws(draws: seq<nat>, bombCount: int)
    requires forall j :: 0 <= j < |draws| ==> draws[j] < Cells
    requires 0 <= bombCount <= |Elems(draws)|
    ensures |DrawFrom({}, draws, bombCount)| == bombCount
    ensures forall c :: c in DrawFrom({}, draws, bombCount) ==> c < Cells
  {
    assert {} + Elems(draws) == Elems(draws);
    DrawnSize({}, draws, bombCount);
    DrawnWithin({}, draws, bombCount);
  }

  /** The rejection loop of the placement effect: keep drawing until the set
      of chosen cells has `count` elements. */
  method DrawPositions(count: int, draws: seq<nat>) returns (positions: set<nat>)
    requires forall j :: 0 <= j < |draws| ==> draws[j] < Cells
    requires 0 <= count <= |Elems(draws)|
    ensures positions == DrawFrom({}, draws, count)
    ensures |positions| == count
    ensures forall c :: c in positions ==> c < Cells
  {
    LayoutFromDraws(draws, count);
    positions := {};
    var i := 0;
    while |positions| < count
      invariant 0 <= i <= |draws|
      invariant DrawFrom(positions, draws[i..], count) == DrawFrom({}, draws, count)
      decreases |draws| - i
    {
      assert i < |draws|;
      assert draws[i..][1..] == draws[i + 1..];
      positions := positions + {draws[i]};
      i := i + 1;
    }
  }

  /** `positions.forEach(p => b[p] = true)` on a fresh all-false board. */
  method MarkPositions(positions: set<nat>) returns (b: array<bool>)
    requires forall c :: c in positions ==> c < Cells
    ensures fresh(b) && b.Length == Cells && BombSet(b[..]) == positions
  {
    b := new bool[Cells](_ => false);
    var rest := positions;
    while rest != {}
      invariant rest <= positions
      invariant forall c :: 0 <= c < Cells ==> (b[c] <==> c in positions - rest)
      decreases rest
    {
      var p :| p in rest;
      b[p] := true;
      rest := rest - {p};
    }
    assert BombSet(b[..]) == positions;
  }

  // ---------------------------------------------------------------------------
  // The component

  class SapperGame {
    var revealed: array<bool>
    /** Empty until the effect places the bombs, then one flag per cell. */
    var bombs: array<bool>
    var gameOver: bool

    ghost predicate Valid()
      reads this
    {
      && revealed.Length == Cells
      && (bombs.Length == 0 || bombs.Length == Cells)
      && revealed != bombs
      && (gameOver ==> bombs.Length == Cells)
    }

    /** Mounting: nothing revealed, no board, not over. */
    constructor ()
      ensures Valid() && fresh(revealed) && fresh(bombs)
      ensures (forall i :: 0 <= i < Cells ==> !revealed[i]) && bombs.Length == 0 && !gameOver
    {
      revealed := new bool[Cells](_ => false);
      bombs := new bool[0];
      gameOver := false;
    }

    /** Whether a click on `index` gets past the handler's guard: nothing
        passes while not playing or once a bomb has been hit, and a cell that
        passes is not yet among the opened safe cells. */
    predicate Accepts(isPlaying: bool, index: int): (a: bool)
      reads this, revealed
      requires Valid() && 0 <= index < Cells
      ensures !isPlaying || gameOver ==> !a
      ensures a ==> !revealed[index]
      ensures a ==> index as nat !in SafeOpened(revealed[..], bombs[..])
    {
      isPlaying && !revealed[index] && !gameOver
    }

    /** The placement effect: runs only while playing with no board, and then
        draws cells (`draws` stands for the successive `Math.random` picks)
        until `bombCount` distinct cells are chosen. */
    method GenerateBoard(view: GameView, draws: seq<nat>)
      requires Valid() && view.Valid()
      requires forall j :: 0 <= j < |draws| ==> draws[j] < Cells
      requires view.isPlaying && bombs.Length == 0 ==> view.bombCount <= |Elems(draws)|
      modifies this`bombs
      ensures Valid()
      ensures old(view.isPlaying && bombs.Length == 0) ==>
        && fresh(bombs) && bombs.Length == Cells
        && BombSet(bombs[..]) == DrawFrom({}, draws, view.bombCount)
        && |BombSet(bombs[..])| == view.bombCount
      ensures !old(view.isPlaying && bombs.Length == 0) ==> bombs == old(bombs)
    {
      if !(view.isPlaying && bombs.Length == 0) {
        return;
      }
      var positions := DrawPositions(view.bombCount, draws);
      bombs := MarkPositions(positions);
    }

    /** The click handler. Ignored unless playing, the cell is hidden and the
        round is not over. A safe cell is revealed and the multiplier becomes
        the curve at the new count of opened safe cells; a bomb marks the round
        over (`gameOver`) while it is still playing, and discloses every bomb,
        leaving the multiplier alone. */
    method HandleClick(view: GameView, index: int)
      requires Valid() && view.Valid()
      requires 0 <= index < Cells
      modifies this`gameOver, revealed, view`multiplier
      ensures Valid() && view.Valid()
      ensures !old(Accepts(view.isPlaying, index)) ==>
        && revealed[..] == old(revealed[..]) && gameOver == old(gameOver)
        && view.multiplier == old(view.multiplier)
      ensures old(Accepts(view.isPlaying, index)) && !BombAt(bombs[..], index) ==>
        && revealed[..] == old(revealed[..])[index := true] && !gameOver
        && view.multiplier == CalculateMultiplier(view.bombCount, OpenedSafe(revealed[..], bombs[..]))
      ensures old(Accepts(view.isPlaying, index)) && BombAt(bombs[..], index) ==>
        && gameOver && view.isPlaying && view.multiplier == old(view.multiplier)
        && forall i :: 0 <= i < Cells ==> revealed[i] == (old(revealed[i]) || bombs[i])
    {
      if !view.isPlaying || revealed[index] || gameOver {
        return;
      }
      var previous := revealed[..];
      revealed[index] := true;
      if BombAt(bombs[..], index) {
        gameOver := true;
        forall i | 0 <= i < Cells {
          revealed[i] := bombs[i] || previous[i];
        }
      } else {
        view.multiplier := CalculateMultiplier(view.bombCount, OpenedSafe(revealed[..], bombs[..]));
      }
    }

    /** The step scheduled 1500 ms after a bomb: ends the round through the
        view's game-over callback, hides every cell, drops the board and clears
        the game-over flag. */
    method ResolveLoss(view: GameView)
      requires Valid() && view.Valid()
      modifies this`revealed, this`bombs, this`gameOver, view`isPlaying
      ensures Valid() && view.Valid()
      ensures fresh(revealed) && fresh(bombs)
      ensures !view.isPlaying && !gameOver && bombs.Length == 0
      ensures forall i :: 0 <= i < Cells ==> !revealed[i]
    {
      view.GameOver();
      revealed := new bool[Cells](_ => false);
      bombs := new bool[0];
      gameOver := false;
    }
  }
}
