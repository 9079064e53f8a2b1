/** The wager lifecycle of the casino's game view: the balance and the bet that
    the page holds, and the play flag, the running multiplier and the bomb-count
    slider that the view holds. Multipliers are kept in exact hundredths. */
module Wager {

  /** Bounds of the bomb-count slider. */
  const MinBombs := 3
  const MaxBombs := 15

  /** A multiplier is a whole number of hundredths: `One` stands for x1.00. */
  const One := 100

  /** What a cash-out credits: the wager times the multiplier, rounded down. */
  function Payout(bet: int, multiplier: int): (win: int)
    ensures win * One <= bet * multiplier < win * One + One
  {
    (bet * multiplier) / One
  }

  /** At multiplier x1.00 the payout is the wager itself. */
  lemma PayoutAtOne(bet: int)
    ensures Payout(bet, One) == bet
  {
  }

  /** For a non-negative wager, a larger multiplier never pays less. */
  lemma PayoutMonotone(bet: int, m1: int, m2: int)
    requires 0 <= bet && m1 <= m2
    ensures Payout(bet, m1) <= Payout(bet, m2)
  {
    assert bet * m1 <= bet * m2 by {
      assert bet * m2 - bet * m1 == bet * (m2 - m1);
    }
  }

  /** Every multiplier the games produce is at least x1.00, so cashing out a
      non-negative wager never returns less than the wager. */
  lemma PayoutCoversWager(bet: int, multiplier: int)
    requires 0 <= bet && One <= multiplier
    ensures bet <= Payout(bet, multiplier)
  {
    PayoutMonotone(bet, One, multiplier);
    PayoutAtOne(bet);
  }

  /** The state of one mounted game view, together with the page's balance and
      bet that the view reads and writes through its props. */
  class GameView {
    var balance: int
    var bet: int
    var isPlaying: bool
    /** The current multiplier, in hundredths. */
    var multiplier: int
    var bombCount: int

    ghost predicate Valid()
      reads this
    {
      MinBombs <= bombCount <= MaxBombs && One <= multiplier
    }

    /** Mounting the view: not playing, multiplier x1, three bombs. */
    constructor (balance: int, bet: int)
      ensures Valid()
      ensures this.balance == balance && this.bet == bet
      ensures !isPlaying && multiplier == One && bombCount == MinBombs
    {
      this.balance := balance;
      this.bet := bet;
      isPlaying := false;
      multiplier := One;
      bombCount := MinBombs;
    }

    /** The bet input (the page keeps whatever number is typed). */
    method SetBet(value: int)
      requires Valid()
      modifies this`bet
      ensures Valid() && bet == value
    {
      bet := value;
    }

    /** The bomb-count slider, whose range is 3 to 15. */
    method SetBombCount(value: int)
      requires Valid()
      requires MinBombs <= value <= MaxBombs
      modifies this`bombCount
      ensures Valid() && bombCount == value
    {
      bombCount := value;
    }

    /** Refuses a bet above the balance; otherwise debits it and starts a round
        at multiplier x1.00. */
    method StartGame()
      requires Valid()
      modifies this`balance, this`isPlaying, this`multiplier
      ensures Valid()
      ensures old(bet > balance) ==> unchanged(this)
      ensures old(bet <= balance) ==> balance == old(balance) - bet && isPlaying && multiplier == One
    {
      if bet > balance {
        return;
      }
      balance := balance - bet;
      isPlaying := true;
      multiplier := One;
    }

    /** Credits the wager times the current multiplier, rounded down, and ends
        the round. The multiplier itself is left as it is. */
    method Cashout()
      requires Valid()
      modifies this`balance, this`isPlaying
      ensures Valid()
      ensures balance == old(balance) + Payout(bet, multiplier) && !isPlaying
    {
      var win := Payout(bet, multiplier);
      balance := balance + win;
      isPlaying := false;
    }

    /** The `onGameOver` callback both games receive: it only ends the round;
        the balance stays debited and the multiplier is not reset. */
    method GameOver()
      requires Valid()
      modifies this`isPlaying
      ensures Valid() && !isPlaying
    {
      isPlaying := false;
    }
  }
}
