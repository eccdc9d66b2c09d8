/** The results of playing a player split against dealer splits, as
    operator() of paigow.cpp's GameReduce counts them: the win/draw/loss
    rule, and tallies summed over a sequence of games. */
module Tallies {

  datatype Outcome = Win | Draw | Loss

  /** The rule of operator(): the player wins when both hands score strictly
      higher than the dealer's, loses when both score strictly lower, and
      draws otherwise. */
  function Play(playerLow: nat, playerHigh: nat, dealerLow: nat, dealerHigh: nat): Outcome
  {
    if playerLow > dealerLow && playerHigh > dealerHigh then Win
    else if playerLow < dealerLow && playerHigh < dealerHigh then Loss
    else Draw
  }

  /** The wins, draws and losses counted so far. */
  datatype Tally = Tally(wins: nat, draws: nat, losses: nat)

  function Add(s: Tally, t: Tally): Tally
  {
    Tally(s.wins + t.wins, s.draws + t.draws, s.losses + t.losses)
  }

  function Total(t: Tally): nat
  {
    t.wins + t.draws + t.losses
  }

  /** The tally of one game. */
  function One(o: Outcome): Tally
  {
    match o
    case Win => Tally(1, 0, 0)
    case Draw => Tally(0, 1, 0)
    case Loss => Tally(0, 0, 1)
  }

  lemma OneTotal(o: Outcome)
    ensures Total(One(o)) == 1
  {
  }

  lemma AddTotal(s: Tally, t: Tally)
    ensures Total(Add(s, t)) == Total(s) + Total(t)
  {
  }

  lemma AddAssociative(r: Tally, s: Tally, t: Tally)
    ensures Add(Add(r, s), t) == Add(r, Add(s, t))
  {
  }

  /** The results of the player split with scores (pl, ph) against each of
      the dealer splits scored in s. */
  function TallyVs(pl: nat, ph: nat, s: seq<(nat, nat)>): Tally
  {
    if |s| == 0 then Tally(0, 0, 0)
    else Add(TallyVs(pl, ph, s[..|s| - 1]), One(Play(pl, ph, s[|s| - 1].0, s[|s| - 1].1)))
  }

  /** Each dealer split is played once. */
  lemma {:induction false} TallyVsTotal(pl: nat, ph: nat, s: seq<(nat, nat)>)
    ensures Total(TallyVs(pl, ph, s)) == |s|
  {
    if |s| > 0 {
      TallyVsTotal(pl, ph, s[..|s| - 1]);
      OneTotal(Play(pl, ph, s[|s| - 1].0, s[|s| - 1].1));
      AddTotal(TallyVs(pl, ph, s[..|s| - 1]), One(Play(pl, ph, s[|s| - 1].0, s[|s| - 1].1)));
    }
  }

  /** The sum of the tallies f(b), ..., f(e-1): the results against the
      dealer hands b, ..., e-1 when f(d) is the result against hand d. */
  function RangeSum(f: nat -> Tally, b: nat, e: nat): Tally
    decreases e - b
  {
    if e <= b then Tally(0, 0, 0) else Add(RangeSum(f, b, e - 1), f(e - 1))
  }

  /** Summing [b, m) and [m, e) separately and adding the sums gives the sum
      over [b, e): the fact that lets a range be split and joined. */
  lemma {:induction false} RangeSumSplit(f: nat -> Tally, b: nat, m: nat, e: nat)
    requires b <= m <= e
    ensures RangeSum(f, b, e) == Add(RangeSum(f, b, m), RangeSum(f, m, e))
    decreases e - m
  {
    if e > m {
      RangeSumSplit(f, b, m, e - 1);
      AddAssociative(RangeSum(f, b, m), RangeSum(f, m, e - 1), f(e - 1));
    }
  }

  /** When every f(d) counts n games, the sum over [b, e) counts n games per
      element of the range. */
  lemma {:induction false} RangeSumTotal(f: nat -> Tally, b: nat, e: nat, n: nat)
    requires b <= e
    requires forall d :: b <= d < e ==> Total(f(d)) == n
    ensures Total(RangeSum(f, b, e)) == (e - b) * n
    decreases e - b
  {
    if e > b {
      var m := e - 1;
      RangeSumTotal(f, b, m, n);
      RangeSumTotalStep(f, b, m, e, n);
    } else {
      assert RangeSum(f, b, e) == Tally(0, 0, 0);
      MulZero(e - b, n);
    }
  }

  /** One more element of n games adds n to the total. */
  lemma RangeSumTotalStep(f: nat -> Tally, b: nat, m: nat, e: nat, n: nat)
    requires b <= m && e == m + 1 && Total(f(m)) == n
    requires Total(RangeSum(f, b, m)) == (m - b) * n
    ensures Total(RangeSum(f, b, e)) == (e - b) * n
  {
    var before := RangeSum(f, b, m);
    assert RangeSum(f, b, e) == Add(before, f(m));
    AddTotal(before, f(m));
    CountStep(Total(before), Total(RangeSum(f, b, e)), b, m, e, n);
  }

  /** The arithmetic of that step, kept apart from the tallies. */
  lemma CountStep(x: nat, y: nat, b: nat, m: nat, e: nat, n: nat)
    requires b <= m && e == m + 1 && x == (m - b) * n && y == x + n
    ensures y == (e - b) * n
  {
    MulNext(m - b, e - b, n);
  }

  lemma MulNext(a: nat, k: nat, n: nat)
    requires k == a + 1
    ensures k * n == a * n + n
  {
  }

  lemma MulZero(k: nat, n: nat)
    requires k == 0
    ensures k * n == 0
  {
  }
}
