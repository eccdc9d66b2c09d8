/** poker.py's search over splits. all_hands enumerates the ways to split a
    hand into a two-card low hand and a five-card high hand; evaluate_hands
    scores every split of the player's cards and of the dealer's, plays each
    player split against each dealer split, and ranks the player's splits by
    their (wins, draws, losses). */
module PokerGame {
  import opened Wrappers
  import opened Binomial
  import opened Sorting
  import opened Tallies
  import opened PokerCards
  import opened PokerScore
  import opened PokerRanking

  // ---------------------------------------------------------------------
  // itertools.combinations

  /** itertools.combinations(xs, k): the k-element subsequences of xs in
      lexicographic order of positions, so those that take xs[0] come first,
      then those that skip it. There are Binom(|xs|, k) of them. */
  function Combos<T>(xs: seq<T>, k: nat): (r: seq<seq<T>>)
    ensures |r| == Binom(|xs|, k)
    decreases |xs|
  {
    if k == 0 then [[]]
    else if |xs| == 0 then []
    else Prepend(xs[0], Combos(xs[1..], k - 1)) + Combos(xs[1..], k)
  }

  function Prepend<T>(x: T, cs: seq<seq<T>>): seq<seq<T>>
  {
    seq(|cs|, i requires 0 <= i < |cs| => [x] + cs[i])
  }

  /** Every sequence of cs has k elements, drawn from the multiset m. */
  predicate AllDrawn<T>(cs: seq<seq<T>>, k: nat, m: multiset<T>)
  {
    forall i :: 0 <= i < |cs| ==> |cs[i]| == k && multiset(cs[i]) <= m
  }

  /** Every combination has k elements, drawn from xs. */
  lemma CombosFacts<T>(xs: seq<T>, k: nat)
    ensures forall c :: c in Combos(xs, k) ==> |c| == k && multiset(c) <= multiset(xs)
  {
    CombosDrawn(xs, k);
    DrawnMembers(Combos(xs, k), k, multiset(xs));
  }

  /** The index form of AllDrawn, restated for membership. */
  lemma DrawnMembers<T>(cs: seq<seq<T>>, k: nat, m: multiset<T>)
    requires AllDrawn(cs, k, m)
    ensures forall c :: c in cs ==> |c| == k && multiset(c) <= m
  {
    forall c | c in cs
      ensures |c| == k && multiset(c) <= m
    {
      var i :| 0 <= i < |cs| && cs[i] == c;
    }
  }

  lemma {:induction false} CombosDrawn<T>(xs: seq<T>, k: nat)
    ensures AllDrawn(Combos(xs, k), k, multiset(xs))
    decreases |xs|
  {
    if k == 0 {
      assert Combos(xs, k) == [[]];
    } else if |xs| > 0 {
      CombosDrawn(xs[1..], k - 1);
      CombosDrawn(xs[1..], k);
      CombosStep(xs, k);
    }
  }

  /** The combinations of a non-empty sequence, those taking its first
      element and then those skipping it, are drawn from it when the
      combinations of its tail are drawn from the tail. */
  lemma {:induction false} CombosStep<T>(xs: seq<T>, k: nat)
    requires k > 0 && |xs| > 0
    requires AllDrawn(Combos(xs[1..], k - 1), k - 1, multiset(xs[1..]))
    requires AllDrawn(Combos(xs[1..], k), k, multiset(xs[1..]))
    ensures AllDrawn(Combos(xs, k), k, multiset(xs))
  {
    var taken, skipped := Combos(xs[1..], k - 1), Combos(xs[1..], k);
    var all := Combos(xs, k);
    assert all == Prepend(xs[0], taken) + skipped;
    HeadTail(xs);
    forall i | 0 <= i < |all|
      ensures |all[i]| == k && multiset(all[i]) <= multiset(xs)
    {
      if i < |taken| {
        assert all[i] == [xs[0]] + taken[i];
        assert multiset(all[i]) == multiset{xs[0]} + multiset(taken[i]);
      } else {
        assert all[i] == skipped[i - |taken|];
      }
    }
  }

  /** Taking all of xs gives xs alone. */
  lemma {:induction false} CombosAll<T>(xs: seq<T>)
    ensures Combos(xs, |xs|) == [xs]
  {
    if |xs| > 0 {
      var rest := xs[1..];
      CombosAll(rest);
      assert [xs[0]] + rest == xs;
      assert Prepend(xs[0], [rest]) == [[xs[0]] + rest];
      assert |Combos(rest, |xs|)| == 0;
    }
  }

  // ---------------------------------------------------------------------
  // all_hands

  /** No element occurs twice: a hand dealt from one deck. */
  predicate Distinct<T(==)>(s: seq<T>)
  {
    forall i, j :: 0 <= i < j < |s| ==> s[i] != s[j]
  }

  /** [x for x in hand if x not in low]. */
  function Remaining<T(==)>(hand: seq<T>, low: seq<T>): seq<T>
  {
    if |hand| == 0 then []
    else (if hand[0] in low then [] else [hand[0]]) + Remaining(hand[1..], low)
  }

  /** The remaining cards are the cards of the hand that are not in the low
      hand. */
  lemma {:induction false} RemainingMembers<T>(hand: seq<T>, low: seq<T>)
    ensures forall x :: x in Remaining(hand, low) <==> x in hand && x !in low
  {
    if |hand| > 0 {
      RemainingMembers(hand[1..], low);
      assert hand == [hand[0]] + hand[1..];
    }
  }

  /** The remaining cards are drawn from the hand. */
  lemma {:induction false} RemainingSub<T>(hand: seq<T>, low: seq<T>)
    ensures multiset(Remaining(hand, low)) <= multiset(hand)
  {
    if |hand| > 0 {
      var rest := hand[1..];
      RemainingSub(rest, low);
      HeadTail(hand);
      var kept := if hand[0] in low then [] else [hand[0]];
      assert Remaining(hand, low) == kept + Remaining(rest, low);
      assert multiset(kept) <= multiset{hand[0]};
    }
  }

  /** In a hand without repeats, taking out two different cards of the low
      hand leaves the rest: the two parts together are the hand. */
  lemma {:induction false} RemainingSplit<T>(hand: seq<T>, a: T, b: T)
    requires Distinct(hand) && a != b
    ensures multiset(Remaining(hand, [a, b]))
      + (if a in hand then multiset{a} else multiset{})
      + (if b in hand then multiset{b} else multiset{}) == multiset(hand)
  {
    if |hand| > 0 {
      var rest := hand[1..];
      assert Distinct(rest);
      RemainingSplit(rest, a, b);
      HeadTail(hand);
      var kept := if hand[0] in [a, b] then [] else [hand[0]];
      assert Remaining(hand, [a, b]) == kept + Remaining(rest, [a, b]);
      assert hand[0] !in rest;
      assert a in hand <==> a == hand[0] || a in rest;
      assert b in hand <==> b == hand[0] || b in rest;
    }
  }

  /** A sequence without repeats holds each value at most once. */
  lemma {:induction false} DistinctOnce<T>(s: seq<T>, x: T)
    requires Distinct(s)
    ensures multiset(s)[x] <= 1
  {
    if |s| > 0 {
      var rest := s[1..];
      assert Distinct(rest);
      DistinctOnce(rest, x);
      assert s == [s[0]] + rest;
      assert s[0] !in rest;
    }
  }

  /** The splits that take each low hand of lows, in order, with each
      five-card combination of the cards left over. */
  function SplitsFrom<T(==)>(hand: seq<T>, lows: seq<seq<T>>): seq<(seq<T>, seq<T>)>
  {
    if |lows| == 0 then []
    else
      var highs := Combos(Remaining(hand, lows[0]), 5);
      seq(|highs|, j requires 0 <= j < |highs| => (lows[0], highs[j])) + SplitsFrom(hand, lows[1..])
  }

  /** all_hands(hand): every low pair with every high five of the cards that
      are not in the pair. */
  function AllHands<T(==)>(hand: seq<T>): seq<(seq<T>, seq<T>)>
  {
    SplitsFrom(hand, Combos(hand, 2))
  }

  /** Every split of all_hands is a pair and a five of cards of the hand,
      and no card of the pair is in the five. */
  lemma AllHandsShape<T>(hand: seq<T>)
    ensures forall s :: s in AllHands(hand) ==>
      && |s.0| == 2 && |s.1| == 5
      && multiset(s.0) <= multiset(hand) && multiset(s.1) <= multiset(hand)
      && forall x :: x in s.1 ==> x !in s.0
  {
    CombosFacts(hand, 2);
    SplitsFromShape(hand, Combos(hand, 2));
  }

  /** A split is a pair and a five of cards of the hand, and no card of the
      pair is in the five. */
  ghost predicate Shaped<T>(hand: seq<T>, s: (seq<T>, seq<T>))
  {
    && |s.0| == 2 && |s.1| == 5
    && multiset(s.0) <= multiset(hand) && multiset(s.1) <= multiset(hand)
    && forall x :: x in s.1 ==> x !in s.0
  }

  lemma {:induction false} SplitsFromShape<T>(hand: seq<T>, lows: seq<seq<T>>)
    requires forall l :: l in lows ==> |l| == 2 && multiset(l) <= multiset(hand)
    ensures forall s :: s in SplitsFrom(hand, lows) ==> Shaped(hand, s)
  {
    if |lows| > 0 {
      var low := lows[0];
      var highs := Combos(Remaining(hand, low), 5);
      var here := seq(|highs|, j requires 0 <= j < |highs| => (low, highs[j]));
      assert low in lows;
      SplitsFromShape(hand, lows[1..]);
      HighsShape(hand, low);
      assert SplitsFrom(hand, lows) == here + SplitsFrom(hand, lows[1..]);
      forall s | s in SplitsFrom(hand, lows)
        ensures Shaped(hand, s)
      {
        if s in here {
          var j :| 0 <= j < |here| && here[j] == s;
        }
      }
    }
  }

  /** A low pair of the hand with each five of the cards left over is a
      split of the right shape. */
  lemma HighsShape<T>(hand: seq<T>, low: seq<T>)
    requires |low| == 2 && multiset(low) <= multiset(hand)
    ensures forall j :: 0 <= j < |Combos(Remaining(hand, low), 5)| ==>
      Shaped(hand, (low, Combos(Remaining(hand, low), 5)[j]))
  {
    var left := Remaining(hand, low);
    var highs := Combos(left, 5);
    CombosFacts(left, 5);
    RemainingMembers(hand, low);
    RemainingSub(hand, low);
    forall j | 0 <= j < |highs|
      ensures Shaped(hand, (low, highs[j]))
    {
      assert highs[j] in highs;
      forall x | x in highs[j]
        ensures x !in low
      {
        assert x in multiset(highs[j]);
      }
    }
  }

  /** A hand's splits are all Sized for scoring. */
  lemma AllHandsSized(hand: seq<string>)
    ensures Sized(AllHands(hand))
  {
    AllHandsShape(hand);
    forall i | 0 <= i < |AllHands(hand)|
      ensures |AllHands(hand)[i].0| == 2 && |AllHands(hand)[i].1| == 5
    {
      assert AllHands(hand)[i] in AllHands(hand);
    }
  }

  /** When every low hand leaves m cards, each gives Binom(m, 5) splits. */
  lemma {:induction false} SplitsFromCount<T>(hand: seq<T>, lows: seq<seq<T>>, m: nat)
    requires forall l :: l in lows ==> |Remaining(hand, l)| == m
    ensures |SplitsFrom(hand, lows)| == |lows| * Binom(m, 5)
  {
    if |lows| > 0 {
      assert lows[0] in lows;
      SplitsFromCount(hand, lows[1..], m);
      MulNext(|lows| - 1, |lows|, Binom(m, 5));
    }
  }

  /** A low pair of a hand without repeats is two different cards of the
      hand, and it leaves the other |hand| - 2 cards. */
  lemma PairLeaves<T>(hand: seq<T>, low: seq<T>)
    requires Distinct(hand) && |low| == 2 && multiset(low) <= multiset(hand)
    ensures |Remaining(hand, low)| == |hand| - 2
    ensures multiset(low) + multiset(Remaining(hand, low)) == multiset(hand)
  {
    var a, b := low[0], low[1];
    assert low == [a, b];
    assert a in multiset(low) && b in multiset(low);
    if a == b {
      DistinctOnce(hand, a);
      assert false;
    }
    RemainingSplit(hand, a, b);
  }

  /** For a hand without repeats, all_hands gives Binom(n, 2) low pairs
      times Binom(n - 2, 5) high fives. */
  lemma AllHandsCount<T>(hand: seq<T>)
    requires Distinct(hand)
    ensures |AllHands(hand)| == if |hand| < 2 then 0 else Binom(|hand|, 2) * Binom(|hand| - 2, 5)
  {
    if |hand| >= 2 {
      var lows := Combos(hand, 2);
      CombosFacts(hand, 2);
      forall l | l in lows
        ensures |Remaining(hand, l)| == |hand| - 2
      {
        PairLeaves(hand, l);
      }
      SplitsFromCount(hand, lows, |hand| - 2);
    }
  }

  /** With seven cards and no repeats, the low pair fixes the high five:
      there are 21 splits, and each cuts the hand into a pair and the five
      other cards. */
  lemma SevenCardSplits<T>(hand: seq<T>)
    requires Distinct(hand) && |hand| == 7
    ensures |AllHands(hand)| == 21
    ensures forall s :: s in AllHands(hand) ==> multiset(s.0) + multiset(s.1) == multiset(hand)
  {
    SevenCardCount(hand);
    var lows := Combos(hand, 2);
    CombosFacts(hand, 2);
    forall l | l in lows
      ensures Combos(Remaining(hand, l), 5) == [Remaining(hand, l)]
      ensures multiset(l) + multiset(Remaining(hand, l)) == multiset(hand)
    {
      PairLeaves(hand, l);
      CombosAll(Remaining(hand, l));
    }
    SplitsFromWhole(hand, lows);
  }

  lemma SevenCardCount<T>(hand: seq<T>)
    requires Distinct(hand) && |hand| == 7
    ensures |AllHands(hand)| == 21
  {
    AllHandsCount(hand);
    BinomSevenTwo();
    BinomAll(5);
    assert Binom(|hand|, 2) * Binom(|hand| - 2, 5) == 21 * 1;
  }

  lemma {:induction false} SplitsFromWhole<T>(hand: seq<T>, lows: seq<seq<T>>)
    requires forall l :: l in lows ==>
      Combos(Remaining(hand, l), 5) == [Remaining(hand, l)]
      && multiset(l) + multiset(Remaining(hand, l)) == multiset(hand)
    ensures forall s :: s in SplitsFrom(hand, lows) ==> multiset(s.0) + multiset(s.1) == multiset(hand)
  {
    if |lows| > 0 {
      assert lows[0] in lows;
      SplitsFromWhole(hand, lows[1..]);
    }
  }

  // ---------------------------------------------------------------------
  // Scoring the splits

  type Split = (seq<string>, seq<string>)

  /** Splits with a two-card low hand and a five-card high hand, as
      all_hands makes them. */
  predicate Sized(splits: seq<Split>)
  {
    forall i :: 0 <= i < |splits| ==> |splits[i].0| == 2 && |splits[i].1| == 5
  }

  /** (small_hand_value(low), hand_value(high)): the low hand is scored
      first, so its error is the one raised. */
  function ScoreSplit(split: Split): Result<(int, int), PyError>
    requires |split.0| == 2 && |split.1| == 5
  {
    match SmallScore(split.0)
    case Failure(e) => Failure(e)
    case Success(low) =>
      match HandScore(split.1)
      case Failure(e) => Failure(e)
      case Success(high) => Success((low, high))
  }

  /** A sequence of results computed in order, as a comprehension computes
      its elements: the values, or the first failure, which stops it. */
  function Collect<X, E>(rs: seq<Result<X, E>>): (r: Result<seq<X>, E>)
    ensures r.Success? ==> |r.value| == |rs|
  {
    if |rs| == 0 then Success([])
    else
      match Collect(rs[..|rs| - 1])
      case Failure(e) => Failure(e)
      case Success(xs) =>
        match rs[|rs| - 1]
        case Failure(e) => Failure(e)
        case Success(x) => Success(xs + [x])
  }

  /** Collecting succeeds exactly when every result does, and then gives
      their values in order; otherwise it fails with the first failure. */
  lemma {:induction false} CollectSpec<X, E>(rs: seq<Result<X, E>>)
    ensures Collect(rs).Success? <==> forall i :: 0 <= i < |rs| ==> rs[i].Success?
    ensures Collect(rs).Success? ==> forall i :: 0 <= i < |rs| ==> Collect(rs).value[i] == rs[i].value
    ensures Collect(rs).Failure? ==>
      exists k :: 0 <= k < |rs| && rs[k] == Failure(Collect(rs).error)
        && forall i :: 0 <= i < k ==> rs[i].Success?
  {
    if |rs| > 0 {
      var n := |rs| - 1;
      var front := rs[..n];
      CollectSpec(front);
      assert forall i :: 0 <= i < n ==> front[i] == rs[i];
      if Collect(front).Failure? {
        var k :| 0 <= k < n && front[k] == Failure(Collect(front).error)
          && forall i :: 0 <= i < k ==> front[i].Success?;
        assert rs[k] == Failure(Collect(rs).error);
      } else if rs[n].Failure? {
        assert rs[n] == Failure(Collect(rs).error);
      }
    }
  }

  /** Once a prefix fails, the whole fails with the same error. */
  lemma {:induction false} CollectStop<X, E>(rs: seq<Result<X, E>>, j: nat)
    requires j <= |rs| && Collect(rs[..j]).Failure?
    ensures Collect(rs) == Collect(rs[..j])
  {
    if j < |rs| {
      var front := rs[..|rs| - 1];
      assert front[..j] == rs[..j];
      CollectStop(front, j);
    } else {
      assert rs[..j] == rs;
    }
  }

  /** The score of every split, each a value or an error. */
  function ScoreResults(splits: seq<Split>): seq<Result<(int, int), PyError>>
    requires Sized(splits)
  {
    seq(|splits|, i requires 0 <= i < |splits| => ScoreSplit(splits[i]))
  }

  /** [(small_hand_value(low), hand_value(high)) for low, high in splits]. */
  function Scores(splits: seq<Split>): Result<seq<(int, int)>, PyError>
    requires Sized(splits)
  {
    Collect(ScoreResults(splits))
  }

  /** The comprehension over the splits, scoring one split at a time and
      raising the first error. */
  method ScoreAll(splits: seq<Split>) returns (r: Result<seq<(int, int)>, PyError>)
    requires Sized(splits)
    ensures r == Scores(splits)
  {
    ghost var rs := ScoreResults(splits);
    var scores: seq<(int, int)> := [];
    var i := 0;
    while i < |splits|
      invariant 0 <= i <= |splits|
      invariant Collect(rs[..i]) == Success(scores)
    {
      var score := ScoreOne(splits[i]);
      assert score == rs[i];
      CollectNext(rs, i, scores);
      if score.Failure? {
        return Failure(score.error);
      }
      scores := scores + [score.value];
      i := i + 1;
    }
    assert rs[..i] == rs;
    return Success(scores);
  }

  /** One more result of a successful prefix: a success extends the
      collected values, and a failure is the error of the whole list. */
  lemma CollectNext<X, E>(rs: seq<Result<X, E>>, i: nat, xs: seq<X>)
    requires i < |rs| && Collect(rs[..i]) == Success(xs)
    ensures rs[i].Success? ==> Collect(rs[..i + 1]) == Success(xs + [rs[i].value])
    ensures rs[i].Failure? ==> Collect(rs) == Failure(rs[i].error)
  {
    assert rs[..i + 1][..i] == rs[..i];
    if rs[i].Failure? {
      CollectStop(rs, i + 1);
    }
  }

  /** (small_hand_value(low), hand_value(high)) for one split. */
  method ScoreOne(split: Split) returns (r: Result<(int, int), PyError>)
    requires |split.0| == 2 && |split.1| == 5
    ensures r == ScoreSplit(split)
  {
    var low := SmallScore(split.0);
    if low.Failure? {
      return Failure(low.error);
    }
    var high := HandValue(split.1);
    if high.Failure? {
      return Failure(high.error);
    }
    return Success((low.value, high.value));
  }

  // ---------------------------------------------------------------------
  // Playing the splits

  /** Python 2's cmp. */
  function Cmp(a: int, b: int): int
  {
    if a < b then -1 else if a > b then 1 else 0
  }

  /** The rule of evaluate_hands: the sum of the two comparisons; below 0 is
      a loss, above 1 a win, anything else a draw. */
  function PyPlay(mine: (int, int), theirs: (int, int)): Outcome
  {
    var cmpVal := Cmp(mine.0, theirs.0) + Cmp(mine.1, theirs.1);
    if cmpVal < 0 then Loss else if cmpVal > 1 then Win else Draw
  }

  /** The rule spelled out: the player wins by beating both hands, and
      loses by losing one hand without winning the other, so a tie in one
      hand and a loss in the other is a loss. */
  lemma PyPlayRule(mine: (int, int), theirs: (int, int))
    ensures PyPlay(mine, theirs) == Win <==> mine.0 > theirs.0 && mine.1 > theirs.1
    ensures PyPlay(mine, theirs) == Loss <==>
      (mine.0 < theirs.0 && mine.1 <= theirs.1) || (mine.0 <= theirs.0 && mine.1 < theirs.1)
  {
  }

  /** evaluate_hands and paigow.cpp agree on wins and on losses in both
      hands; they differ exactly where one hand loses and the other ties,
      a loss here and a draw in paigow.cpp. */
  lemma PyPlayVsPlay(pl: nat, ph: nat, dl: nat, dh: nat)
    ensures PyPlay((pl, ph), (dl, dh)) == Win <==> Play(pl, ph, dl, dh) == Win
    ensures Play(pl, ph, dl, dh) == Loss ==> PyPlay((pl, ph), (dl, dh)) == Loss
    ensures PyPlay((pl, ph), (dl, dh)) != Play(pl, ph, dl, dh) <==>
      (pl < dl && ph == dh) || (pl == dl && ph < dh)
  {
  }

  /** The results of one player split against every dealer split, in order. */
  function TallyAgainst(mine: (int, int), theirs: seq<(int, int)>): Tally
  {
    if |theirs| == 0 then Tally(0, 0, 0)
    else Add(TallyAgainst(mine, theirs[..|theirs| - 1]), One(PyPlay(mine, theirs[|theirs| - 1])))
  }

  /** Each dealer split is played once. */
  lemma {:induction false} TallyAgainstTotal(mine: (int, int), theirs: seq<(int, int)>)
    ensures Total(TallyAgainst(mine, theirs)) == |theirs|
  {
    if |theirs| > 0 {
      TallyAgainstTotal(mine, theirs[..|theirs| - 1]);
    }
  }

  /** The tallies of every player split. */
  function TalliesOf(mine: seq<(int, int)>, theirs: seq<(int, int)>): seq<Tally>
  {
    seq(|mine|, i requires 0 <= i < |mine| => TallyAgainst(mine[i], theirs))
  }

  /** The two nested loops of evaluate_hands, counting into the lists wins,
      draws and losses, one entry per player split. */
  method TallyAll(mine: seq<(int, int)>, theirs: seq<(int, int)>)
    returns (wins: seq<nat>, draws: seq<nat>, losses: seq<nat>)
    ensures |wins| == |draws| == |losses| == |mine|
    ensures forall i :: 0 <= i < |mine| ==>
      Tally(wins[i], draws[i], losses[i]) == TalliesOf(mine, theirs)[i]
  {
    wins := seq(|mine|, _ => 0);
    draws := seq(|mine|, _ => 0);
    losses := seq(|mine|, _ => 0);
    for m := 0 to |mine|
      invariant |wins| == |draws| == |losses| == |mine|
      invariant forall i :: 0 <= i < m ==>
        Tally(wins[i], draws[i], losses[i]) == TallyAgainst(mine[i], theirs)
    {
      var w, d, l := PlayAgainst(mine[m], theirs);
      wins, draws, losses := wins[m := w], draws[m := d], losses[m := l];
    }
  }

  /** The inner loop: one player split against every dealer split. */
  method PlayAgainst(mine: (int, int), theirs: seq<(int, int)>) returns (wins: nat, draws: nat, losses: nat)
    ensures Tally(wins, draws, losses) == TallyAgainst(mine, theirs)
  {
    wins, draws, losses := 0, 0, 0;
    for t := 0 to |theirs|
      invariant Tally(wins, draws, losses) == TallyAgainst(mine, theirs[..t])
    {
      ghost var next := TallyAgainst(mine, theirs[..t + 1]);
      assert theirs[..t + 1][..t] == theirs[..t] && theirs[..t + 1][t] == theirs[t];
      assert next == Add(Tally(wins, draws, losses), One(PyPlay(mine, theirs[t])));
      // the loop over the two hands, (0, 1), written out
      var cmpVal := 0;
      cmpVal := cmpVal + Cmp(mine.0, theirs[t].0);
      cmpVal := cmpVal + Cmp(mine.1, theirs[t].1);
      assert cmpVal == Cmp(mine.0, theirs[t].0) + Cmp(mine.1, theirs[t].1);
      if cmpVal < 0 {
        assert PyPlay(mine, theirs[t]) == Loss;
        losses := losses + 1;
      } else if cmpVal > 1 {
        assert PyPlay(mine, theirs[t]) == Win;
        wins := wins + 1;
      } else {
        assert PyPlay(mine, theirs[t]) == Draw;
        draws := draws + 1;
      }
      assert Tally(wins, draws, losses) == next;
    }
    assert theirs[..|theirs|] == theirs;
  }

  // ---------------------------------------------------------------------
  // Ranking the splits

  /** One entry of results: the split, its (wins, draws, losses) and its
      position among the player's splits. */
  datatype Ranked = Ranked(split: Split, tally: Tally, index: nat)

  /** Python's comparison of (wins, draws, losses) tuples: lexicographic. */
  predicate TallyGe(a: Tally, b: Tally)
  {
    a.wins > b.wins || (a.wins == b.wins && (a.draws > b.draws || (a.draws == b.draws && a.losses >= b.losses)))
  }

  /** The sort key of results, key=lambda x: x[1]. */
  predicate RankedGe(x: Ranked, y: Ranked)
  {
    TallyGe(x.tally, y.tally)
  }

  function Index(x: Ranked): int
  {
    x.index
  }

  /** The positions that the entries of results carry. */
  function Indices(rs: seq<Ranked>): set<int>
  {
    set p | 0 <= p < |rs| :: rs[p].index
  }

  /** The comparison of tallies orders every pair and is transitive. */
  lemma RankedGePreorder()
    ensures TotalPreorder(RankedGe)
  {
    forall a: Ranked, b: Ranked, c: Ranked | RankedGe(a, b) && RankedGe(b, c)
      ensures RankedGe(a, c)
    {
    }
  }

  /** zip(my_hands, zip(wins, draws, losses), range(len(my_hands))). */
  function Entries(splits: seq<Split>, tallies: seq<Tally>): seq<Ranked>
    requires |splits| == |tallies|
  {
    seq(|splits|, i requires 0 <= i < |splits| => Ranked(splits[i], tallies[i], i))
  }

  /** results in evaluate_hands: both hands' splits scored (the player's
      first), the player's splits tallied and sorted by their tallies,
      highest first and stably. */
  function Ranking(mine: seq<string>, theirs: seq<string>): Result<seq<Ranked>, PyError>
  {
    AllHandsSized(mine);
    AllHandsSized(theirs);
    match Scores(AllHands(mine))
    case Failure(e) => Failure(e)
    case Success(myScores) =>
      match Scores(AllHands(theirs))
      case Failure(e) => Failure(e)
      case Success(theirScores) =>
        Success(SortDesc(Entries(AllHands(mine), TalliesOf(myScores, theirScores)), RankedGe))
  }

  /** evaluate_hands: the best, second best and worst entries of results;
      with fewer than two splits, results[1] raises IndexError. */
  function Evaluate(mine: seq<string>, theirs: seq<string>): Result<(Ranked, Ranked, Ranked), PyError>
  {
    match Ranking(mine, theirs)
    case Failure(e) => Failure(e)
    case Success(rs) =>
      if |rs| < 2 then Failure(IndexError) else Success((rs[0], rs[1], rs[|rs| - 1]))
  }

  /** The computation of evaluate_hands, step by step. */
  method EvaluateHands(mine: seq<string>, theirs: seq<string>)
    returns (r: Result<(Ranked, Ranked, Ranked), PyError>)
    ensures r == Evaluate(mine, theirs)
  {
    var myHands := AllHands(mine);
    AllHandsSized(mine);
    var myScores := ScoreAll(myHands);
    if myScores.Failure? {
      return Failure(myScores.error);
    }
    var theirHands := AllHands(theirs);
    AllHandsSized(theirs);
    var theirScores := ScoreAll(theirHands);
    if theirScores.Failure? {
      return Failure(theirScores.error);
    }
    var wins, draws, losses := TallyAll(myScores.value, theirScores.value);
    var entries := seq(|myHands|, i requires 0 <= i < |myHands| =>
      Ranked(myHands[i], Tally(wins[i], draws[i], losses[i]), i));
    assert entries == Entries(myHands, TalliesOf(myScores.value, theirScores.value));
    var results := SortDesc(entries, RankedGe);
    if |results| < 2 {
      return Failure(IndexError);
    }
    return Success((results[0], results[1], results[|results| - 1]));
  }

  /** A ranking of the splits: each split once, with its position and a
      tally of m games; tallies fall, and tied splits keep the order of
      their positions. */
  ghost predicate WellRanked(rs: seq<Ranked>, splits: seq<Split>, m: nat)
  {
    && |rs| == |splits|
    && (forall p :: 0 <= p < |rs| ==>
          rs[p].index < |rs| && rs[p].split == splits[rs[p].index] && Total(rs[p].tally) == m)
    && (forall i :: 0 <= i < |rs| ==> i in Indices(rs))
    && (forall p, q :: 0 <= p < q < |rs| ==> rs[p].index != rs[q].index)
    && Descending(rs, RankedGe)
    && TiesInOrder(rs, RankedGe, Index)
  }

  /** Sorting the entries of splits tallied over m games each ranks them. */
  lemma SortedEntries(splits: seq<Split>, tallies: seq<Tally>, m: nat)
    requires |splits| == |tallies| && forall i :: 0 <= i < |tallies| ==> Total(tallies[i]) == m
    ensures WellRanked(SortDesc(Entries(splits, tallies), RankedGe), splits, m)
  {
    var entries := Entries(splits, tallies);
    var rs := SortDesc(entries, RankedGe);
    RankedGePreorder();
    SortDescending(entries, RankedGe);
    SortStable(entries, RankedGe, Index);
    SortedFromEntries(entries, rs, splits, tallies, m);
    forall p, q | 0 <= p < q < |rs|
      ensures rs[p].index != rs[q].index
    {
    }
    forall i | 0 <= i < |rs|
      ensures i in Indices(rs)
    {
      assert entries[i] in multiset(rs);
    }
  }

  /** Every entry of a permutation of the entries is the entry at its own
      position. */
  lemma SortedFromEntries(entries: seq<Ranked>, rs: seq<Ranked>, splits: seq<Split>, tallies: seq<Tally>, m: nat)
    requires |splits| == |tallies| && forall i :: 0 <= i < |tallies| ==> Total(tallies[i]) == m
    requires entries == Entries(splits, tallies) && multiset(rs) == multiset(entries)
    ensures forall p :: 0 <= p < |rs| ==>
      rs[p].index < |entries| && rs[p] == entries[rs[p].index]
      && rs[p].split == splits[rs[p].index] && Total(rs[p].tally) == m
  {
    forall p | 0 <= p < |rs|
      ensures rs[p].index < |entries| && rs[p] == entries[rs[p].index]
        && rs[p].split == splits[rs[p].index] && Total(rs[p].tally) == m
    {
      assert rs[p] in multiset(entries);
      var q :| 0 <= q < |entries| && entries[q] == rs[p];
    }
  }

  /** results ranks the player's splits, each tallied over all the
      dealer's splits. */
  lemma RankingSorted(mine: seq<string>, theirs: seq<string>)
    requires Ranking(mine, theirs).Success?
    ensures WellRanked(Ranking(mine, theirs).value, AllHands(mine), |AllHands(theirs)|)
  {
    AllHandsSized(mine);
    AllHandsSized(theirs);
    var myScores := Scores(AllHands(mine)).value;
    var theirScores := Scores(AllHands(theirs)).value;
    var tallies := TalliesOf(myScores, theirScores);
    forall i | 0 <= i < |tallies|
      ensures Total(tallies[i]) == |theirScores|
    {
      TallyAgainstTotal(myScores[i], theirScores);
    }
    SortedEntries(AllHands(mine), tallies, |theirScores|);
  }

  /** In a ranking, the first entry's tally is at least every entry's, and
      it comes first among its ties; the last entry's tally is at most every
      entry's, and it comes last among its ties; the first two entries are
      different splits. */
  lemma BestWorstOf(rs: seq<Ranked>, splits: seq<Split>, m: nat)
    requires WellRanked(rs, splits, m) && |rs| >= 2
    ensures rs[0].index != rs[1].index && TallyGe(rs[0].tally, rs[1].tally)
    ensures forall p :: 0 <= p < |rs| ==>
      && TallyGe(rs[0].tally, rs[p].tally)
      && (TallyGe(rs[p].tally, rs[0].tally) ==> rs[0].index <= rs[p].index)
      && TallyGe(rs[p].tally, rs[|rs| - 1].tally)
      && (TallyGe(rs[|rs| - 1].tally, rs[p].tally) ==> rs[p].index <= rs[|rs| - 1].index)
  {
    var n := |rs|;
    assert RankedGe(rs[0], rs[1]);
    forall p | 0 <= p < n
      ensures && TallyGe(rs[0].tally, rs[p].tally)
              && (TallyGe(rs[p].tally, rs[0].tally) ==> rs[0].index <= rs[p].index)
              && TallyGe(rs[p].tally, rs[n - 1].tally)
              && (TallyGe(rs[n - 1].tally, rs[p].tally) ==> rs[p].index <= rs[n - 1].index)
    {
      if p > 0 {
        assert RankedGe(rs[0], rs[p]);
        if RankedGe(rs[p], rs[0]) {
          assert Index(rs[0]) < Index(rs[p]);
        }
      }
      if p < n - 1 {
        assert RankedGe(rs[p], rs[n - 1]);
        if RankedGe(rs[n - 1], rs[p]) {
          assert Index(rs[p]) < Index(rs[n - 1]);
        }
      }
    }
  }

  /** evaluate_hands returns as best a split whose tally is at least every
      split's, the first such in all_hands order; as worst one whose tally
      is at most every split's, the last such; and a second best that is a
      different split with a tally no higher than the best's. */
  lemma BestAndWorst(mine: seq<string>, theirs: seq<string>)
    requires Evaluate(mine, theirs).Success?
    ensures var rs := Ranking(mine, theirs).value;
      var (best, second, worst) := Evaluate(mine, theirs).value;
      && best.index != second.index && TallyGe(best.tally, second.tally)
      && forall p :: 0 <= p < |rs| ==>
           && TallyGe(best.tally, rs[p].tally)
           && (TallyGe(rs[p].tally, best.tally) ==> best.index <= rs[p].index)
           && TallyGe(rs[p].tally, worst.tally)
           && (TallyGe(worst.tally, rs[p].tally) ==> rs[p].index <= worst.index)
  {
    RankingSorted(mine, theirs);
    BestWorstOf(Ranking(mine, theirs).value, AllHands(mine), |AllHands(theirs)|);
  }

  /** An odd-length line of seven distinct codes with standard suits still
      reaches five equal faces: parse_hands leaves its last code one
      character long, and the split that keeps (2C, 3C) low leaves the four
      aces and that one-character ace high. As written that high hand
      scores 14; the corrected score raises Cheat. */
  lemma OddLineFiveAces()
    ensures Chunks("ACADAHAS2C3CA") == ["AC", "AD", "AH", "AS", "2C", "3C", "A"]
    ensures Remaining(Chunks("ACADAHAS2C3CA"), ["2C", "3C"]) == ["AC", "AD", "AH", "AS", "A"]
    ensures HandScoreAsWritten(["AC", "AD", "AH", "AS", "A"]) == Success(14)
    ensures HandScore(["AC", "AD", "AH", "AS", "A"]) == Failure(Cheat)
  {
    OddLineChunks();
    OddLineRemaining();
    FourAcesAndOne();
  }

  lemma OddLineChunks()
    ensures Chunks("ACADAHAS2C3CA") == ["AC", "AD", "AH", "AS", "2C", "3C", "A"]
  {
    var line := "ACADAHAS2C3CA";
    var cards := ["AC", "AD", "AH", "AS", "2C", "3C", "A"];
    assert |Chunks(line)| == 7;
    assert Chunks(line)[0] == line[0..2] == "AC";
    assert Chunks(line)[1] == line[2..4] == "AD";
    assert Chunks(line)[2] == line[4..6] == "AH";
    assert Chunks(line)[3] == line[6..8] == "AS";
    assert Chunks(line)[4] == line[8..10] == "2C";
    assert Chunks(line)[5] == line[10..12] == "3C";
    assert Chunks(line)[6] == line[12..13] == "A";
    assert Chunks(line) == cards;
  }

  lemma OddLineRemaining()
    ensures Remaining(["AC", "AD", "AH", "AS", "2C", "3C", "A"], ["2C", "3C"]) == ["AC", "AD", "AH", "AS", "A"]
  {
    var aces := ["AC", "AD", "AH", "AS", "A"];
    forall i | 0 <= i < 5
      ensures aces[i][0] == 'A'
    {
    }
    assert "2C" !in aces && "3C" !in aces;
    RemainingFourAndOne("AC", "AD", "AH", "AS", "A", "2C", "3C");
  }

  /** Removing a low pair that sits between the fourth and the fifth of
      five other cards. */
  lemma RemainingFourAndOne<T>(c0: T, c1: T, c2: T, c3: T, c4: T, x: T, y: T)
    requires x !in [c0, c1, c2, c3, c4] && y !in [c0, c1, c2, c3, c4]
    ensures Remaining([c0, c1, c2, c3, x, y, c4], [x, y]) == [c0, c1, c2, c3, c4]
  {
    var low := [x, y];
    var hand := [c0, c1, c2, c3, x, y, c4];
    assert Remaining(hand[7..], low) == [];
    assert Remaining(hand[6..], low) == [c4] by {
      assert hand[6..][1..] == hand[7..];
    }
    assert Remaining(hand[5..], low) == [c4] by {
      assert hand[5..][1..] == hand[6..];
    }
    assert Remaining(hand[4..], low) == [c4] by {
      assert hand[4..][1..] == hand[5..];
    }
    assert Remaining(hand[3..], low) == [c3, c4] by {
      assert hand[3..][1..] == hand[4..];
    }
    assert Remaining(hand[2..], low) == [c2, c3, c4] by {
      assert hand[2..][1..] == hand[3..];
    }
    assert Remaining(hand[1..], low) == [c1, c2, c3, c4] by {
      assert hand[1..][1..] == hand[2..];
    }
  }
}
