/** paigow.cpp's GameReduce: the 21 ways to split the player's seven cards
    into a low and a high hand, each played against every split of every
    seven-card dealer hand drawn from the dealer's pool. The reducer is
    modelled sequentially: operator() over a range of dealer hands, the
    split constructor and join that combine partial results, and finish,
    which ranks the splits. */
module GameReduce {
  import opened Binomial
  import opened Wrappers
  import opened KSubsets
  import opened Combinations
  import opened Masks
  import opened Cards
  import opened LowHand
  import opened HighHand
  import opened Tallies

  /** One way of splitting the player's cards (the low hand at position
      index of the 2-of-7 enumeration), its two scores and its results. */
  datatype PlayerHand = PlayerHand(index: nat, lowHandScore: nat, highHandScore: nat,
                                   wins: nat, draws: nat, losses: nat)

  /** ComparePlayerHandsDescending: a comes before b when it has more wins,
      or as many wins and more draws. */
  predicate ComparePlayerHandsDescending(a: PlayerHand, b: PlayerHand)
  {
    a.wins > b.wins || (a.wins == b.wins && a.draws > b.draws)
  }

  /** std::sort needs a strict weak order: irreflexive, transitive, and with
      transitive incomparability (hands with the same wins and draws). */
  lemma CompareIsStrictWeakOrder(a: PlayerHand, b: PlayerHand, c: PlayerHand)
    ensures !ComparePlayerHandsDescending(a, a)
    ensures ComparePlayerHandsDescending(a, b) && ComparePlayerHandsDescending(b, c)
            ==> ComparePlayerHandsDescending(a, c)
    ensures (!ComparePlayerHandsDescending(a, b) && !ComparePlayerHandsDescending(b, a)) <==>
            (a.wins == b.wins && a.draws == b.draws)
    ensures (!ComparePlayerHandsDescending(a, b) && !ComparePlayerHandsDescending(b, a)
             && !ComparePlayerHandsDescending(b, c) && !ComparePlayerHandsDescending(c, b))
            ==> (!ComparePlayerHandsDescending(a, c) && !ComparePlayerHandsDescending(c, a))
  {
  }

  /** A player hand with the tally t added to its results. */
  function Added(h: PlayerHand, t: Tally): PlayerHand
  {
    PlayerHand(h.index, h.lowHandScore, h.highHandScore, h.wins + t.wins, h.draws + t.draws, h.losses + t.losses)
  }

  // ---------------------------------------------------------------------
  // The splits of a seven-card hand

  /** The positions of the low hand of split j of seven cards: the pair at
      position j of the 2-of-7 enumeration. */
  function LowPair(j: nat): (c: seq<nat>)
    requires j < 21
    ensures c == Nth(7, 2, j)
    ensures |c| == 2 && c[0] < c[1] < 7
  {
    PairShape(j);
    Nth(7, 2, j)
  }

  /** Each of the first 21 pairs of the 2-of-7 enumeration is two increasing
      positions of a seven-card hand. */
  lemma PairShape(j: nat)
    requires j < 21
    ensures |Nth(7, 2, j)| == 2 && Nth(7, 2, j)[0] < Nth(7, 2, j)[1] < 7
  {
    BinomSevenTwo();
    NthRank(7, 2, j);
  }

  /** The low hand's score in split j (ScoreLowHand). */
  function SplitLow(cards: seq<Card>, j: nat): nat
    requires |cards| == 7 && j < 21
  {
    var c := LowPair(j);
    LowScore(cards[c[0]], cards[c[1]])
  }

  /** The high hand's score in split j (ScoreHighHand): the other five
      cards. The masks always hold five cards for seven distinct valid
      cards (HandMasksFiveCards), so the 0 is never taken for them. */
  function SplitHigh(cards: seq<Card>, j: nat): nat
    requires |cards| == 7 && j < 21
  {
    var c := LowPair(j);
    var masks := HandMasks(cards, c[0], c[1]);
    if FiveCards(masks) then ScoreFromSuits(masks) else 0
  }

  /** The (low, high) scores of the 21 splits of a seven-card hand, in
      enumeration order. */
  function SplitScores(hand: seq<Card>): (s: seq<(nat, nat)>)
    requires |hand| == 7
    ensures |s| == 21
  {
    seq(21, j requires 0 <= j < 21 => (SplitLow(hand, j), SplitHigh(hand, j)))
  }

  /** The game the class is built for: seven distinct valid player cards,
      and a pool of at least seven distinct valid dealer cards. */
  predicate GameOk(playerCards: seq<Card>, dealerCards: seq<Card>)
  {
    && |playerCards| == 7 && DistinctValidCards(playerCards)
    && |dealerCards| >= 7 && DistinctValidCards(dealerCards)
  }

  /** Dealer hand number d: the pool's cards at the positions of the 7-subset
      at position d of the enumeration. */
  function DealerHand(dealerCards: seq<Card>, d: nat): (hand: seq<Card>)
    requires |dealerCards| >= 7 && d < Binom(|dealerCards|, 7)
    ensures |hand| == 7
  {
    NthRank(|dealerCards|, 7, d);
    var c := Nth(|dealerCards|, 7, d);
    seq(7, t requires 0 <= t < 7 => dealerCards[c[t]])
  }

  /** A dealer hand drawn from a pool of distinct valid cards is seven
      distinct valid cards. */
  lemma DealerHandDistinct(dealerCards: seq<Card>, d: nat)
    requires |dealerCards| >= 7 && DistinctValidCards(dealerCards) && d < Binom(|dealerCards|, 7)
    ensures DistinctValidCards(DealerHand(dealerCards, d))
  {
    NthRank(|dealerCards|, 7, d);
  }

  /** The results of the player split with scores (pl, ph) against the
      21 splits of dealer hand d. */
  function HandTally(pl: nat, ph: nat, dealerCards: seq<Card>, d: nat): Tally
    requires |dealerCards| >= 7 && d < Binom(|dealerCards|, 7)
  {
    TallyVs(pl, ph, SplitScores(DealerHand(dealerCards, d)))
  }

  /** Each dealer hand is played 21 times, once per split. */
  lemma HandTallyTotal(pl: nat, ph: nat, dealerCards: seq<Card>, d: nat)
    requires |dealerCards| >= 7 && d < Binom(|dealerCards|, 7)
    ensures Total(HandTally(pl, ph, dealerCards, d)) == 21
  {
    TallyVsTotal(pl, ph, SplitScores(DealerHand(dealerCards, d)));
  }

  /** HandTally as a function of the dealer hand's number, nothing for
      numbers past the last hand. */
  function HandTallies(pl: nat, ph: nat, dealerCards: seq<Card>): nat -> Tally
  {
    (d: nat) =>
      if |dealerCards| >= 7 && d < Binom(|dealerCards|, 7) then HandTally(pl, ph, dealerCards, d)
      else Tally(0, 0, 0)
  }

  /** The results of the player split with scores (pl, ph) against every
      split of the dealer hands b, ..., e-1. */
  function RangeTally(pl: nat, ph: nat, dealerCards: seq<Card>, b: nat, e: nat): Tally
  {
    RangeSum(HandTallies(pl, ph, dealerCards), b, e)
  }

  /** operator() over [b, e) adds exactly 21 * (e - b) games to each
      player split. */
  lemma RangeTallyTotal(pl: nat, ph: nat, dealerCards: seq<Card>, b: nat, e: nat)
    requires |dealerCards| >= 7 && b <= e <= Binom(|dealerCards|, 7)
    ensures Total(RangeTally(pl, ph, dealerCards, b, e)) == (e - b) * 21
  {
    var f := HandTallies(pl, ph, dealerCards);
    forall d | b <= d < e
      ensures Total(f(d)) == 21
    {
      HandTallyTotal(pl, ph, dealerCards, d);
    }
    RangeSumTotal(f, b, e, 21);
  }

  /** The reducer's headline total: built from the player's cards and run
      over every dealer hand of the pool, it has played each of the 21
      splits 21 times per dealer hand, once against each dealer split. */
  lemma FullRunTotal(playerCards: seq<Card>, dealerCards: seq<Card>, i: nat)
    requires GameOk(playerCards, dealerCards) && i < 21
    ensures var h := PlayedRange(PlayerSplits(playerCards), dealerCards, 0, Binom(|dealerCards|, 7))[i];
      h.wins + h.draws + h.losses == 21 * Binom(|dealerCards|, 7)
  {
    var hs, n := PlayerSplits(playerCards), Binom(|dealerCards|, 7);
    var pl, ph := hs[i].lowHandScore, hs[i].highHandScore;
    RangeTallyTotal(pl, ph, dealerCards, 0, n);
    assert DealerTallies(dealerCards)(pl, ph) == HandTallies(pl, ph, dealerCards);
    assert PlayedRange(hs, dealerCards, 0, n)[i] == Added(hs[i], RangeTally(pl, ph, dealerCards, 0, n));
  }

  /** What a split scoring (pl, ph) gets against each dealer hand of the
      pool, for every pair of scores. */
  function DealerTallies(dealerCards: seq<Card>): (nat, nat) -> nat -> Tally
  {
    (pl: nat, ph: nat) => HandTallies(pl, ph, dealerCards)
  }

  /** Against dealer hand e the tally of every split is its tally against
      that hand's 21 splits. */
  lemma DealerTalliesAt(dealerCards: seq<Card>, e: nat)
    requires |dealerCards| >= 7 && e < Binom(|dealerCards|, 7)
    ensures forall pl: nat, ph: nat :: DealerTallies(dealerCards)(pl, ph)(e) == TallyVs(pl, ph, SplitScores(DealerHand(dealerCards, e)))
  {
    forall pl: nat, ph: nat
      ensures DealerTallies(dealerCards)(pl, ph)(e) == TallyVs(pl, ph, SplitScores(DealerHand(dealerCards, e)))
    {
      DealerTallyAt(dealerCards, e, pl, ph);
    }
  }

  lemma DealerTallyAt(dealerCards: seq<Card>, e: nat, pl: nat, ph: nat)
    requires |dealerCards| >= 7 && e < Binom(|dealerCards|, 7)
    ensures DealerTallies(dealerCards)(pl, ph)(e) == TallyVs(pl, ph, SplitScores(DealerHand(dealerCards, e)))
  {
    assert DealerTallies(dealerCards)(pl, ph) == HandTallies(pl, ph, dealerCards);
    assert HandTallies(pl, ph, dealerCards)(e) == HandTally(pl, ph, dealerCards, e);
  }

  /** ScoreLowHand and ScoreHighHand on the seven cards, for the split the
      2-of-7 enumeration's current() names. */
  method ScoreSplit(cards: seq<Card>, j: nat, current: seq<nat>) returns (low: nat, high: nat)
    requires |cards| == 7 && DistinctValidCards(cards) && j < 21 && current == Nth(7, 2, j)
    ensures (low, high) == SplitScores(cards)[j]
  {
    ghost var c := LowPair(j);
    low := ScoreLowHand(cards, current);
    high := ScoreHighHand(cards, current);
  }

  // ---------------------------------------------------------------------
  // The 21 player splits, as sequences

  /** The splits as the constructor builds them: split i has index i, the
      scores of the i-th low hand of the enumeration and of the high hand it
      leaves, and no results yet. */
  function PlayerSplits(cards: seq<Card>): (hs: seq<PlayerHand>)
    requires |cards| == 7
    ensures |hs| == 21
  {
    Unplayed(SplitScores(cards))
  }

  /** Splits with the scores s, in order, and no results yet. */
  function Unplayed(s: seq<(nat, nat)>): (hs: seq<PlayerHand>)
    ensures |hs| == |s|
  {
    seq(|s|, i requires 0 <= i < |s| => PlayerHand(i, s[i].0, s[i].1, 0, 0, 0))
  }

  /** The split constructor's copy: same index and scores, results zeroed. */
  function Zeroed(hs: seq<PlayerHand>): (r: seq<PlayerHand>)
    ensures |r| == |hs|
  {
    seq(|hs|, i requires 0 <= i < |hs| => hs[i].(wins := 0, draws := 0, losses := 0))
  }

  /** The results a split holds. */
  function Results(h: PlayerHand): Tally
  {
    Tally(h.wins, h.draws, h.losses)
  }

  /** join: the results of rs added split by split. */
  function Joined(hs: seq<PlayerHand>, rs: seq<PlayerHand>): (r: seq<PlayerHand>)
    requires |rs| == |hs|
    ensures |r| == |hs|
  {
    seq(|hs|, i requires 0 <= i < |hs| => Added(hs[i], Results(rs[i])))
  }

  /** Every split after one game against the dealer split scored (dl, dh). */
  function PlayedOnce(hs: seq<PlayerHand>, dl: nat, dh: nat): (r: seq<PlayerHand>)
    ensures |r| == |hs|
  {
    seq(|hs|, i requires 0 <= i < |hs| => Added(hs[i], One(Play(hs[i].lowHandScore, hs[i].highHandScore, dl, dh))))
  }

  /** Every split after playing each of the dealer splits scored in s. */
  function PlayedAgainst(hs: seq<PlayerHand>, s: seq<(nat, nat)>): (r: seq<PlayerHand>)
    ensures |r| == |hs|
  {
    seq(|hs|, i requires 0 <= i < |hs| => Added(hs[i], TallyVs(hs[i].lowHandScore, hs[i].highHandScore, s)))
  }

  /** Every split after the dealer hands b, ..., e-1, when t(pl, ph)(d) is
      what a split scoring (pl, ph) gets against dealer hand d. */
  function PlayedBy(hs: seq<PlayerHand>, t: (nat, nat) -> nat -> Tally, b: nat, e: nat): (r: seq<PlayerHand>)
    ensures |r| == |hs|
  {
    seq(|hs|, i requires 0 <= i < |hs| =>
      Added(hs[i], RangeSum(t(hs[i].lowHandScore, hs[i].highHandScore), b, e)))
  }

  /** Every split after playing every split of the dealer hands b, ..., e-1
      of the pool: what operator() over [b, e) does. */
  function PlayedRange(hs: seq<PlayerHand>, dealerCards: seq<Card>, b: nat, e: nat): (r: seq<PlayerHand>)
    ensures |r| == |hs|
  {
    PlayedBy(hs, DealerTallies(dealerCards), b, e)
  }

  /** Playing no dealer split changes nothing. */
  lemma PlayedAgainstNone(hs: seq<PlayerHand>)
    ensures PlayedAgainst(hs, []) == hs
  {
    assert forall i :: 0 <= i < |hs| ==> PlayedAgainst(hs, [])[i] == hs[i];
  }

  /** Playing one more dealer split is one more game for every split. */
  lemma PlayedAgainstStep(hs: seq<PlayerHand>, s: seq<(nat, nat)>, dl: nat, dh: nat)
    ensures PlayedAgainst(hs, s + [(dl, dh)]) == PlayedOnce(PlayedAgainst(hs, s), dl, dh)
  {
    var t := s + [(dl, dh)];
    assert t[..|t| - 1] == s;
    forall i | 0 <= i < |hs|
      ensures PlayedAgainst(hs, t)[i] == PlayedOnce(PlayedAgainst(hs, s), dl, dh)[i]
    {
    }
  }

  /** Playing no dealer hand changes nothing. */
  lemma PlayedByNone(hs: seq<PlayerHand>, t: (nat, nat) -> nat -> Tally, b: nat)
    ensures PlayedBy(hs, t, b, b) == hs
  {
    forall i | 0 <= i < |hs|
      ensures PlayedBy(hs, t, b, b)[i] == hs[i]
    {
      assert RangeSum(t(hs[i].lowHandScore, hs[i].highHandScore), b, b) == Tally(0, 0, 0);
    }
  }

  /** One more dealer hand, against which every split gets its tally against
      the dealer splits scored in s: the range's results, then those splits. */
  lemma PlayedByStep(hs: seq<PlayerHand>, t: (nat, nat) -> nat -> Tally, b: nat, e: nat, next: nat, s: seq<(nat, nat)>)
    requires b <= e && next == e + 1
    requires forall pl: nat, ph: nat :: t(pl, ph)(e) == TallyVs(pl, ph, s)
    ensures PlayedAgainst(PlayedBy(hs, t, b, e), s) == PlayedBy(hs, t, b, next)
  {
    forall i | 0 <= i < |hs|
      ensures PlayedAgainst(PlayedBy(hs, t, b, e), s)[i] == PlayedBy(hs, t, b, next)[i]
    {
      assert t(hs[i].lowHandScore, hs[i].highHandScore)(e) == TallyVs(hs[i].lowHandScore, hs[i].highHandScore, s);
    }
  }

  /** Any split of [b, e) at m, played by a reducer and by its split copy and
      then joined, gives the same splits as one pass over [b, e). */
  lemma PlayedByJoin(hs: seq<PlayerHand>, t: (nat, nat) -> nat -> Tally, b: nat, m: nat, e: nat)
    requires b <= m <= e
    ensures Joined(PlayedBy(hs, t, b, m), PlayedBy(Zeroed(hs), t, m, e)) == PlayedBy(hs, t, b, e)
  {
    forall i | 0 <= i < |hs|
      ensures Joined(PlayedBy(hs, t, b, m), PlayedBy(Zeroed(hs), t, m, e))[i] == PlayedBy(hs, t, b, e)[i]
    {
      var h := hs[i];
      var f := t(h.lowHandScore, h.highHandScore);
      var z := Zeroed(hs)[i];
      assert z == h.(wins := 0, draws := 0, losses := 0);
      assert PlayedBy(hs, t, b, m)[i] == Added(h, RangeSum(f, b, m));
      assert PlayedBy(Zeroed(hs), t, m, e)[i] == Added(z, RangeSum(f, m, e));
      assert PlayedBy(hs, t, b, e)[i] == Added(h, RangeSum(f, b, e));
      AddedJoin(h, f, b, m, e);
    }
  }

  /** The same for one split: its results over [b, m) plus a zeroed copy's
      results over [m, e) are its results over [b, e). */
  lemma AddedJoin(h: PlayerHand, f: nat -> Tally, b: nat, m: nat, e: nat)
    requires b <= m <= e
    ensures Added(Added(h, RangeSum(f, b, m)), Results(Added(h.(wins := 0, draws := 0, losses := 0), RangeSum(f, m, e))))
         == Added(h, RangeSum(f, b, e))
  {
    RangeSumSplit(f, b, m, e);
  }

  /** One more dealer hand of the pool: the range's results, then that
      hand's 21 splits. */
  lemma PlayedRangeStep(hs: seq<PlayerHand>, dealerCards: seq<Card>, b: nat, e: nat, next: nat)
    requires |dealerCards| >= 7 && b <= e < Binom(|dealerCards|, 7) && next == e + 1
    ensures PlayedAgainst(PlayedRange(hs, dealerCards, b, e), SplitScores(DealerHand(dealerCards, e)))
         == PlayedRange(hs, dealerCards, b, next)
  {
    DealerTalliesAt(dealerCards, e);
    PlayedByStep(hs, DealerTallies(dealerCards), b, e, next, SplitScores(DealerHand(dealerCards, e)));
  }

  /** Any split of [b, e) at m, played by a reducer over [b, m) and by its
      split copy over [m, e) and then joined, gives the same splits as one
      pass over [b, e). */
  lemma PartitionJoin(hs: seq<PlayerHand>, dealerCards: seq<Card>, b: nat, m: nat, e: nat)
    requires b <= m <= e
    ensures Joined(PlayedRange(hs, dealerCards, b, m), PlayedRange(Zeroed(hs), dealerCards, m, e))
         == PlayedRange(hs, dealerCards, b, e)
  {
    PlayedByJoin(hs, DealerTallies(dealerCards), b, m, e);
  }

  /** One pass of the constructor's loop: score the split current names,
      store it as split i and step the enumeration. */
  method ScoreNext(cards: seq<Card>, combos: Combinations, hands: array<PlayerHand>, ghost s: seq<(nat, nat)>, i: nat)
      returns (more: bool, next: nat)
    requires |cards| == 7 && DistinctValidCards(cards) && s == SplitScores(cards)
    requires i < 21 && hands.Length == 21 && hands[..i] == Unplayed(s)[..i]
    requires combos.Valid() && combos.total == 7 && combos.num == 2 && combos.Current() == Nth(7, 2, i)
    modifies hands, combos.combination
    ensures next == i + 1 && combos.Valid() && hands[..next] == Unplayed(s)[..next]
    ensures more == (next < 21) && (more ==> combos.Current() == Nth(7, 2, next))
  {
    next := i + 1;
    var low, high := ScoreSplit(cards, i, combos.Current());
    ScoreInto(hands, s, i, next, low, high);
    more := combos.Next();
    BinomSevenTwo();
    NthStep(7, 2, i, next, more, combos.Current());
  }

  /** Store the scores of split i, the next entry of s, as split i. */
  method ScoreInto(hands: array<PlayerHand>, ghost s: seq<(nat, nat)>, i: nat, ghost next: nat, low: nat, high: nat)
    requires hands.Length == |s| && i < |s| && next == i + 1 && (low, high) == s[i]
    requires hands[..i] == Unplayed(s)[..i]
    modifies hands
    ensures hands[..next] == Unplayed(s)[..next]
  {
    hands[i] := PlayerHand(i, low, high, 0, 0, 0);
    assert hands[..next] == hands[..i] + [hands[i]];
  }

  /** The loop of operator() that copies the current dealer hand out of the
      pool. */
  method CopyDealerHand(dealerCards: seq<Card>, dealerCombos: Combinations, ghost d: nat) returns (hand: seq<Card>)
    requires |dealerCards| >= 7 && d < Binom(|dealerCards|, 7)
    requires dealerCombos.Valid() && dealerCombos.total == |dealerCards| && dealerCombos.num == 7
    requires dealerCombos.Current() == Nth(|dealerCards|, 7, d)
    ensures hand == DealerHand(dealerCards, d)
  {
    hand := Gather(dealerCards, dealerCombos.combination);
  }

  /** The pool's cards at the given positions, in order. */
  method Gather(pool: seq<Card>, positions: array<nat>) returns (hand: seq<Card>)
    requires forall t :: 0 <= t < positions.Length ==> positions[t] < |pool|
    ensures |hand| == positions.Length
    ensures forall t :: 0 <= t < positions.Length ==> hand[t] == pool[positions[t]]
  {
    hand := [];
    for i := 0 to positions.Length
      invariant |hand| == i
      invariant forall t :: 0 <= t < i ==> hand[t] == pool[positions[t]]
    {
      hand := hand + [pool[positions[i]]];
    }
  }

  lemma PrefixEmpty<T>(s: seq<T>)
    ensures s[..0] == []
  {
  }

  lemma PrefixNext<T>(s: seq<T>, j: nat, next: nat)
    requires j < |s| && next == j + 1
    ensures s[..next] == s[..j] + [s[j]]
  {
  }

  lemma PrefixAll<T>(s: seq<T>)
    ensures s[..|s|] == s
  {
  }

  /** The ranking order used by finish: a's (wins, draws) is at least b's. */
  predicate RanksAtLeast(a: PlayerHand, b: PlayerHand)
  {
    !ComparePlayerHandsDescending(b, a)
  }

  class GameReduce {
    const playerCards: seq<Card>
    const dealerCards: seq<Card>
    const playerHands: array<PlayerHand>
    // The results finish writes into the game.
    var best: PlayerHand
    var secondBest: PlayerHand
    var worst: PlayerHand

    ghost predicate Valid()
      reads this, playerHands
    {
      && GameOk(playerCards, dealerCards)
      && playerHands.Length == 21
    }

    /** Scores every split of the player's cards, in the order the 2-of-7
        enumeration visits them, with empty results. */
    constructor (playerCards: seq<Card>, dealerCards: seq<Card>)
      requires GameOk(playerCards, dealerCards)
      ensures Valid() && this.playerCards == playerCards && this.dealerCards == dealerCards
      ensures playerHands[..] == PlayerSplits(playerCards)
      ensures fresh(playerHands)
    {
      this.playerCards := playerCards;
      this.dealerCards := dealerCards;
      best, secondBest, worst := PlayerHand(0, 0, 0, 0, 0, 0), PlayerHand(0, 0, 0, 0, 0, 0), PlayerHand(0, 0, 0, 0, 0, 0);
      var hands := new PlayerHand[21](_ => PlayerHand(0, 0, 0, 0, 0, 0));
      var playerCombos := new Combinations(7, 2);
      ghost var s := SplitScores(playerCards);
      PrefixEmpty(Unplayed(s));
      var i := 0;
      var more := true;
      while more
        invariant playerCombos.Valid() && playerCombos.total == 7 && playerCombos.num == 2
        invariant i <= 21 && (more <==> i < 21)
        invariant more ==> playerCombos.Current() == Nth(7, 2, i)
        invariant hands[..i] == Unplayed(s)[..i]
        decreases 21 - i
      {
        more, i := ScoreNext(playerCards, playerCombos, hands, s, i);
      }
      PrefixAll(hands[..]);
      PrefixAll(Unplayed(s));
      playerHands := hands;
    }

    /** The split constructor: the same game and splits, with empty results. */
    constructor Split(other: GameReduce)
      requires other.Valid()
      ensures Valid() && playerCards == other.playerCards && dealerCards == other.dealerCards
      ensures playerHands[..] == Zeroed(other.playerHands[..])
      ensures fresh(playerHands)
    {
      playerCards := other.playerCards;
      dealerCards := other.dealerCards;
      best, secondBest, worst := other.best, other.secondBest, other.worst;
      var hands := new PlayerHand[21](_ => PlayerHand(0, 0, 0, 0, 0, 0));
      for i := 0 to 21
        invariant forall t :: 0 <= t < i ==>
          hands[t] == other.playerHands[t].(wins := 0, draws := 0, losses := 0)
      {
        hands[i] := other.playerHands[i].(wins := 0, draws := 0, losses := 0);
      }
      assert hands[..] == Zeroed(other.playerHands[..]);
      playerHands := hands;
    }

    /** join: add the other reducer's results, split by split. */
    method Join(rhs: GameReduce)
      requires Valid() && rhs.playerHands.Length == 21
      modifies playerHands
      ensures Valid()
      ensures playerHands[..] == Joined(old(playerHands[..]), old(rhs.playerHands[..]))
    {
      for i := 0 to 21
        invariant Valid()
        invariant forall t :: 0 <= t < i ==>
          playerHands[t] == Added(old(playerHands[t]), Results(old(rhs.playerHands[t])))
        invariant forall t :: i <= t < 21 ==> playerHands[t] == old(playerHands[t])
        invariant forall t :: i <= t < 21 ==> rhs.playerHands[t] == old(rhs.playerHands[t])
      {
        var h, r := playerHands[i], rhs.playerHands[i];
        playerHands[i] := h.(wins := h.wins + r.wins, draws := h.draws + r.draws, losses := h.losses + r.losses);
      }
      assert playerHands[..] == Joined(old(playerHands[..]), old(rhs.playerHands[..]));
    }

    /** One dealer split against all 21 player splits: each player split's
        tally grows by one game, by the rule of Play. */
    method PlaySplit(dealerLow: nat, dealerHigh: nat)
      requires Valid()
      modifies playerHands
      ensures Valid()
      ensures playerHands[..] == PlayedOnce(old(playerHands[..]), dealerLow, dealerHigh)
    {
      for i := 0 to 21
        invariant Valid()
        invariant forall t :: 0 <= t < i ==>
          playerHands[t] == Added(old(playerHands[t]),
            One(Play(old(playerHands[t]).lowHandScore, old(playerHands[t]).highHandScore, dealerLow, dealerHigh)))
        invariant forall t :: i <= t < 21 ==> playerHands[t] == old(playerHands[t])
      {
        var h := playerHands[i];
        if h.lowHandScore > dealerLow && h.highHandScore > dealerHigh {
          playerHands[i] := h.(wins := h.wins + 1);
        } else if h.lowHandScore < dealerLow && h.highHandScore < dealerHigh {
          playerHands[i] := h.(losses := h.losses + 1);
        } else {
          playerHands[i] := h.(draws := h.draws + 1);
        }
      }
      assert playerHands[..] == PlayedOnce(old(playerHands[..]), dealerLow, dealerHigh);
    }

    /** The body of operator()'s loop for one dealer hand: every split of the
        dealer hand, in enumeration order, against all player splits. */
    method PlayDealerHand(hand: seq<Card>)
      requires Valid() && |hand| == 7 && DistinctValidCards(hand)
      modifies playerHands
      ensures Valid()
      ensures playerHands[..] == PlayedAgainst(old(playerHands[..]), SplitScores(hand))
    {
      var dealerHandCombos := new Combinations(7, 2);
      BinomSevenTwo();
      PlayedAgainstNone(playerHands[..]);
      PrefixEmpty(SplitScores(hand));
      var j := 0;
      var more := true;
      while more
        invariant Valid()
        invariant dealerHandCombos.Valid() && dealerHandCombos.total == 7 && dealerHandCombos.num == 2
        invariant j <= 21 && (more <==> j < 21)
        invariant more ==> dealerHandCombos.Current() == Nth(7, 2, j)
        invariant playerHands[..] == PlayedAgainst(old(playerHands[..]), SplitScores(hand)[..j])
        decreases 21 - j
      {
        more, j := PlayNextSplit(hand, dealerHandCombos, j, old(playerHands[..]));
      }
      PrefixAll(SplitScores(hand));
    }

    /** One pass of PlayDealerHand's loop: the dealer split current names,
        split j, against every player split, then a step of the
        enumeration. */
    method PlayNextSplit(hand: seq<Card>, combos: Combinations, j: nat, ghost start: seq<PlayerHand>)
        returns (more: bool, next: nat)
      requires Valid() && |hand| == 7 && DistinctValidCards(hand) && j < 21
      requires combos.Valid() && combos.total == 7 && combos.num == 2 && combos.Current() == Nth(7, 2, j)
      requires playerHands[..] == PlayedAgainst(start, SplitScores(hand)[..j])
      modifies playerHands, combos.combination
      ensures next == j + 1 && Valid() && combos.Valid()
      ensures playerHands[..] == PlayedAgainst(start, SplitScores(hand)[..next])
      ensures more == (next < 21) && (more ==> combos.Current() == Nth(7, 2, next))
    {
      next := j + 1;
      var dealerLow, dealerHigh := ScoreSplit(hand, j, combos.Current());
      PlaySplit(dealerLow, dealerHigh);
      PrefixNext(SplitScores(hand), j, next);
      PlayedAgainstStep(start, SplitScores(hand)[..j], dealerLow, dealerHigh);
      more := combos.Next();
      BinomSevenTwo();
      NthStep(7, 2, j, next, more, combos.Current());
    }

    /** One pass of operator()'s loop: copy dealer hand number index out of
        the pool and play all its splits. */
    method PlayNextHand(dealerCombos: Combinations, index: nat, b: nat, ghost start: seq<PlayerHand>)
        returns (next: nat)
      requires Valid() && b <= index < Binom(|dealerCards|, 7)
      requires dealerCombos.Valid() && dealerCombos.total == |dealerCards| && dealerCombos.num == 7
      requires dealerCombos.Current() == Nth(|dealerCards|, 7, index)
      requires playerHands[..] == PlayedRange(start, dealerCards, b, index)
      modifies playerHands, dealerCombos.combination
      ensures next == index + 1 && Valid() && dealerCombos.Valid()
      ensures playerHands[..] == PlayedRange(start, dealerCards, b, next)
      ensures next < Binom(|dealerCards|, 7) ==> dealerCombos.Current() == Nth(|dealerCards|, 7, next)
    {
      next := index + 1;
      var hand := CopyDealerHand(dealerCards, dealerCombos, index);
      DealerHandDistinct(dealerCards, index);
      PlayDealerHand(hand);
      PlayedRangeStep(start, dealerCards, b, index, next);
      var more := dealerCombos.Next();
      NthStep(|dealerCards|, 7, index, next, more, dealerCombos.Current());
    }

    /** operator(): play every dealer hand b, ..., e-1 of the pool, starting
        from jumpTo(b) and stepping with next(). */
    method Accumulate(b: nat, e: nat)
      requires Valid() && b <= e <= Binom(|dealerCards|, 7)
      modifies playerHands
      ensures Valid()
      ensures playerHands[..] == PlayedRange(old(playerHands[..]), dealerCards, b, e)
    {
      var dealerCombos := new Combinations(|dealerCards|, 7);
      var _ := dealerCombos.JumpTo(b);
      PlayedByNone(playerHands[..], DealerTallies(dealerCards), b);
      var index := b;
      while index < e
        invariant b <= index <= e
        invariant Valid()
        invariant dealerCombos.Valid() && dealerCombos.total == |dealerCards| && dealerCombos.num == 7
        invariant index < e ==> dealerCombos.Current() == Nth(|dealerCards|, 7, index)
        invariant playerHands[..] == PlayedRange(old(playerHands[..]), dealerCards, b, index)
      {
        index := PlayNextHand(dealerCombos, index, b, old(playerHands[..]));
      }
    }

  /** finish: sort the splits best first and record the best, the second
        best and the worst. Ties are in no particular order. */
    method Finish()
      requires Valid()
      modifies this, playerHands
      ensures Valid()
      ensures multiset(playerHands[..]) == old(multiset(playerHands[..]))
      ensures forall i, j :: 0 <= i < j < 21 ==> RanksAtLeast(playerHands[i], playerHands[j])
      ensures best == playerHands[0] && secondBest == playerHands[1] && worst == playerHands[20]
      ensures forall h :: h in old(multiset(playerHands[..])) ==> RanksAtLeast(best, h) && RanksAtLeast(h, worst)
    {
      SortHands(playerHands);
      best := playerHands[0];
      secondBest := playerHands[1];
      worst := playerHands[20];
      forall h | h in old(multiset(playerHands[..]))
        ensures RanksAtLeast(best, h) && RanksAtLeast(h, worst)
      {
        assert h in multiset(playerHands[..]);
        var k :| 0 <= k < 21 && playerHands[k] == h;
      }
    }
  }

  /** The std::sort call of finish, as an insertion sort: afterwards the
      array is a permutation of what it was, ordered best first. */
  method SortHands(a: array<PlayerHand>)
    modifies a
    ensures multiset(a[..]) == old(multiset(a[..]))
    ensures forall i, j :: 0 <= i < j < a.Length ==> RanksAtLeast(a[i], a[j])
  {
    if a.Length == 0 {
      return;
    }
    var i := 1;
    while i < a.Length
      invariant 1 <= i <= a.Length
      invariant multiset(a[..]) == old(multiset(a[..]))
      invariant forall p, q :: 0 <= p < q < i ==> RanksAtLeast(a[p], a[q])
    {
      InsertNext(a, i);
      i := i + 1;
    }
  }

  /** Moves a[i] down into the sorted prefix a[..i]. */
  method InsertNext(a: array<PlayerHand>, i: nat)
    requires 0 < i < a.Length
    requires forall p, q :: 0 <= p < q < i ==> RanksAtLeast(a[p], a[q])
    modifies a
    ensures multiset(a[..]) == old(multiset(a[..]))
    ensures forall p, q :: 0 <= p < q <= i ==> RanksAtLeast(a[p], a[q])
    ensures forall p :: i < p < a.Length ==> a[p] == old(a[p])
  {
    var j := i;
    while j > 0 && ComparePlayerHandsDescending(a[j], a[j - 1])
      invariant Inserting(a[..], i, j)
      invariant multiset(a[..]) == old(multiset(a[..]))
      invariant forall p :: i < p < a.Length ==> a[p] == old(a[p])
      decreases j
    {
      SwapDown(a, i, j);
      j := j - 1;
    }
    InsertingDone(a[..], i, j);
  }

  /** One pass of InsertNext's loop: swap the moving element a[j] with its
      lower-ranked left neighbour. */
  method SwapDown(a: array<PlayerHand>, i: nat, j: nat)
    requires Inserting(a[..], i, j) && 0 < j && ComparePlayerHandsDescending(a[j], a[j - 1])
    modifies a
    ensures Inserting(a[..], i, j - 1)
    ensures multiset(a[..]) == old(multiset(a[..]))
    ensures forall p :: 0 <= p < a.Length && p != j - 1 && p != j ==> a[p] == old(a[p])
  {
    ghost var s := a[..];
    a[j], a[j - 1] := a[j - 1], a[j];
    assert a[..] == s[j - 1 := s[j]][j := s[j - 1]];
    InsertingStep(s, i, j);
  }

  /** The state of InsertNext's loop: s[..i+1] is in order except at the
      moving element s[j], which ranks strictly above everything after it. */
  predicate Inserting(s: seq<PlayerHand>, i: nat, j: nat)
  {
    && j <= i < |s|
    && (forall p, q :: 0 <= p < q <= i && p != j && q != j ==> RanksAtLeast(s[p], s[q]))
    && (forall q :: j < q <= i ==> ComparePlayerHandsDescending(s[j], s[q]))
    && (0 < j < i ==> RanksAtLeast(s[j - 1], s[j + 1]))
  }

  /** Swapping the moving element with a lower-ranked left neighbour keeps
      the loop's state. */
  lemma InsertingStep(s: seq<PlayerHand>, i: nat, j: nat)
    requires Inserting(s, i, j) && 0 < j && ComparePlayerHandsDescending(s[j], s[j - 1])
    ensures Inserting(s[j - 1 := s[j]][j := s[j - 1]], i, j - 1)
  {
  }

  /** Once the moving element meets a neighbour it does not outrank, the
      prefix is in order. */
  lemma InsertingDone(s: seq<PlayerHand>, i: nat, j: nat)
    requires Inserting(s, i, j) && (j == 0 || !ComparePlayerHandsDescending(s[j], s[j - 1]))
    ensures forall p, q :: 0 <= p < q <= i ==> RanksAtLeast(s[p], s[q])
  {
  }
}
