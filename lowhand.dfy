/** ScoreLowHand of paigow.cpp: the two-card hand scored as the bitwise or
    of its two rank masks, with bit 13 set on top when the two ranks are the
    same. The lemmas show that this orders two-card hands as the game ranks
    them: every pair above every non-pair, pairs by rank, and non-pairs by
    the higher card and then the lower. */
module LowHand {
  import opened Masks
  import opened Cards

  /** The bit that marks a pair. */
  const PairBit: nat := 13

  /** The score of the two-card hand (a, b). */
  function LowScore(a: Card, b: Card): nat
  {
    MaskValue(a.value + b.value + (if a.value == b.value then {PairBit} else {}))
  }

  /** ScoreLowHand: the two cards at the low hand's positions current[0] and
      current[1]. */
  function ScoreLowHand(cards: seq<Card>, current: seq<nat>): nat
    requires |current| >= 2 && current[0] < |cards| && current[1] < |cards|
  {
    LowScore(cards[current[0]], cards[current[1]])
  }

  /** The order of two-card hands: pairs above non-pairs, then the higher
      rank, then the lower rank. */
  datatype LowKey = LowKey(pair: bool, high: nat, low: nat)

  function Key(a: Card, b: Card): LowKey
    requires ValidCard(a) && ValidCard(b)
  {
    var ra, rb := Rank(a), Rank(b);
    if ra >= rb then LowKey(ra == rb, ra, rb) else LowKey(false, rb, ra)
  }

  predicate KeyLess(x: LowKey, y: LowKey)
  {
    || (!x.pair && y.pair)
    || (x.pair == y.pair && x.high < y.high)
    || (x.pair == y.pair && x.high == y.high && x.low < y.low)
  }

  /** The score of two valid cards as a number: 2^13 plus the rank's power
      of two for a pair, the sum of the two ranks' powers of two otherwise. */
  lemma LowScoreValue(a: Card, b: Card)
    requires ValidCard(a) && ValidCard(b)
    ensures LowScore(a, b) ==
      if Rank(a) == Rank(b) then Pow2(PairBit) + Pow2(Rank(a)) else Pow2(Rank(a)) + Pow2(Rank(b))
  {
    var ra, rb := Rank(a), Rank(b);
    assert a.value == {ra} && b.value == {rb};
    assert a.value + b.value == {ra, rb};
    ValueOfPair(ra, rb, Width);
    if ra == rb {
      ValueAdd({ra, rb}, PairBit, Width);
      assert a.value == b.value;
      assert a.value + b.value + {PairBit} == {ra, rb} + {PairBit};
    } else {
      assert a.value != b.value;
      assert a.value + b.value + {} == {ra, rb};
      assert ra < Width && rb < Width;
    }
  }

  /** The score does not depend on the order of the two cards. */
  lemma LowScoreSymmetric(a: Card, b: Card)
    ensures LowScore(a, b) == LowScore(b, a)
  {
    assert a.value + b.value == b.value + a.value;
  }

  lemma Pow2Step(j: nat, k: nat)
    requires j < k
    ensures 2 * Pow2(j) <= Pow2(k)
  {
    Pow2Monotone(j + 1, k);
  }

  /** Two different ranks below 13 score below 2^13. */
  lemma NonPairBelowPairBit(h: nat, l: nat)
    requires l < h < 13
    ensures Pow2(h) + Pow2(l) < Pow2(PairBit)
  {
    Pow2Step(l, h);
    Pow2Step(h, PairBit);
  }

  /** Every pair scores above every non-pair. */
  lemma PairOutranksNonPair(a: Card, b: Card, c: Card, d: Card)
    requires ValidCard(a) && ValidCard(b) && ValidCard(c) && ValidCard(d)
    requires Rank(a) == Rank(b) && Rank(c) != Rank(d)
    ensures LowScore(a, b) > LowScore(c, d)
  {
    LowScoreValue(a, b);
    LowScoreValue(c, d);
    if Rank(c) > Rank(d) {
      NonPairBelowPairBit(Rank(c), Rank(d));
    } else {
      NonPairBelowPairBit(Rank(d), Rank(c));
    }
  }

  /** The score a key stands for: 2^13 plus the rank's power of two for a
      pair, the two ranks' powers of two otherwise. */
  function KeyValue(x: LowKey): nat
  {
    if x.pair then Pow2(PairBit) + Pow2(x.high) else Pow2(x.high) + Pow2(x.low)
  }

  /** The keys of valid hands: ranks below 13, the pair flag set exactly when
      the two ranks agree, the higher rank first. */
  predicate WellFormedKey(x: LowKey)
  {
    x.low <= x.high < 13 && (x.pair <==> x.low == x.high)
  }

  lemma KeyWellFormed(a: Card, b: Card)
    requires ValidCard(a) && ValidCard(b)
    ensures WellFormedKey(Key(a, b))
    ensures LowScore(a, b) == KeyValue(Key(a, b))
  {
    LowScoreValue(a, b);
  }

  /** On keys of valid hands, a lower key stands for a lower score. */
  lemma KeyLessValueLess(x: LowKey, y: LowKey)
    requires WellFormedKey(x) && WellFormedKey(y) && KeyLess(x, y)
    ensures KeyValue(x) < KeyValue(y)
  {
    if !x.pair && y.pair {
      NonPairBelowPairBit(x.high, x.low);
    } else if x.high < y.high {
      Pow2Step(x.high, y.high);
      if !x.pair {
        Pow2Step(x.low, x.high);
      }
    } else {
      Pow2Step(x.low, y.low);
    }
  }

  /** A lower key scores lower. */
  lemma KeyLessScoresLess(a: Card, b: Card, c: Card, d: Card)
    requires ValidCard(a) && ValidCard(b) && ValidCard(c) && ValidCard(d)
    requires KeyLess(Key(a, b), Key(c, d))
    ensures LowScore(a, b) < LowScore(c, d)
  {
    KeyWellFormed(a, b);
    KeyWellFormed(c, d);
    KeyLessValueLess(Key(a, b), Key(c, d));
  }

  /** ScoreLowHand orders two-card hands exactly by the key: one hand scores
      lower than another if and only if its key is lower, and two hands score
      the same if and only if their keys agree. */
  lemma LowScoreOrder(a: Card, b: Card, c: Card, d: Card)
    requires ValidCard(a) && ValidCard(b) && ValidCard(c) && ValidCard(d)
    ensures LowScore(a, b) < LowScore(c, d) <==> KeyLess(Key(a, b), Key(c, d))
    ensures LowScore(a, b) == LowScore(c, d) <==> Key(a, b) == Key(c, d)
  {
    var x, y := Key(a, b), Key(c, d);
    if KeyLess(x, y) {
      KeyLessScoresLess(a, b, c, d);
    } else if KeyLess(y, x) {
      KeyLessScoresLess(c, d, a, b);
    } else {
      assert x == y;
      KeyWellFormed(a, b);
      KeyWellFormed(c, d);
    }
  }
}
