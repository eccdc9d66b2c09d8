/** paigow.cpp's ScoreHighHand: the five cards of the high hand are folded
    into one rank mask per suit, and the poker category is read off those
    four masks with bitwise and/or, popcount, ctz and clz. This module gives
    the scoring switch, the loop that builds the masks, and an independent
    classification of the hand by how many cards share each rank, and
    proves the two agree. */
module HighHand {
  import opened Masks
  import opened Cards

  // ---------------------------------------------------------------------
  // Suit masks

  /** Four rank masks (clubs, diamonds, hearts, spades) holding only ranks. */
  predicate RankMasks(s: seq<set<nat>>)
  {
    |s| == 4 && forall i, r :: 0 <= i < 4 && r in s[i] ==> r < 13
  }

  /** The number of cards the masks hold. */
  function CardCount(s: seq<set<nat>>): nat
    requires |s| == 4
  {
    PopCount(s[0]) + PopCount(s[1]) + PopCount(s[2]) + PopCount(s[3])
  }

  /** The masks of a five-card hand. */
  predicate FiveCards(s: seq<set<nat>>)
  {
    RankMasks(s) && CardCount(s) == 5
  }

  /** groups: every rank present. */
  function Groups(s: seq<set<nat>>): set<nat>
    requires |s| == 4
  {
    s[0] + s[1] + s[2] + s[3]
  }

  /** pairs: the ranks present in at least two suits. */
  function Pairs(s: seq<set<nat>>): set<nat>
    requires |s| == 4
  {
    (s[0] * s[1]) + (s[0] * s[2]) + (s[0] * s[3]) + (s[1] * s[2]) + (s[1] * s[3]) + (s[2] * s[3])
  }

  /** three: the ranks present in at least three suits. */
  function Threes(s: seq<set<nat>>): set<nat>
    requires |s| == 4
  {
    (s[0] * s[1] * s[2]) + (s[0] * s[1] * s[3]) + (s[0] * s[2] * s[3]) + (s[1] * s[2] * s[3])
  }

  /** four: the ranks present in every suit. */
  function Fours(s: seq<set<nat>>): set<nat>
    requires |s| == 4
  {
    s[0] * s[1] * s[2] * s[3]
  }

  // ---------------------------------------------------------------------
  // Counting cards per rank

  /** The number of cards of rank r. */
  function Cnt(s: seq<set<nat>>, r: nat): nat
    requires |s| == 4
  {
    (if r in s[0] then 1 else 0) + (if r in s[1] then 1 else 0)
    + (if r in s[2] then 1 else 0) + (if r in s[3] then 1 else 0)
  }

  /** The ranks held by at least j cards. */
  function Layer(s: seq<set<nat>>, j: nat): set<nat>
    requires |s| == 4
  {
    set r | r in Groups(s) && Cnt(s, r) >= j
  }

  /** The number of ranks below k held by exactly j cards. */
  function RanksWithCount(s: seq<set<nat>>, j: nat, k: nat): nat
    requires |s| == 4
  {
    if k == 0 then 0
    else RanksWithCount(s, j, k - 1) + (if Cnt(s, k - 1) == j then 1 else 0)
  }

  /** The bitwise masks are the layers of the per-rank counts. */
  lemma LayerMasks(s: seq<set<nat>>)
    requires |s| == 4
    ensures Groups(s) == Layer(s, 1)
    ensures Pairs(s) == Layer(s, 2)
    ensures Threes(s) == Layer(s, 3)
    ensures Fours(s) == Layer(s, 4)
    ensures Layer(s, 5) == {}
  {
    forall r
      ensures (r in Groups(s) <==> r in Layer(s, 1))
      ensures (r in Pairs(s) <==> r in Layer(s, 2))
      ensures (r in Threes(s) <==> r in Layer(s, 3))
      ensures (r in Fours(s) <==> r in Layer(s, 4))
      ensures r !in Layer(s, 5)
    {
    }
  }

  /** Counting the cards suit by suit or layer by layer gives the same
      total: each rank with c cards lies in layers 1 to c. */
  lemma {:induction false} LayerCake(s: seq<set<nat>>, k: nat)
    requires |s| == 4
    ensures CountIn(s[0], 0, k) + CountIn(s[1], 0, k) + CountIn(s[2], 0, k) + CountIn(s[3], 0, k)
         == CountIn(Layer(s, 1), 0, k) + CountIn(Layer(s, 2), 0, k)
          + CountIn(Layer(s, 3), 0, k) + CountIn(Layer(s, 4), 0, k)
  {
    if k > 0 {
      LayerCake(s, k - 1);
    }
  }

  /** The ranks held by exactly j cards are layer j without layer j + 1. */
  lemma {:induction false} ExactFromLayers(s: seq<set<nat>>, j: nat, k: nat)
    requires |s| == 4 && j >= 1
    ensures RanksWithCount(s, j, k) + CountIn(Layer(s, j + 1), 0, k) == CountIn(Layer(s, j), 0, k)
  {
    if k > 0 {
      ExactFromLayers(s, j, k - 1);
    }
  }

  /** The number of ranks held by at least j cards. */
  function AtLeast(s: seq<set<nat>>, j: nat): nat
    requires |s| == 4
  {
    PopCount(Layer(s, j))
  }

  /** The shape of a five-card hand: the layer sizes add up to five and
      shrink from layer to layer. */
  lemma Shape(s: seq<set<nat>>)
    requires FiveCards(s)
    ensures AtLeast(s, 1) + AtLeast(s, 2) + AtLeast(s, 3) + AtLeast(s, 4) == 5
    ensures AtLeast(s, 4) <= AtLeast(s, 3) <= AtLeast(s, 2) <= AtLeast(s, 1)
    ensures 2 <= AtLeast(s, 1) <= 5
  {
    ShapeSum(s);
    ShapeOrder(s);
  }

  /** Each card lies in exactly one layer per card of its rank. */
  lemma ShapeSum(s: seq<set<nat>>)
    requires FiveCards(s)
    ensures AtLeast(s, 1) + AtLeast(s, 2) + AtLeast(s, 3) + AtLeast(s, 4) == 5
  {
    LayerCake(s, Width);
  }

  /** A rank held by j + 1 cards is held by j cards. */
  lemma ShapeOrder(s: seq<set<nat>>)
    requires |s| == 4
    ensures AtLeast(s, 4) <= AtLeast(s, 3) <= AtLeast(s, 2) <= AtLeast(s, 1)
  {
    CountSubset(Layer(s, 2), Layer(s, 1), 0, Width);
    CountSubset(Layer(s, 3), Layer(s, 2), 0, Width);
    CountSubset(Layer(s, 4), Layer(s, 3), 0, Width);
  }

  lemma LayerSteps(s: seq<set<nat>>)
    requires |s| == 4
    ensures RanksWithCount(s, 4, Width) + AtLeast(s, 5) == AtLeast(s, 4)
    ensures RanksWithCount(s, 3, Width) + AtLeast(s, 4) == AtLeast(s, 3)
    ensures RanksWithCount(s, 2, Width) + AtLeast(s, 3) == AtLeast(s, 2)
  {
    ExactLayer(s, 2);
    ExactLayer(s, 3);
    ExactLayer(s, 4);
  }

  lemma ExactLayer(s: seq<set<nat>>, j: nat)
    requires |s| == 4 && j >= 1
    ensures RanksWithCount(s, j, Width) + AtLeast(s, j + 1) == AtLeast(s, j)
  {
    ExactFromLayers(s, j, Width);
  }

  lemma NoFifthLayer(s: seq<set<nat>>)
    requires |s| == 4
    ensures AtLeast(s, 5) == 0
  {
    assert Layer(s, 5) == {};
    CountNone(Layer(s, 5), 0, Width);
  }

  /** The shape of a five-card hand read off the bitwise masks. */
  lemma MaskShape(s: seq<set<nat>>)
    requires FiveCards(s)
    ensures PopCount(Groups(s)) + PopCount(Pairs(s)) + PopCount(Threes(s)) + PopCount(Fours(s)) == 5
    ensures PopCount(Fours(s)) <= PopCount(Threes(s)) <= PopCount(Pairs(s)) <= PopCount(Groups(s))
    ensures 2 <= PopCount(Groups(s)) <= 5
    ensures Fours(s) <= Threes(s) <= Pairs(s) <= Groups(s)
  {
    Shape(s);
    LayerMasks(s);
  }

  // ---------------------------------------------------------------------
  // The scoring switch

  /** The switch of ScoreHighHand on the four suit masks: the category
      offset plus a tie-break built from the rank masks. A shift left by
      13, 8 or 4 is a multiplication by 8192, 256 or 16 (nothing overflows:
      every mask holds ranks below 13). */
  function ScoreFromSuits(s: seq<set<nat>>): nat
    requires FiveCards(s)
  {
    MaskShape(s);
    var numGroups := PopCount(Groups(s));
    if numGroups == 5 then FiveGroups(s)
    else if numGroups == 4 then FourGroups(s)
    else if numGroups == 3 then ThreeGroups(s)
    else TwoGroups(s)  // numGroups is 2: the default case cannot be reached
  }

  /** case 5: five different ranks. */
  function FiveGroups(s: seq<set<nat>>): nat
    requires FiveCards(s) && PopCount(Groups(s)) == 5
  {
    var groups := Groups(s);
    var isFlush := PopCount(s[0]) == 5 || PopCount(s[1]) == 5 || PopCount(s[2]) == 5 || PopCount(s[3]) == 5;
    var isStraight := Ctz(groups) + Clz(groups) == 27;
    if isFlush && isStraight then 8000000 + MaskValue(groups)   // straight flush
    else if isFlush then 5000000 + MaskValue(groups)           // flush
    else if isStraight then 4000000 + MaskValue(groups)        // straight
    else MaskValue(groups)                                     // nothing
  }

  /** case 4: one pair. */
  function FourGroups(s: seq<set<nat>>): nat
    requires FiveCards(s) && PopCount(Groups(s)) == 4
  {
    MaskShape(s);
    var groups, pairs := Groups(s), Pairs(s);
    1000000 + Ctz(pairs) * 8192 + MaskValue(groups - pairs)
  }

  /** case 3: two pairs, or three of a kind. */
  function ThreeGroups(s: seq<set<nat>>): nat
    requires FiveCards(s) && PopCount(Groups(s)) == 3
  {
    MaskShape(s);
    var groups, pairs := Groups(s), Pairs(s);
    CountDiff(groups, pairs, 0, Width);
    if PopCount(pairs) > 1 then                                // two pairs
      2000000 + (Width - Clz(pairs)) * 256 + Ctz(pairs) * 16 + Ctz(groups - pairs)
    else                                                       // three of a kind
      3000000 + Ctz(pairs) * 8192 + MaskValue(groups - pairs)
  }

  /** case 2: four of a kind, or a full house. */
  function TwoGroups(s: seq<set<nat>>): nat
    requires FiveCards(s) && PopCount(Groups(s)) == 2
  {
    MaskShape(s);
    var groups, four := Groups(s), Fours(s);
    var rest := groups - four;
    CountDiff(groups, four, 0, Width);
    if PopCount(four) > 0 then                                 // four of a kind
      7000000 + Ctz(four) * 16 + Ctz(rest)
    else                                                       // full house
      var three := Threes(s);
      EmptyMask(four);
      CountDiff(rest, three, 0, Width);
      6000000 + Ctz(three) * 16 + Ctz(rest - three)
  }

  // ---------------------------------------------------------------------
  // The standard classification, by how many cards share each rank

  /** All five cards in one suit. */
  predicate IsFlush(s: seq<set<nat>>)
    requires |s| == 4
  {
    PopCount(s[0]) == 5 || PopCount(s[1]) == 5 || PopCount(s[2]) == 5 || PopCount(s[3]) == 5
  }

  /** One card of each of the five ranks lo, ..., lo + 4. */
  predicate RunFrom(s: seq<set<nat>>, lo: nat)
    requires |s| == 4
  {
    forall r :: lo <= r < lo + 5 ==> Cnt(s, r) == 1
  }

  /** Five consecutive ranks; the ace (rank 12) only counts high. */
  predicate IsStraight(s: seq<set<nat>>)
    requires |s| == 4
  {
    exists lo: nat :: lo + 5 <= 13 && RunFrom(s, lo)
  }

  /** The category of the standard poker ranking: 8 straight flush, 7 four
      of a kind, 6 full house, 5 flush, 4 straight, 3 three of a kind,
      2 two pairs, 1 one pair, 0 nothing. */
  function Category(s: seq<set<nat>>): nat
    requires |s| == 4
  {
    var pairs := RanksWithCount(s, 2, Width);
    var trips := RanksWithCount(s, 3, Width);
    var quads := RanksWithCount(s, 4, Width);
    if IsFlush(s) && IsStraight(s) then 8
    else if quads > 0 then 7
    else if trips > 0 && pairs > 0 then 6
    else if IsFlush(s) then 5
    else if IsStraight(s) then 4
    else if trips > 0 then 3
    else if pairs >= 2 then 2
    else if pairs == 1 then 1
    else 0
  }

  /** A flush holds five different ranks. */
  lemma FlushIsDistinct(s: seq<set<nat>>)
    requires FiveCards(s) && IsFlush(s)
    ensures PopCount(Groups(s)) == 5
  {
    var c, d, h, p := s[0], s[1], s[2], s[3];
    assert Groups(s) == c + d + h + p;
    OneSuit(c, d, h, p);
  }

  /** Four masks holding five cards between them, one of them all five:
      the others are empty and their union is that one. */
  lemma OneSuit(c: set<nat>, d: set<nat>, h: set<nat>, p: set<nat>)
    requires forall r :: r in c ==> r < Width
    requires forall r :: r in d ==> r < Width
    requires forall r :: r in h ==> r < Width
    requires forall r :: r in p ==> r < Width
    requires PopCount(c) + PopCount(d) + PopCount(h) + PopCount(p) == 5
    requires PopCount(c) == 5 || PopCount(d) == 5 || PopCount(h) == 5 || PopCount(p) == 5
    ensures PopCount(c + d + h + p) == 5
  {
    if PopCount(c) == 5 {
      EmptyMask(d); EmptyMask(h); EmptyMask(p);
      assert c + d + h + p == c;
    } else if PopCount(d) == 5 {
      EmptyMask(c); EmptyMask(h); EmptyMask(p);
      assert c + d + h + p == d;
    } else if PopCount(h) == 5 {
      EmptyMask(c); EmptyMask(d); EmptyMask(p);
      assert c + d + h + p == h;
    } else {
      EmptyMask(c); EmptyMask(d); EmptyMask(h);
      assert c + d + h + p == p;
    }
  }

  /** Membership in groups and pairs, rank by rank. */
  lemma CntMembership(s: seq<set<nat>>, r: nat)
    requires |s| == 4
    ensures r in Groups(s) <==> Cnt(s, r) >= 1
    ensures r in Pairs(s) <==> Cnt(s, r) >= 2
  {
  }

  /** The straight test of ScoreHighHand, ctz + clz == 27 on five different
      ranks (the highest rank is four above the lowest), holds exactly for
      five consecutive ranks. */
  lemma StraightTest(s: seq<set<nat>>)
    requires FiveCards(s)
    ensures IsStraight(s) <==>
      (PopCount(Groups(s)) == 5 && Ctz(Groups(s)) + Clz(Groups(s)) == 27)
  {
    if PopCount(Groups(s)) == 5 && Ctz(Groups(s)) + Clz(Groups(s)) == 27 {
      StraightTestSufficient(s);
    }
    if IsStraight(s) {
      StraightTestNecessary(s);
    }
  }

  lemma StraightTestSufficient(s: seq<set<nat>>)
    requires FiveCards(s)
    requires PopCount(Groups(s)) == 5 && Ctz(Groups(s)) + Clz(Groups(s)) == 27
    ensures IsStraight(s)
  {
    var g := Groups(s);
    MaskShape(s);
    var lo, hi := Ctz(g), Highest(g, 0, Width);
    RankMaskEnds(g);
    EndsAreRun(g);
    EmptyMask(Pairs(s));
    forall r | lo <= r < lo + 5
      ensures Cnt(s, r) == 1
    {
      CntMembership(s, r);
    }
    assert RunFrom(s, lo);
  }

  lemma StraightTestNecessary(s: seq<set<nat>>)
    requires FiveCards(s) && IsStraight(s)
    ensures PopCount(Groups(s)) == 5 && Ctz(Groups(s)) + Clz(Groups(s)) == 27
  {
    var g := Groups(s);
    MaskShape(s);
    var lo: nat :| lo + 5 <= 13 && RunFrom(s, lo);
    forall r | lo <= r < lo + 5
      ensures r in g
    {
      CntMembership(s, r);
    }
    RunEnds(g, lo, lo + 5);
  }

  // ---------------------------------------------------------------------
  // The score carries the category

  /** The rank masks of a hand and everything derived from them hold ranks only. */
  lemma MasksHoldRanks(s: seq<set<nat>>)
    requires RankMasks(s)
    ensures forall r :: r in Groups(s) ==> r < 13
  {
  }

  /** ScoreHighHand's result lies in the band of the hand's category:
      category * 1,000,000 plus a tie-break below 1,000,000, so a hand of a
      higher category always scores higher. */
  lemma ScoreCategory(s: seq<set<nat>>)
    requires FiveCards(s)
    ensures Category(s) * 1000000 <= ScoreFromSuits(s) < Category(s) * 1000000 + 1000000
  {
    MaskShape(s);
    var n := PopCount(Groups(s));
    if n == 5 {
      FiveGroupsCategory(s);
    } else if n == 4 {
      FourGroupsCategory(s);
    } else if n == 3 {
      ThreeGroupsCategory(s);
    } else {
      TwoGroupsCategory(s);
    }
  }

  /** The counts of ranks held by exactly two, three and four cards, read
      off the bitwise masks. */
  lemma CountsFromMasks(s: seq<set<nat>>)
    requires FiveCards(s)
    ensures RanksWithCount(s, 4, Width) == PopCount(Fours(s))
    ensures RanksWithCount(s, 3, Width) + PopCount(Fours(s)) == PopCount(Threes(s))
    ensures RanksWithCount(s, 2, Width) + PopCount(Threes(s)) == PopCount(Pairs(s))
  {
    LayerSteps(s);
    NoFifthLayer(s);
    LayerMasks(s);
  }

  lemma FiveGroupsCategory(s: seq<set<nat>>)
    requires FiveCards(s) && PopCount(Groups(s)) == 5
    ensures Category(s) * 1000000 <= ScoreFromSuits(s) < Category(s) * 1000000 + 1000000
    ensures ScoreFromSuits(s) == Category(s) * 1000000 + MaskValue(Groups(s))
  {
    MaskShape(s);
    CountsFromMasks(s);
    StraightTest(s);
    MasksHoldRanks(s);
    RankMaskValue(Groups(s));
  }

  lemma FourGroupsCategory(s: seq<set<nat>>)
    requires FiveCards(s) && PopCount(Groups(s)) == 4
    ensures Category(s) == 1
    ensures 1000000 <= ScoreFromSuits(s) < 2000000
  {
    MaskShape(s);
    CountsFromMasks(s);
    StraightTest(s);
    if IsFlush(s) {
      FlushIsDistinct(s);
    }
    MasksHoldRanks(s);
    RankMaskValue(Groups(s) - Pairs(s));
    RankMaskEnds(Pairs(s));
  }

  lemma ThreeGroupsCategory(s: seq<set<nat>>)
    requires FiveCards(s) && PopCount(Groups(s)) == 3
    ensures Category(s) * 1000000 <= ScoreFromSuits(s) < Category(s) * 1000000 + 1000000
    ensures Category(s) == 2 || Category(s) == 3
  {
    ThreeGroupsKind(s);
    ThreeGroupsBand(s);
    ScoreIsThreeGroups(s);
  }

  /** Three ranks among five cards: two pairs when two ranks are paired,
      three of a kind otherwise. */
  lemma ThreeGroupsKind(s: seq<set<nat>>)
    requires FiveCards(s) && PopCount(Groups(s)) == 3
    ensures Category(s) == if PopCount(Pairs(s)) > 1 then 2 else 3
  {
    MaskShape(s);
    CountsFromMasks(s);
    StraightTest(s);
    if IsFlush(s) {
      FlushIsDistinct(s);
    }
  }

  lemma ThreeGroupsBand(s: seq<set<nat>>)
    requires FiveCards(s) && PopCount(Groups(s)) == 3
    ensures PopCount(Pairs(s)) > 1 ==> 2000000 <= ThreeGroups(s) < 3000000
    ensures PopCount(Pairs(s)) <= 1 ==> 3000000 <= ThreeGroups(s) < 4000000
  {
    MaskShape(s);
    MasksHoldRanks(s);
    var groups, pairs := Groups(s), Pairs(s);
    CountDiff(groups, pairs, 0, Width);
    RankMaskEnds(pairs);
    if PopCount(pairs) > 1 {
      RankMaskEnds(groups - pairs);
    } else {
      RankMaskValue(groups - pairs);
    }
  }

  lemma ScoreIsThreeGroups(s: seq<set<nat>>)
    requires FiveCards(s) && PopCount(Groups(s)) == 3
    ensures ScoreFromSuits(s) == ThreeGroups(s)
  {
  }

  lemma TwoGroupsCategory(s: seq<set<nat>>)
    requires FiveCards(s) && PopCount(Groups(s)) == 2
    ensures Category(s) * 1000000 <= ScoreFromSuits(s) < Category(s) * 1000000 + 1000000
    ensures Category(s) == 6 || Category(s) == 7
  {
    TwoGroupsKind(s);
    TwoGroupsBand(s);
    ScoreIsTwoGroups(s);
  }

  /** Two ranks among five cards: four of a kind exactly when a rank is in
      every suit, a full house otherwise. */
  lemma TwoGroupsKind(s: seq<set<nat>>)
    requires FiveCards(s) && PopCount(Groups(s)) == 2
    ensures Category(s) == if PopCount(Fours(s)) > 0 then 7 else 6
  {
    MaskShape(s);
    CountsFromMasks(s);
    StraightTest(s);
    if IsFlush(s) {
      FlushIsDistinct(s);
    }
  }

  lemma TwoGroupsBand(s: seq<set<nat>>)
    requires FiveCards(s) && PopCount(Groups(s)) == 2
    ensures PopCount(Fours(s)) > 0 ==> 7000000 <= TwoGroups(s) < 8000000
    ensures PopCount(Fours(s)) == 0 ==> 6000000 <= TwoGroups(s) < 7000000
  {
    MaskShape(s);
    MasksHoldRanks(s);
    var groups, four := Groups(s), Fours(s);
    var rest := groups - four;
    CountDiff(groups, four, 0, Width);
    if PopCount(four) > 0 {
      RankMaskEnds(four);
      RankMaskEnds(rest);
    } else {
      var three := Threes(s);
      EmptyMask(four);
      CountDiff(rest, three, 0, Width);
      RankMaskEnds(three);
      RankMaskEnds(rest - three);
    }
  }

  lemma ScoreIsTwoGroups(s: seq<set<nat>>)
    requires FiveCards(s) && PopCount(Groups(s)) == 2
    ensures ScoreFromSuits(s) == TwoGroups(s)
  {
  }

  /** Category dominance: a hand of a higher category scores higher. */
  lemma HigherCategoryWins(s: seq<set<nat>>, t: seq<set<nat>>)
    requires FiveCards(s) && FiveCards(t)
    requires Category(s) > Category(t)
    ensures ScoreFromSuits(s) > ScoreFromSuits(t)
  {
    ScoreCategory(s);
    ScoreCategory(t);
  }

  /** No wheel: a hand holding both an ace (rank 12) and a two (rank 0) is
      never a straight, and the straight test of the switch rejects it. */
  lemma NoWheel(s: seq<set<nat>>)
    requires FiveCards(s) && 0 in Groups(s) && 12 in Groups(s)
    ensures !IsStraight(s)
    ensures Category(s) != 4 && Category(s) != 8
  {
    MaskShape(s);
    var g := Groups(s);
    var lo, hi := Ctz(g), Highest(g, 0, Width);
    assert lo == 0;
    assert hi >= 12;
    StraightTest(s);
  }

  /** Among hands of five different ranks and the same category (nothing,
      straight, flush, straight flush), the one holding the highest rank
      where the two differ scores higher. */
  lemma HighCardDecides(s: seq<set<nat>>, t: seq<set<nat>>, r: nat)
    requires FiveCards(s) && FiveCards(t)
    requires PopCount(Groups(s)) == 5 && PopCount(Groups(t)) == 5
    requires Category(s) == Category(t)
    requires r < Width && r in Groups(s) && r !in Groups(t)
    requires forall x :: r < x < Width ==> (x in Groups(s) <==> x in Groups(t))
    ensures ScoreFromSuits(s) > ScoreFromSuits(t)
  {
    FiveGroupsCategory(s);
    FiveGroupsCategory(t);
    ValueGreater(Groups(s), Groups(t), r, Width);
  }

  /** Between two one-pair hands, the higher pair scores higher whatever
      the other cards. */
  lemma PairRankDecides(s: seq<set<nat>>, t: seq<set<nat>>)
    requires FiveCards(s) && FiveCards(t)
    requires PopCount(Groups(s)) == 4 && PopCount(Groups(t)) == 4
    ensures PopCount(Pairs(s)) > 0 && PopCount(Pairs(t)) > 0
    ensures Ctz(Pairs(s)) > Ctz(Pairs(t)) ==> ScoreFromSuits(s) > ScoreFromSuits(t)
  {
    MaskShape(s);
    MaskShape(t);
    MasksHoldRanks(s);
    MasksHoldRanks(t);
    RankMaskValue(Groups(t) - Pairs(t));
    var ps, pt := Ctz(Pairs(s)), Ctz(Pairs(t));
    if ps > pt {
      assert ps * 8192 >= pt * 8192 + 8192;
    }
  }

  // ---------------------------------------------------------------------
  // Tie-breaks within a category

  /** The ranks held by exactly j cards. */
  function Exact(s: seq<set<nat>>, j: nat): set<nat>
    requires |s| == 4
  {
    set r | r in Groups(s) && Cnt(s, r) == j
  }

  /** The tie-break ranks of a hand: its ranks ordered by how many cards
      hold them, then by rank, both from the top. For a full house, the
      rank of the three, then that of the pair; for one pair, the pair's
      rank, then the three other ranks from the highest. */
  function TieRanks(s: seq<set<nat>>): seq<nat>
    requires |s| == 4
  {
    BitsDown(Exact(s, 4), Width) + BitsDown(Exact(s, 3), Width)
    + BitsDown(Exact(s, 2), Width) + BitsDown(Exact(s, 1), Width)
  }

  /** The ranks held by exactly j cards, read off the bitwise masks. */
  lemma ExactMasks(s: seq<set<nat>>)
    requires |s| == 4
    ensures Exact(s, 4) == Fours(s)
    ensures Exact(s, 3) == Threes(s) - Fours(s)
    ensures Exact(s, 2) == Pairs(s) - Threes(s)
    ensures Exact(s, 1) == Groups(s) - Pairs(s)
  {
    LayerMasks(s);
    forall r
      ensures (r in Exact(s, 4) <==> r in Layer(s, 4))
      ensures (r in Exact(s, 3) <==> r in Layer(s, 3) && r !in Layer(s, 4))
      ensures (r in Exact(s, 2) <==> r in Layer(s, 2) && r !in Layer(s, 3))
      ensures (r in Exact(s, 1) <==> r in Layer(s, 1) && r !in Layer(s, 2))
    {
    }
  }

  /** The tie-break ranks read off the bitwise masks. */
  lemma TieRanksFromMasks(s: seq<set<nat>>)
    requires |s| == 4
    ensures TieRanks(s) == BitsDown(Fours(s), Width) + BitsDown(Threes(s) - Fours(s), Width)
                           + BitsDown(Pairs(s) - Threes(s), Width) + BitsDown(Groups(s) - Pairs(s), Width)
  {
    ExactMasks(s);
  }

  /** The popcounts of the masks of a five-card hand, and of their
      differences. */
  lemma MaskCounts(s: seq<set<nat>>)
    requires FiveCards(s)
    ensures forall r :: r in Groups(s) ==> r < 13
    ensures Fours(s) <= Threes(s) <= Pairs(s) <= Groups(s)
    ensures PopCount(Groups(s)) + PopCount(Pairs(s)) + PopCount(Threes(s)) + PopCount(Fours(s)) == 5
    ensures PopCount(Fours(s)) <= PopCount(Threes(s)) <= PopCount(Pairs(s)) <= PopCount(Groups(s))
    ensures PopCount(Threes(s) - Fours(s)) + PopCount(Fours(s)) == PopCount(Threes(s))
    ensures PopCount(Pairs(s) - Threes(s)) + PopCount(Threes(s)) == PopCount(Pairs(s))
    ensures PopCount(Groups(s) - Pairs(s)) + PopCount(Pairs(s)) == PopCount(Groups(s))
  {
    MaskShape(s);
    MasksHoldRanks(s);
    CountDiff(Threes(s), Fours(s), 0, Width);
    CountDiff(Pairs(s), Threes(s), 0, Width);
    CountDiff(Groups(s), Pairs(s), 0, Width);
  }

  /** An empty word lists no bit. */
  lemma BitsNone(w: set<nat>)
    requires PopCount(w) == 0
    ensures BitsDown(w, Width) == []
  {
  }

  /** Five different ranks: the tie-break lists them from the highest. */
  lemma FiveGroupsKey(s: seq<set<nat>>)
    requires FiveCards(s) && PopCount(Groups(s)) == 5
    ensures TieRanks(s) == BitsDown(Groups(s), Width)
  {
    MaskCounts(s);
    TieRanksFromMasks(s);
    var g, p, th, f := Groups(s), Pairs(s), Threes(s), Fours(s);
    BitsNone(f);
    BitsNone(th - f);
    BitsNone(p - th);
    EmptyMask(p);
    assert g - p == g;
  }

  /** One pair: the pair's rank, then the other three ranks from the
      highest. */
  lemma OnePairKey(s: seq<set<nat>>)
    requires FiveCards(s) && PopCount(Groups(s)) == 4
    ensures PopCount(Pairs(s)) == 1
    ensures TieRanks(s) == [Ctz(Pairs(s))] + BitsDown(Groups(s) - Pairs(s), Width)
  {
    MaskCounts(s);
    TieRanksFromMasks(s);
    var g, p, th, f := Groups(s), Pairs(s), Threes(s), Fours(s);
    BitsNone(f);
    BitsNone(th - f);
    EmptyMask(th);
    assert p - th == p;
    BitsOne(p);
  }

  /** One pair's score packs the pair's rank above the mask of the others. */
  lemma OnePairScore(s: seq<set<nat>>)
    requires FiveCards(s) && PopCount(Groups(s)) == 4
    ensures PopCount(Pairs(s)) > 0
    ensures ScoreFromSuits(s) == 1000000 + Ctz(Pairs(s)) * 8192 + MaskValue(Groups(s) - Pairs(s))
    ensures MaskValue(Groups(s) - Pairs(s)) < 8192
  {
    MaskCounts(s);
    RankMaskValue(Groups(s) - Pairs(s));
  }

  /** Two pairs: the higher pair, the lower pair, then the odd card. */
  lemma TwoPairsKey(s: seq<set<nat>>)
    requires FiveCards(s) && PopCount(Groups(s)) == 3 && PopCount(Pairs(s)) > 1
    ensures PopCount(Groups(s) - Pairs(s)) == 1
    ensures TieRanks(s) == [Highest(Pairs(s), 0, Width), Ctz(Pairs(s)), Ctz(Groups(s) - Pairs(s))]
  {
    MaskCounts(s);
    TieRanksFromMasks(s);
    var g, p, th, f := Groups(s), Pairs(s), Threes(s), Fours(s);
    BitsNone(f);
    BitsNone(th - f);
    EmptyMask(th);
    assert p - th == p;
    BitsTwo(p);
    BitsOne(g - p);
  }

  /** Two pairs' score packs the pairs and the odd card at 256, 16 and 1;
      32 - clz is the higher pair's rank plus one. */
  lemma TwoPairsScore(s: seq<set<nat>>)
    requires FiveCards(s) && PopCount(Groups(s)) == 3 && PopCount(Pairs(s)) > 1
    ensures PopCount(Groups(s) - Pairs(s)) > 0
    ensures ScoreFromSuits(s) == 2000000 + (Highest(Pairs(s), 0, Width) + 1) * 256
                                 + Ctz(Pairs(s)) * 16 + Ctz(Groups(s) - Pairs(s))
    ensures Ctz(Pairs(s)) < 16 && Ctz(Groups(s) - Pairs(s)) < 16
  {
    MaskCounts(s);
    RankMaskEnds(Pairs(s));
    RankMaskEnds(Groups(s) - Pairs(s));
    ScoreIsThreeGroups(s);
  }

  /** Three of a kind: the rank of the three, then the other two ranks from
      the higher. */
  lemma TripsKey(s: seq<set<nat>>)
    requires FiveCards(s) && PopCount(Groups(s)) == 3 && PopCount(Pairs(s)) <= 1
    ensures PopCount(Pairs(s)) == 1
    ensures TieRanks(s) == [Ctz(Pairs(s))] + BitsDown(Groups(s) - Pairs(s), Width)
  {
    MaskCounts(s);
    TieRanksFromMasks(s);
    var g, p, th, f := Groups(s), Pairs(s), Threes(s), Fours(s);
    BitsNone(f);
    EmptyMask(f);
    assert th - f == th;
    SubWordFull(p, th);
    BitsOne(p);
    BitsNone(p - th);
  }

  /** Three of a kind's score packs the three's rank above the mask of the
      others. */
  lemma TripsScore(s: seq<set<nat>>)
    requires FiveCards(s) && PopCount(Groups(s)) == 3 && PopCount(Pairs(s)) <= 1
    ensures PopCount(Pairs(s)) > 0
    ensures ScoreFromSuits(s) == 3000000 + Ctz(Pairs(s)) * 8192 + MaskValue(Groups(s) - Pairs(s))
    ensures MaskValue(Groups(s) - Pairs(s)) < 8192
  {
    MaskCounts(s);
    RankMaskValue(Groups(s) - Pairs(s));
    ScoreIsThreeGroups(s);
  }

  /** Four of a kind: the rank of the four, then the odd card's. */
  lemma QuadsKey(s: seq<set<nat>>)
    requires FiveCards(s) && PopCount(Groups(s)) == 2 && PopCount(Fours(s)) > 0
    ensures PopCount(Groups(s) - Fours(s)) == 1
    ensures TieRanks(s) == [Ctz(Fours(s)), Ctz(Groups(s) - Fours(s))]
  {
    MaskCounts(s);
    TieRanksFromMasks(s);
    QuadsRanks(Groups(s), Pairs(s), Threes(s), Fours(s));
  }

  /** The ranks of four of a kind, on the masks alone. */
  lemma QuadsRanks(g: set<nat>, p: set<nat>, th: set<nat>, f: set<nat>)
    requires f <= th <= p <= g && forall r :: r in g ==> r < Width
    requires PopCount(f) == 1 && PopCount(th) == 1 && PopCount(p) == 1 && PopCount(g - p) == 1
    requires PopCount(th - f) == 0 && PopCount(p - th) == 0
    ensures PopCount(g - f) == 1
    ensures BitsDown(f, Width) + BitsDown(th - f, Width) + BitsDown(p - th, Width) + BitsDown(g - p, Width)
         == [Ctz(f), Ctz(g - f)]
  {
    SubWordFull(th, f);
    SubWordFull(p, th);
    BitsNone(th - f);
    BitsNone(p - th);
    assert g - p == g - f;
    BitsOne(f);
    BitsOne(g - f);
  }

  /** Four of a kind's score packs the four's rank and the odd card's at 16
      and 1. */
  lemma QuadsScore(s: seq<set<nat>>)
    requires FiveCards(s) && PopCount(Groups(s)) == 2 && PopCount(Fours(s)) > 0
    ensures PopCount(Groups(s) - Fours(s)) > 0
    ensures ScoreFromSuits(s) == 7000000 + Ctz(Fours(s)) * 16 + Ctz(Groups(s) - Fours(s))
    ensures Ctz(Groups(s) - Fours(s)) < 16
  {
    MaskCounts(s);
    CountDiff(Groups(s), Fours(s), 0, Width);
    RankMaskEnds(Groups(s) - Fours(s));
    ScoreIsTwoGroups(s);
  }

  /** Full house: the rank of the three, then the pair's. */
  lemma FullHouseKey(s: seq<set<nat>>)
    requires FiveCards(s) && PopCount(Groups(s)) == 2 && PopCount(Fours(s)) == 0
    ensures PopCount(Threes(s)) == 1 && PopCount(Groups(s) - Threes(s)) == 1
    ensures TieRanks(s) == [Ctz(Threes(s)), Ctz(Groups(s) - Threes(s))]
  {
    MaskCounts(s);
    TieRanksFromMasks(s);
    var g, p, th, f := Groups(s), Pairs(s), Threes(s), Fours(s);
    BitsNone(f);
    EmptyMask(f);
    assert th - f == th;
    SubWordFull(g, p);
    BitsOne(th);
    BitsOne(p - th);
    BitsNone(g - p);
  }

  /** A full house's score packs the three's rank and the pair's at 16
      and 1. */
  lemma FullHouseScore(s: seq<set<nat>>)
    requires FiveCards(s) && PopCount(Groups(s)) == 2 && PopCount(Fours(s)) == 0
    ensures PopCount(Threes(s)) > 0 && PopCount(Groups(s) - Threes(s)) > 0
    ensures ScoreFromSuits(s) == 6000000 + Ctz(Threes(s)) * 16 + Ctz(Groups(s) - Threes(s))
    ensures Ctz(Groups(s) - Threes(s)) < 16
  {
    MaskCounts(s);
    EmptyMask(Fours(s));
    assert Groups(s) - Fours(s) == Groups(s);
    CountDiff(Groups(s), Threes(s), 0, Width);
    RankMaskEnds(Groups(s) - Threes(s));
    ScoreIsTwoGroups(s);
  }

  /** Two digits below d: the numbers they make compare like the digits,
      first digit first, and agree only when both digits agree. */
  lemma Digits2(a: nat, b: nat, a2: nat, b2: nat, d: nat)
    requires b < d && b2 < d
    ensures a * d + b < a2 * d + b2 <==> a < a2 || (a == a2 && b < b2)
    ensures a * d + b == a2 * d + b2 <==> a == a2 && b == b2
  {
    if a < a2 {
      MulGap(a, a2, d);
    } else if a2 < a {
      MulGap(a2, a, d);
    }
  }

  /** A larger first digit outweighs any digit below d. */
  lemma {:induction false} MulGap(x: nat, y: nat, d: nat)
    requires x < y
    ensures x * d + d <= y * d
    decreases y - x
  {
    if x + 1 < y {
      MulGap(x, y - 1, d);
      assert (y - 1) * d + d == y * d;
    }
  }

  /** The number of different ranks a category holds. */
  lemma CategoryGroups(s: seq<set<nat>>)
    requires FiveCards(s)
    ensures PopCount(Groups(s)) ==
      if Category(s) == 1 then 4
      else if Category(s) == 2 || Category(s) == 3 then 3
      else if Category(s) == 6 || Category(s) == 7 then 2
      else 5
  {
    MaskShape(s);
    var n := PopCount(Groups(s));
    if n == 5 {
      CountsFromMasks(s);
    } else if n == 4 {
      FourGroupsCategory(s);
    } else if n == 3 {
      ThreeGroupsKind(s);
    } else {
      TwoGroupsKind(s);
    }
  }

  lemma FiveGroupsOrder(s: seq<set<nat>>, t: seq<set<nat>>)
    requires FiveCards(s) && FiveCards(t) && Category(s) == Category(t)
    requires PopCount(Groups(s)) == 5 && PopCount(Groups(t)) == 5
    ensures ScoreFromSuits(s) < ScoreFromSuits(t) <==> LexBefore(TieRanks(s), TieRanks(t))
    ensures ScoreFromSuits(s) == ScoreFromSuits(t) <==> TieRanks(s) == TieRanks(t)
  {
    FiveGroupsKey(s);
    FiveGroupsKey(t);
    FiveGroupsCategory(s);
    FiveGroupsCategory(t);
    ValueOrder(Groups(s), Groups(t), Width);
  }

  lemma OnePairOrder(s: seq<set<nat>>, t: seq<set<nat>>)
    requires FiveCards(s) && FiveCards(t)
    requires PopCount(Groups(s)) == 4 && PopCount(Groups(t)) == 4
    ensures ScoreFromSuits(s) < ScoreFromSuits(t) <==> LexBefore(TieRanks(s), TieRanks(t))
    ensures ScoreFromSuits(s) == ScoreFromSuits(t) <==> TieRanks(s) == TieRanks(t)
  {
    OnePairKey(s);
    OnePairKey(t);
    OnePairScore(s);
    OnePairScore(t);
    RankAndKickers(Ctz(Pairs(s)), Groups(s) - Pairs(s), Ctz(Pairs(t)), Groups(t) - Pairs(t));
  }

  /** A rank packed above a mask of kickers below 8192 orders like the
      rank, then the kickers from the highest. */
  lemma RankAndKickers(a: nat, ka: set<nat>, b: nat, kb: set<nat>)
    requires MaskValue(ka) < 8192 && MaskValue(kb) < 8192
    ensures a * 8192 + MaskValue(ka) < b * 8192 + MaskValue(kb)
        <==> LexBefore([a] + BitsDown(ka, Width), [b] + BitsDown(kb, Width))
    ensures a * 8192 + MaskValue(ka) == b * 8192 + MaskValue(kb)
        <==> [a] + BitsDown(ka, Width) == [b] + BitsDown(kb, Width)
  {
    Digits2(a, MaskValue(ka), b, MaskValue(kb), 8192);
    ValueOrder(ka, kb, Width);
    LexCons(a, BitsDown(ka, Width), b, BitsDown(kb, Width));
  }

  /** Two ranks below 16 packed at 16 and 1 order like the pair of ranks. */
  lemma TwoRanks(a: nat, b: nat, a2: nat, b2: nat)
    requires b < 16 && b2 < 16
    ensures a * 16 + b < a2 * 16 + b2 <==> LexBefore([a, b], [a2, b2])
    ensures a * 16 + b == a2 * 16 + b2 <==> [a, b] == [a2, b2]
  {
    Digits2(a, b, a2, b2, 16);
    assert [a, b] == [a] + [b] && [a2, b2] == [a2] + [b2];
    LexCons(a, [b], a2, [b2]);
    LexCons(b, [], b2, []);
  }

  lemma TwoPairsOrder(s: seq<set<nat>>, t: seq<set<nat>>)
    requires FiveCards(s) && FiveCards(t)
    requires PopCount(Groups(s)) == 3 && PopCount(Pairs(s)) > 1
    requires PopCount(Groups(t)) == 3 && PopCount(Pairs(t)) > 1
    ensures ScoreFromSuits(s) < ScoreFromSuits(t) <==> LexBefore(TieRanks(s), TieRanks(t))
    ensures ScoreFromSuits(s) == ScoreFromSuits(t) <==> TieRanks(s) == TieRanks(t)
  {
    TwoPairsKey(s);
    TwoPairsKey(t);
    TwoPairsScore(s);
    TwoPairsScore(t);
    var hs, ls, ks := Highest(Pairs(s), 0, Width), Ctz(Pairs(s)), Ctz(Groups(s) - Pairs(s));
    var ht, lt, kt := Highest(Pairs(t), 0, Width), Ctz(Pairs(t)), Ctz(Groups(t) - Pairs(t));
    ThreeRanks(hs, ls, ks, ht, lt, kt);
  }

  /** The two-pairs packing (high + 1) * 256 + low * 16 + odd orders like the
      three ranks. */
  lemma ThreeRanks(h: nat, l: nat, k: nat, h2: nat, l2: nat, k2: nat)
    requires l < 16 && k < 16 && l2 < 16 && k2 < 16
    ensures (h + 1) * 256 + l * 16 + k < (h2 + 1) * 256 + l2 * 16 + k2 <==> LexBefore([h, l, k], [h2, l2, k2])
    ensures (h + 1) * 256 + l * 16 + k == (h2 + 1) * 256 + l2 * 16 + k2 <==> [h, l, k] == [h2, l2, k2]
  {
    assert (h + 1) * 256 + l * 16 + k == ((h + 1) * 16 + l) * 16 + k;
    assert (h2 + 1) * 256 + l2 * 16 + k2 == ((h2 + 1) * 16 + l2) * 16 + k2;
    Digits2((h + 1) * 16 + l, k, (h2 + 1) * 16 + l2, k2, 16);
    Digits2(h + 1, l, h2 + 1, l2, 16);
    assert [h, l, k] == [h] + [l, k] && [h2, l2, k2] == [h2] + [l2, k2];
    LexCons(h, [l, k], h2, [l2, k2]);
    TwoRanks(l, k, l2, k2);
    Digits2(l, k, l2, k2, 16);
  }

  lemma TripsOrder(s: seq<set<nat>>, t: seq<set<nat>>)
    requires FiveCards(s) && FiveCards(t)
    requires PopCount(Groups(s)) == 3 && PopCount(Pairs(s)) <= 1
    requires PopCount(Groups(t)) == 3 && PopCount(Pairs(t)) <= 1
    ensures ScoreFromSuits(s) < ScoreFromSuits(t) <==> LexBefore(TieRanks(s), TieRanks(t))
    ensures ScoreFromSuits(s) == ScoreFromSuits(t) <==> TieRanks(s) == TieRanks(t)
  {
    TripsKey(s);
    TripsKey(t);
    TripsScore(s);
    TripsScore(t);
    RankAndKickers(Ctz(Pairs(s)), Groups(s) - Pairs(s), Ctz(Pairs(t)), Groups(t) - Pairs(t));
  }

  lemma QuadsOrder(s: seq<set<nat>>, t: seq<set<nat>>)
    requires FiveCards(s) && FiveCards(t)
    requires PopCount(Groups(s)) == 2 && PopCount(Fours(s)) > 0
    requires PopCount(Groups(t)) == 2 && PopCount(Fours(t)) > 0
    ensures ScoreFromSuits(s) < ScoreFromSuits(t) <==> LexBefore(TieRanks(s), TieRanks(t))
    ensures ScoreFromSuits(s) == ScoreFromSuits(t) <==> TieRanks(s) == TieRanks(t)
  {
    QuadsKey(s);
    QuadsKey(t);
    QuadsScore(s);
    QuadsScore(t);
    TwoRanks(Ctz(Fours(s)), Ctz(Groups(s) - Fours(s)), Ctz(Fours(t)), Ctz(Groups(t) - Fours(t)));
  }

  lemma FullHouseOrder(s: seq<set<nat>>, t: seq<set<nat>>)
    requires FiveCards(s) && FiveCards(t)
    requires PopCount(Groups(s)) == 2 && PopCount(Fours(s)) == 0
    requires PopCount(Groups(t)) == 2 && PopCount(Fours(t)) == 0
    ensures ScoreFromSuits(s) < ScoreFromSuits(t) <==> LexBefore(TieRanks(s), TieRanks(t))
    ensures ScoreFromSuits(s) == ScoreFromSuits(t) <==> TieRanks(s) == TieRanks(t)
  {
    FullHouseKey(s);
    FullHouseKey(t);
    FullHouseScore(s);
    FullHouseScore(t);
    TwoRanks(Ctz(Threes(s)), Ctz(Groups(s) - Threes(s)), Ctz(Threes(t)), Ctz(Groups(t) - Threes(t)));
  }

  /** The tie-break of ScoreHighHand: between two hands of one category,
      the score orders them by their tie-break ranks (the ranks by how many
      cards hold them, then by rank, from the top) compared
      lexicographically, and two hands score the same exactly when those
      ranks agree. With HigherCategoryWins this is the whole of the
      standard ranking. */
  lemma TieBreakOrder(s: seq<set<nat>>, t: seq<set<nat>>)
    requires FiveCards(s) && FiveCards(t) && Category(s) == Category(t)
    ensures ScoreFromSuits(s) < ScoreFromSuits(t) <==> LexBefore(TieRanks(s), TieRanks(t))
    ensures ScoreFromSuits(s) == ScoreFromSuits(t) <==> TieRanks(s) == TieRanks(t)
  {
    CategoryGroups(s);
    CategoryGroups(t);
    var n := PopCount(Groups(s));
    if n == 5 {
      FiveGroupsOrder(s, t);
    } else if n == 4 {
      OnePairOrder(s, t);
    } else if n == 3 {
      ThreeGroupsKind(s);
      ThreeGroupsKind(t);
      if PopCount(Pairs(s)) > 1 {
        TwoPairsOrder(s, t);
      } else {
        TripsOrder(s, t);
      }
    } else {
      TwoGroupsKind(s);
      TwoGroupsKind(t);
      if PopCount(Fours(s)) > 0 {
        QuadsOrder(s, t);
      } else {
        FullHouseOrder(s, t);
      }
    }
  }

  // ---------------------------------------------------------------------
  // Building the suit masks from the cards

  /** Seven cards, each valid, no two the same. */
  predicate DistinctValidCards(cards: seq<Card>)
  {
    && (forall i :: 0 <= i < |cards| ==> ValidCard(cards[i]))
    && (forall i, j :: 0 <= i < j < |cards| ==> cards[i] != cards[j])
  }

  /** suits[suit] once the loop has visited cards 0, ..., k-1, skipping the
      positions x0 and x1 of the low hand. */
  function SuitMask(cards: seq<Card>, x0: nat, x1: nat, suit: nat, k: nat): set<nat>
    requires k <= |cards|
  {
    if k == 0 then {}
    else
      var added := if k - 1 != x0 && k - 1 != x1 && cards[k - 1].suit == suit then cards[k - 1].value else {};
      SuitMask(cards, x0, x1, suit, k - 1) + added
  }

  /** The four suit masks of the high hand left by the low hand (x0, x1). */
  function HandMasks(cards: seq<Card>, x0: nat, x1: nat): seq<set<nat>>
    requires |cards| == 7
  {
    [SuitMask(cards, x0, x1, 0, 7), SuitMask(cards, x0, x1, 1, 7),
     SuitMask(cards, x0, x1, 2, 7), SuitMask(cards, x0, x1, 3, 7)]
  }

  /** The number of visited cards that belong to the high hand. */
  function Kept(x0: nat, x1: nat, k: nat): nat
  {
    if k == 0 then 0 else Kept(x0, x1, k - 1) + (if k - 1 != x0 && k - 1 != x1 then 1 else 0)
  }

  lemma {:induction false} KeptCount(x0: nat, x1: nat, k: nat)
    requires x0 != x1
    ensures Kept(x0, x1, k) + (if x0 < k then 1 else 0) + (if x1 < k then 1 else 0) == k
  {
    if k > 0 {
      KeptCount(x0, x1, k - 1);
    }
  }

  /** Every rank in a suit mask comes from a visited high-hand card of that suit. */
  lemma {:induction false} SuitMaskMember(cards: seq<Card>, x0: nat, x1: nat, suit: nat, k: nat, r: nat)
    requires k <= |cards| && r in SuitMask(cards, x0, x1, suit, k)
    ensures exists j :: 0 <= j < k && j != x0 && j != x1 && cards[j].suit == suit && r in cards[j].value
  {
    if r !in SuitMask(cards, x0, x1, suit, k - 1) {
    } else {
      SuitMaskMember(cards, x0, x1, suit, k - 1, r);
    }
  }

  /** The masks hold only ranks. */
  lemma SuitMaskRanks(cards: seq<Card>, x0: nat, x1: nat, k: nat)
    requires k <= |cards| && DistinctValidCards(cards)
    ensures forall suit, r :: r in SuitMask(cards, x0, x1, suit, k) ==> r < 13
  {
    forall suit, r | r in SuitMask(cards, x0, x1, suit, k)
      ensures r < 13
    {
      SuitMaskMember(cards, x0, x1, suit, k, r);
      var j :| 0 <= j < k && j != x0 && j != x1 && cards[j].suit == suit && r in cards[j].value;
      assert ValidCard(cards[j]);
    }
  }

  /** One step of the loop, by definition (k is j + 1). */
  lemma SuitMaskNext(cards: seq<Card>, x0: nat, x1: nat, suit: nat, j: nat, k: nat)
    requires k == j + 1 && k <= |cards|
    ensures SuitMask(cards, x0, x1, suit, k)
         == SuitMask(cards, x0, x1, suit, j) + (if j != x0 && j != x1 && cards[j].suit == suit then cards[j].value else {})
  {
  }

  /** One step of the loop: a high-hand card sets its rank bit in its suit's
      mask, a bit not set before because the cards are distinct. */
  lemma SuitMaskStep(cards: seq<Card>, x0: nat, x1: nat, j: nat, k: nat)
    requires k == j + 1 && k <= |cards| && DistinctValidCards(cards)
    requires j != x0 && j != x1
    ensures Rank(cards[j]) < Width
    ensures Rank(cards[j]) !in SuitMask(cards, x0, x1, cards[j].suit, j)
    ensures SuitMask(cards, x0, x1, cards[j].suit, k)
         == SuitMask(cards, x0, x1, cards[j].suit, j) + {Rank(cards[j])}
  {
    var c := cards[j];
    assert ValidCard(c);
    var rank := Rank(c);
    SuitMaskNext(cards, x0, x1, c.suit, j, k);
    if rank in SuitMask(cards, x0, x1, c.suit, j) {
      SuitMaskMember(cards, x0, x1, c.suit, j, rank);
      assert false;
    }
  }

  /** The number of bits set across the four masks after k cards. */
  function BitsSet(cards: seq<Card>, x0: nat, x1: nat, k: nat): nat
    requires k <= |cards|
  {
    PopCount(SuitMask(cards, x0, x1, 0, k)) + PopCount(SuitMask(cards, x0, x1, 1, k))
    + PopCount(SuitMask(cards, x0, x1, 2, k)) + PopCount(SuitMask(cards, x0, x1, 3, k))
  }

  /** One bit per visited high-hand card. */
  lemma {:induction false} SuitMasksCount(cards: seq<Card>, x0: nat, x1: nat, k: nat)
    requires k <= |cards| && DistinctValidCards(cards)
    ensures BitsSet(cards, x0, x1, k) == Kept(x0, x1, k)
  {
    if k == 0 {
      BitsSetZero(cards, x0, x1);
    } else {
      var j := k - 1;
      SuitMasksCount(cards, x0, x1, j);
      KeptNext(cards, x0, x1, j, k);
    }
  }

  /** Before the loop no bit is set. */
  lemma BitsSetZero(cards: seq<Card>, x0: nat, x1: nat)
    ensures BitsSet(cards, x0, x1, 0) == 0
  {
    CountNone({}, 0, Width);
  }

  /** The count stays in step with the kept cards across one more card. */
  lemma KeptNext(cards: seq<Card>, x0: nat, x1: nat, j: nat, k: nat)
    requires k == j + 1 && k <= |cards| && DistinctValidCards(cards)
    requires BitsSet(cards, x0, x1, j) == Kept(x0, x1, j)
    ensures BitsSet(cards, x0, x1, k) == Kept(x0, x1, k)
  {
    BitsSetNext(cards, x0, x1, j, k);
    KeptStep(x0, x1, j, k);
  }

  lemma KeptStep(x0: nat, x1: nat, j: nat, k: nat)
    requires k == j + 1
    ensures Kept(x0, x1, k) == Kept(x0, x1, j) + (if j != x0 && j != x1 then 1 else 0)
  {
  }

  lemma BitsSetNext(cards: seq<Card>, x0: nat, x1: nat, j: nat, k: nat)
    requires k == j + 1 && k <= |cards| && DistinctValidCards(cards)
    ensures BitsSet(cards, x0, x1, k) == BitsSet(cards, x0, x1, j) + (if j != x0 && j != x1 then 1 else 0)
  {
    if j != x0 && j != x1 {
      BitsSetStep(cards, x0, x1, j, k);
    } else {
      BitsSetSkip(cards, x0, x1, j, k);
    }
  }

  lemma BitsSetSkip(cards: seq<Card>, x0: nat, x1: nat, j: nat, k: nat)
    requires k == j + 1 && k <= |cards| && (j == x0 || j == x1)
    ensures BitsSet(cards, x0, x1, k) == BitsSet(cards, x0, x1, j)
  {
    forall suit
      ensures SuitMask(cards, x0, x1, suit, k) == SuitMask(cards, x0, x1, suit, j)
    {
      SuitMaskNext(cards, x0, x1, suit, j, k);
    }
  }

  lemma BitsSetStep(cards: seq<Card>, x0: nat, x1: nat, j: nat, k: nat)
    requires k == j + 1 && k <= |cards| && DistinctValidCards(cards)
    requires j != x0 && j != x1
    ensures BitsSet(cards, x0, x1, k) == BitsSet(cards, x0, x1, j) + 1
  {
    var c := cards[j];
    SuitMaskStep(cards, x0, x1, j, k);
    CountAdd(SuitMask(cards, x0, x1, c.suit, j), Rank(c));
    forall suit | suit != c.suit
      ensures SuitMask(cards, x0, x1, suit, k) == SuitMask(cards, x0, x1, suit, j)
    {
      SuitMaskNext(cards, x0, x1, suit, j, k);
    }
  }

  /** The high hand left by two different low-hand positions of seven
      distinct valid cards is a five-card hand. */
  lemma HandMasksFiveCards(cards: seq<Card>, x0: nat, x1: nat)
    requires |cards| == 7 && DistinctValidCards(cards)
    requires x0 < 7 && x1 < 7 && x0 != x1
    ensures FiveCards(HandMasks(cards, x0, x1))
  {
    SuitMaskRanks(cards, x0, x1, 7);
    SuitMasksCount(cards, x0, x1, 7);
    assert CardCount(HandMasks(cards, x0, x1)) == BitsSet(cards, x0, x1, 7);
    KeptCount(x0, x1, 7);
  }

  /** ScoreHighHand: fold the five high-hand cards into one rank mask per
      suit, then score the masks. cards are the seven cards; current is the
      low hand's pair of positions (the combination's current()). */
  method ScoreHighHand(cards: seq<Card>, current: seq<nat>) returns (score: nat)
    requires |cards| == 7 && DistinctValidCards(cards)
    requires |current| >= 2 && current[0] < 7 && current[1] < 7 && current[0] != current[1]
    ensures FiveCards(HandMasks(cards, current[0], current[1]))
    ensures score == ScoreFromSuits(HandMasks(cards, current[0], current[1]))
    ensures var c := Category(HandMasks(cards, current[0], current[1]));
      c * 1000000 <= score < c * 1000000 + 1000000
  {
    var masks := FoldSuits(cards, current[0], current[1]);
    HandMasksFiveCards(cards, current[0], current[1]);
    score := ScoreFromSuits(masks);
    ScoreCategory(masks);
  }

  /** The loop of ScoreHighHand: or each high-hand card's rank bit into the
      mask of its suit. */
  method FoldSuits(cards: seq<Card>, x0: nat, x1: nat) returns (masks: seq<set<nat>>)
    requires |cards| == 7 && DistinctValidCards(cards)
    ensures masks == HandMasks(cards, x0, x1)
  {
    var suits := new set<nat>[4](_ => {});
    for i := 0 to 7
      invariant forall suit :: 0 <= suit < 4 ==> suits[suit] == SuitMask(cards, x0, x1, suit, i)
    {
      if i != x0 && i != x1 {
        suits[cards[i].suit] := suits[cards[i].suit] + cards[i].value;
      }
    }
    masks := [suits[0], suits[1], suits[2], suits[3]];
  }
}
