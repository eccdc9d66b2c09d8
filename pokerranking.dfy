/** What hand_value's score means: it depends only on the cards of the hand,
    not on their order; the groups it finds are the maximal runs of equal
    faces; the category bonus dominates the base-15 tie-break, which
    compares group faces in order; and five equal faces are the one case the
    guard of the source misses. */
module PokerRanking {
  import opened Wrappers
  import opened PokerCards
  import opened Sorting
  import opened PokerScore

  // ---------------------------------------------------------------------
  // The score depends on the cards, not on their order

  /** Every card has a suit character, read off membership. */
  predicate LongCards(s: seq<string>)
  {
    forall c :: c in s ==> |c| >= 2
  }

  /** All suit characters agree, read off membership. */
  predicate OneSuit(s: seq<string>)
    requires LongCards(s)
  {
    forall c, d :: c in s && d in s ==> c[1] == d[1]
  }

  /** The index-based checks of hand_value say the same as the membership
      ones. */
  lemma FlushIsOneSuit(s: seq<string>)
    ensures AllLong(s) <==> LongCards(s)
    ensures AllLong(s) ==> (Flush(s) <==> OneSuit(s))
  {
    if AllLong(s) && Flush(s) {
      forall c, d | c in s && d in s
        ensures c[1] == d[1]
      {
        var i :| 0 <= i < |s| && s[i] == c;
        var j :| 0 <= j < |s| && s[j] == d;
      }
    }
  }

  /** Two hands holding the same cards agree on the membership checks. */
  lemma SameCardsSameSuits(a: seq<string>, b: seq<string>)
    requires multiset(a) == multiset(b)
    ensures LongCards(a) <==> LongCards(b)
    ensures LongCards(a) ==> (OneSuit(a) <==> OneSuit(b))
  {
    assert forall c :: c in a <==> c in multiset(a);
    assert forall c :: c in b <==> c in multiset(b);
  }

  /** Two hands holding the same cards with faces have the same shape, but
      for the order of the sorted cards. */
  lemma SameCardsSameShape(a: seq<string>, b: seq<string>)
    requires multiset(a) == multiset(b)
    ensures ShapeOf(a).values == ShapeOf(b).values
    ensures ShapeOf(a).groups == ShapeOf(b).groups
    ensures ShapeOf(a).largest == ShapeOf(b).largest
    ensures ShapeOf(a).tie == ShapeOf(b).tie
    ensures multiset(ShapeOf(a).sorted) == multiset(ShapeOf(b).sorted)
  {
    SortedKeys(a, b, FaceKey, FaceGe);
  }

  /** Every card of the hand has a face exactly when every card of a
      reordering has. */
  lemma SameCardsSameFaces(a: seq<string>, b: seq<string>)
    requires multiset(a) == multiset(b)
    ensures AllFaces(a) <==> AllFaces(b)
  {
    if AllFaces(a) {
      forall i | 0 <= i < |b|
        ensures HasFace(b[i])
      {
        assert b[i] in multiset(a);
      }
    }
    if AllFaces(b) {
      forall i | 0 <= i < |a|
        ensures HasFace(a[i])
      {
        assert a[i] in multiset(b);
      }
    }
  }

  /** hand_value depends only on the cards of the hand: two orders of the
      same cards score the same. When a card has no face the error raised
      depends on which bad card comes first, so the order matters there. */
  lemma HandScoreOrderFree(a: seq<string>, b: seq<string>)
    requires |a| == 5 && multiset(a) == multiset(b) && AllFaces(a)
    ensures |b| == 5 && HandScore(a) == HandScore(b)
  {
    assert |b| == |multiset(b)| == |multiset(a)| == 5;
    SameCardsSameFaces(a, b);
    NoFaceError(a, 0);
    NoFaceError(b, 0);
    SameCardsSameShape(a, b);
    ShapeScoreSame(ShapeOf(a), ShapeOf(b));
  }

  /** Two shapes that differ only in the order of the sorted cards score
      the same. */
  lemma ShapeScoreSame(sa: Shape, sb: Shape)
    requires sa.values == sb.values && sa.groups == sb.groups
    requires sa.largest == sb.largest && sa.tie == sb.tie
    requires multiset(sa.sorted) == multiset(sb.sorted)
    ensures ShapeScore(sa) == ShapeScore(sb)
  {
    SameCardsSameSuits(sa.sorted, sb.sorted);
    FlushIsOneSuit(sa.sorted);
    FlushIsOneSuit(sb.sorted);
  }

  // ---------------------------------------------------------------------
  // The groups are the maximal runs of equal faces

  /** n copies of v. */
  function Repeat(v: int, n: nat): seq<int>
  {
    seq(n, _ => v)
  }

  /** Each group written out as count copies of its face. */
  function Expand(gs: seq<Group>): seq<int>
  {
    if |gs| == 0 then [] else Repeat(gs[0].val, gs[0].count) + Expand(gs[1..])
  }

  /** Group faces fall strictly from one group to the next. */
  predicate StrictlyDescending(gs: seq<Group>)
  {
    forall i, j :: 0 <= i < j < |gs| ==> gs[i].val > gs[j].val
  }

  predicate PositiveCounts(gs: seq<Group>)
  {
    forall i :: 0 <= i < |gs| ==> gs[i].count >= 1
  }

  /** The run at the front of vs: equal values, then the end or another
      value. */
  lemma {:induction false} RunLenFacts(vs: seq<int>)
    requires |vs| > 0
    ensures forall t :: 0 <= t < RunLen(vs) ==> vs[t] == vs[0]
    ensures RunLen(vs) == |vs| || vs[RunLen(vs)] != vs[0]
  {
    if |vs| > 1 && vs[1] == vs[0] {
      RunLenFacts(vs[1..]);
    }
  }

  /** Writing the groups out gives back the values: the groups cut the
      values into runs, each of positive length. */
  lemma {:induction false} RunsExpand(vs: seq<int>)
    ensures Expand(Runs(vs)) == vs
    ensures PositiveCounts(Runs(vs))
    decreases |vs|
  {
    if |vs| > 0 {
      var n := RunLen(vs);
      var rest := Runs(vs[n..]);
      RunsExpand(vs[n..]);
      assert Runs(vs) == [Group(vs[0], n)] + rest;
      assert Runs(vs)[1..] == rest;
      RunPrefix(vs);
      assert vs == vs[..n] + vs[n..];
    }
  }

  /** The run at the front is RunLen copies of the first value. */
  lemma RunPrefix(vs: seq<int>)
    requires |vs| > 0
    ensures Repeat(vs[0], RunLen(vs)) == vs[..RunLen(vs)]
  {
    RunLenFacts(vs);
  }

  /** In non-increasing values, no group face is above the first value. */
  lemma {:induction false} RunsBelowHead(vs: seq<int>)
    requires NonIncreasing(vs) && |vs| > 0
    ensures forall i :: 0 <= i < |Runs(vs)| ==> Runs(vs)[i].val <= vs[0]
    decreases |vs|
  {
    var n := RunLen(vs);
    if n < |vs| {
      RunsBelowHead(vs[n..]);
      assert Runs(vs)[1..] == Runs(vs[n..]);
    }
  }

  /** In non-increasing values, each group's face is below the one before:
      the runs are maximal, and no face has two groups. */
  lemma {:induction false} RunsStrict(vs: seq<int>)
    requires NonIncreasing(vs)
    ensures StrictlyDescending(Runs(vs))
    decreases |vs|
  {
    if |vs| > 0 {
      var n := RunLen(vs);
      var gs := Runs(vs);
      RunLenFacts(vs);
      if n < |vs| {
        var rest := vs[n..];
        RunsStrict(rest);
        RunsBelowHead(rest);
        assert gs[1..] == Runs(rest);
        assert rest[0] < vs[0];
        forall i, j | 0 <= i < j < |gs|
          ensures gs[i].val > gs[j].val
        {
          assert gs[j] == Runs(rest)[j - 1];
          if i > 0 {
            assert gs[i] == Runs(rest)[i - 1];
          }
        }
      }
    }
  }

  /** The face values of the sorted hand do not increase. */
  lemma SortedValues(hand: seq<string>)
    ensures NonIncreasing(ShapeOf(hand).values)
  {
    KeyPreorder(FaceKey, FaceGe);
    SortDescending(hand, FaceGe);
    DescendingKeys(SortDesc(hand, FaceGe), FaceKey, FaceGe);
  }

  /** The counts of hand_value: the maximal runs of equal faces of the
      sorted hand, written out they give its face values, with the faces
      strictly falling from group to group. */
  lemma GroupsAreRuns(hand: seq<string>)
    ensures Expand(ShapeOf(hand).groups) == ShapeOf(hand).values
    ensures PositiveCounts(ShapeOf(hand).groups)
    ensures StrictlyDescending(ShapeOf(hand).groups)
  {
    SortedValues(hand);
    RunsExpand(ShapeOf(hand).values);
    RunsStrict(ShapeOf(hand).values);
  }

  // ---------------------------------------------------------------------
  // Number of groups and largest group of a five-card hand

  function SumCounts(gs: seq<Group>): nat
  {
    if |gs| == 0 then 0 else gs[0].count + SumCounts(gs[1..])
  }

  lemma {:induction false} ExpandLength(gs: seq<Group>)
    ensures |Expand(gs)| == SumCounts(gs)
  {
    if |gs| > 0 {
      ExpandLength(gs[1..]);
    }
  }

  /** The largest count, seen from the front. */
  lemma {:induction false} MaxCountCons(g: Group, gs: seq<Group>)
    ensures MaxCount([g] + gs) == if g.count > MaxCount(gs) then g.count else MaxCount(gs)
    decreases |gs|
  {
    if |gs| == 0 {
      assert [g] + gs == [] + [g];
      MaxCountAppend([], g);
    } else {
      var init, last := gs[..|gs| - 1], gs[|gs| - 1];
      MaxCountCons(g, init);
      assert [g] + gs == ([g] + init) + [last];
      assert gs == init + [last];
      MaxCountAppend([g] + init, last);
      MaxCountAppend(init, last);
    }
  }

  lemma MulLe(a: int, b: int, c: int)
    requires 0 <= a <= b && c >= 0
    ensures a * c <= b * c
  {
  }

  /** Positive counts: the largest count plus one for each other group is
      at most the total, and the total is at most the largest count times
      the number of groups. */
  lemma {:induction false} CountBounds(gs: seq<Group>)
    requires PositiveCounts(gs) && |gs| > 0
    ensures 1 <= MaxCount(gs)
    ensures MaxCount(gs) + |gs| - 1 <= SumCounts(gs)
    ensures SumCounts(gs) <= MaxCount(gs) * |gs|
  {
    var g, t := gs[0], gs[1..];
    assert gs == [g] + t;
    MaxCountCons(g, t);
    if |t| > 0 {
      CountBounds(t);
      BoundsStep(g.count, MaxCount(t), SumCounts(t), |t|, MaxCount(gs));
    }
  }

  /** The arithmetic of one more group in front. */
  lemma BoundsStep(c: int, mt: int, st: int, nt: int, m: int)
    requires c >= 1 && nt >= 1 && mt >= 1 && mt + nt - 1 <= st && st <= mt * nt
    requires m == if c > mt then c else mt
    ensures m + nt <= c + st && c + st <= m * (nt + 1)
  {
    MulLe(mt, m, nt);
  }

  /** The shapes five cards can take: the number of groups decides the
      largest group except for three groups (two pairs or three of a kind)
      and two groups (full house or four of a kind). */
  lemma FiveCardShapes(gs: seq<Group>)
    requires PositiveCounts(gs) && SumCounts(gs) == 5
    ensures 1 <= |gs| <= 5
    ensures MaxCount(gs) == 1 <==> |gs| == 5
    ensures |gs| == 4 ==> MaxCount(gs) == 2
    ensures |gs| == 3 ==> 2 <= MaxCount(gs) <= 3
    ensures |gs| == 2 ==> 3 <= MaxCount(gs) <= 4
    ensures MaxCount(gs) == 5 <==> |gs| == 1
  {
    assert |gs| > 0;
    CountBounds(gs);
    var m, n := MaxCount(gs), |gs|;
    if n >= 2 && m <= 2 {
      MulLe(m, 2, n);
    }
    if m == 1 {
      assert 5 <= n;
    }
  }

  /** The groups of a five-card hand take one of the shapes above. */
  lemma HandShape(hand: seq<string>)
    requires |hand| == 5
    ensures PositiveCounts(ShapeOf(hand).groups) && SumCounts(ShapeOf(hand).groups) == 5
    ensures MaxCount(ShapeOf(hand).groups) == ShapeOf(hand).largest
  {
    GroupsAreRuns(hand);
    ExpandLength(ShapeOf(hand).groups);
  }

  // ---------------------------------------------------------------------
  // The tie-break: group faces read as base-15 digits

  /** Every entry is a face value, below 15. */
  predicate Digits(ds: seq<int>)
  {
    forall i :: 0 <= i < |ds| ==> 0 <= ds[i] < 15
  }

  function Pow15(n: nat): nat
  {
    if n == 0 then 1 else 15 * Pow15(n - 1)
  }

  lemma DigitStep(f: int, d: int, p: int)
    requires 0 <= f < p && 0 <= d < 15
    ensures 0 <= f * 15 + d < p * 15
  {
  }

  /** n digits read in base 15 stay below 15^n. */
  lemma {:induction false} Fold15Bound(ds: seq<int>)
    requires Digits(ds)
    ensures 0 <= Fold15(ds) < Pow15(|ds|)
  {
    if |ds| > 0 {
      var init := ds[..|ds| - 1];
      assert Digits(init) by {
        forall i | 0 <= i < |init|
          ensures 0 <= init[i] < 15
        {
          assert init[i] == ds[i];
        }
      }
      Fold15Bound(init);
      DigitStep(Fold15(init), ds[|ds| - 1], Pow15(|init|));
    }
  }

  lemma LexStep(fa: int, fb: int, da: int, db: int)
    requires fa < fb && 0 <= da < 15 && 0 <= db < 15
    ensures fa * 15 + da < fb * 15 + db
  {
  }

  /** Digit sequences of one length that agree up to k and differ at k
      compare as their digits at k do. */
  lemma {:induction false} Fold15Lex(a: seq<int>, b: seq<int>, k: nat)
    requires |a| == |b| && Digits(a) && Digits(b)
    requires k < |a| && a[..k] == b[..k] && a[k] < b[k]
    ensures Fold15(a) < Fold15(b)
  {
    var n := |a|;
    var ai, bi := a[..n - 1], b[..n - 1];
    if k == n - 1 {
      assert ai == bi;
    } else {
      assert ai[..k] == a[..k] && bi[..k] == b[..k];
      assert Digits(ai) && Digits(bi) by {
        forall i | 0 <= i < n - 1
          ensures 0 <= ai[i] < 15 && 0 <= bi[i] < 15
        {
          assert ai[i] == a[i] && bi[i] == b[i];
        }
      }
      Fold15Lex(ai, bi, k);
      LexStep(Fold15(ai), Fold15(bi), a[n - 1], b[n - 1]);
    }
  }

  /** The first position where two sequences of one length differ. */
  lemma FirstDiff(a: seq<int>, b: seq<int>) returns (k: nat)
    requires |a| == |b| && a != b
    ensures k < |a| && a[..k] == b[..k] && a[k] != b[k]
  {
    k := 0;
    while a[k] == b[k]
      invariant k < |a| && a[..k] == b[..k]
      decreases |a| - k
    {
      assert a[..k + 1] == a[..k] + [a[k]] && b[..k + 1] == b[..k] + [b[k]];
      k := k + 1;
    }
  }

  /** a comes before b in lexicographic order. */
  predicate LexLess(a: seq<int>, b: seq<int>)
  {
    exists k :: 0 <= k < |a| && k < |b| && a[..k] == b[..k] && a[k] < b[k]
  }

  /** Read in base 15, digit sequences of one length compare
      lexicographically, and only equal sequences read the same. */
  lemma Fold15Order(a: seq<int>, b: seq<int>)
    requires |a| == |b| && Digits(a) && Digits(b)
    ensures Fold15(a) < Fold15(b) <==> LexLess(a, b)
    ensures Fold15(a) == Fold15(b) <==> a == b
  {
    if LexLess(a, b) {
      var k :| 0 <= k < |a| && k < |b| && a[..k] == b[..k] && a[k] < b[k];
      Fold15Lex(a, b, k);
    }
    if a != b {
      var k := FirstDiff(a, b);
      if a[k] < b[k] {
        Fold15Lex(a, b, k);
      } else {
        Fold15Lex(b, a, k);
      }
    }
  }

  // ---------------------------------------------------------------------
  // Groups in tie-break order

  /** The groups in the order the tie-break reads them. */
  function Ordered(hand: seq<string>): seq<Group>
  {
    SortDesc(ShapeOf(hand).groups, GroupGe)
  }

  /** The group faces the tie-break reads, in order. */
  function TieFaces(hand: seq<string>): seq<int>
  {
    Keys(Ordered(hand), GroupVal)
  }

  /** Every group face is one of the values, so a face value. */
  lemma {:induction false} RunsDigits(vs: seq<int>)
    requires Digits(vs)
    ensures forall i :: 0 <= i < |Runs(vs)| ==> 0 <= Runs(vs)[i].val < 15
    decreases |vs|
  {
    if |vs| > 0 {
      var n := RunLen(vs);
      var rest := vs[n..];
      assert Digits(rest) by {
        forall i | 0 <= i < |rest|
          ensures 0 <= rest[i] < 15
        {
          assert rest[i] == vs[n + i];
        }
      }
      RunsDigits(rest);
      assert Runs(vs)[1..] == Runs(rest);
    }
  }

  /** The values of a hand are face values, below 15. */
  lemma ValueDigits(hand: seq<string>)
    ensures Digits(ShapeOf(hand).values)
  {
    var s := ShapeOf(hand).sorted;
    forall i | 0 <= i < |s|
      ensures 0 <= ShapeOf(hand).values[i] < 15
    {
      assert ShapeOf(hand).values[i] == FaceKey(s[i]);
    }
  }

  /** The groups of a hand have faces below 15. */
  lemma GroupDigits(hand: seq<string>)
    ensures forall i :: 0 <= i < |ShapeOf(hand).groups| ==> 0 <= ShapeOf(hand).groups[i].val < 15
    ensures Digits(TieFaces(hand))
  {
    ValueDigits(hand);
    RunsDigits(ShapeOf(hand).values);
    SortedDigits(ShapeOf(hand).groups);
  }

  /** Sorting groups keeps their faces. */
  lemma SortedDigits(gs: seq<Group>)
    requires forall i :: 0 <= i < |gs| ==> 0 <= gs[i].val < 15
    ensures Digits(Keys(SortDesc(gs, GroupGe), GroupVal))
  {
    var o := SortDesc(gs, GroupGe);
    forall i | 0 <= i < |o|
      ensures 0 <= Keys(o, GroupVal)[i] < 15
    {
      var p := FindIn(gs, o[i]);
      assert Keys(o, GroupVal)[i] == GroupVal(o[i]) == gs[p].val;
    }
  }

  /** The tie-break reads the larger groups first and, among groups of one
      size, the higher face first: the usual poker order of kickers. */
  lemma OrderedGroups(hand: seq<string>)
    ensures multiset(Ordered(hand)) == multiset(ShapeOf(hand).groups)
    ensures forall i, j :: 0 <= i < j < |Ordered(hand)| ==>
      Ordered(hand)[i].count > Ordered(hand)[j].count ||
      (Ordered(hand)[i].count == Ordered(hand)[j].count && Ordered(hand)[i].val >= Ordered(hand)[j].val)
  {
    var o := Ordered(hand);
    GroupDigits(hand);
    KeyPreorder(GroupKey, GroupGe);
    SortDescending(ShapeOf(hand).groups, GroupGe);
    forall i, j | 0 <= i < j < |o|
      ensures o[i].count > o[j].count || (o[i].count == o[j].count && o[i].val >= o[j].val)
    {
      assert o[i] in multiset(ShapeOf(hand).groups) && o[j] in multiset(ShapeOf(hand).groups);
      KeyOrder(o[i], o[j]);
    }
  }

  /** For faces below 15, a key at least another means a larger count, or
      the same count and a face at least the other. */
  lemma KeyOrder(g: Group, h: Group)
    requires 0 <= g.val < 15 && 0 <= h.val < 15 && GroupGe(g, h)
    ensures g.count > h.count || (g.count == h.count && g.val >= h.val)
  {
  }

  // ---------------------------------------------------------------------
  // The category bonus dominates the tie-break

  /** The bonus hand_value adds for the shape of the hand. */
  function Bonus(sh: Shape): nat
    requires sh.largest == 1 ==> AllLong(sh.sorted)
  {
    if sh.largest == 1 then RunBonus(Straight(sh.values), Flush(sh.sorted))
    else GroupBonus(|sh.groups|, sh.largest)
  }

  lemma Pow15Mono(n: nat)
    requires n <= 5
    ensures Pow15(n) <= 759375
    decreases 5 - n
  {
    if n < 5 {
      Pow15Mono(n + 1);
    }
  }

  /** A successful score is the tie-break plus the bonus of the shape. */
  lemma ShapeScoreIs(sh: Shape)
    requires ShapeScore(sh).Success?
    ensures sh.largest == 1 ==> AllLong(sh.sorted)
    ensures ShapeScore(sh).value == sh.tie + Bonus(sh)
  {
  }

  /** The tie-break of a five-card hand: its group faces in base 15, below
      759375 = 15^5. */
  lemma TieBound(hand: seq<string>)
    requires |hand| == 5
    ensures ShapeOf(hand).tie == Fold15(TieFaces(hand))
    ensures 0 <= ShapeOf(hand).tie < 759375
  {
    HandShape(hand);
    FiveCardShapes(ShapeOf(hand).groups);
    GroupDigits(hand);
    Fold15Bound(TieFaces(hand));
    Pow15Mono(|ShapeOf(hand).groups|);
  }

  /** A score is a whole number of millions for the category and a
      tie-break below 759375 = 15^5, the group faces in base 15. */
  lemma ScoreSplits(hand: seq<string>)
    requires |hand| == 5 && HandScore(hand).Success?
    ensures ShapeOf(hand).largest == 1 ==> AllLong(ShapeOf(hand).sorted)
    ensures HandScore(hand).value == ShapeOf(hand).tie + Bonus(ShapeOf(hand))
    ensures ShapeOf(hand).tie == Fold15(TieFaces(hand))
    ensures 0 <= ShapeOf(hand).tie < 759375
    ensures Bonus(ShapeOf(hand)) in {0, 1000000, 2000000, 3000000, 4000000, 5000000, 6000000, 7000000, 8000000}
  {
    ShapeScoreIs(ShapeOf(hand));
    TieBound(hand);
  }

  /** A hand in a higher category beats every hand in a lower one,
      whatever the faces. */
  lemma CategoryDecides(a: seq<string>, b: seq<string>)
    requires |a| == 5 && |b| == 5 && HandScore(a).Success? && HandScore(b).Success?
    requires ShapeOf(a).largest == 1 ==> AllLong(ShapeOf(a).sorted)
    requires ShapeOf(b).largest == 1 ==> AllLong(ShapeOf(b).sorted)
    requires Bonus(ShapeOf(a)) < Bonus(ShapeOf(b))
    ensures HandScore(a).value < HandScore(b).value
  {
    ScoreSplits(a);
    ScoreSplits(b);
  }

  /** Within one category (same bonus, same number of groups), hands compare
      by their group faces in tie-break order, lexicographically, and draw
      only when those faces agree. */
  lemma TieBreakDecides(a: seq<string>, b: seq<string>)
    requires |a| == 5 && |b| == 5 && HandScore(a).Success? && HandScore(b).Success?
    requires ShapeOf(a).largest == 1 ==> AllLong(ShapeOf(a).sorted)
    requires ShapeOf(b).largest == 1 ==> AllLong(ShapeOf(b).sorted)
    requires Bonus(ShapeOf(a)) == Bonus(ShapeOf(b))
    requires |ShapeOf(a).groups| == |ShapeOf(b).groups|
    ensures HandScore(a).value < HandScore(b).value <==> LexLess(TieFaces(a), TieFaces(b))
    ensures HandScore(a).value == HandScore(b).value <==> TieFaces(a) == TieFaces(b)
  {
    ScoreSplits(a);
    ScoreSplits(b);
    GroupDigits(a);
    GroupDigits(b);
    Fold15Order(TieFaces(a), TieFaces(b));
  }

  // ---------------------------------------------------------------------
  // Straights

  /** Five strictly falling values form a straight exactly when they span
      four faces. An ace counts 14 only, so A-5-4-3-2 is no straight. */
  lemma StraightSpan(vs: seq<int>)
    requires |vs| == 5 && forall i :: 0 <= i < 4 ==> vs[i] > vs[i + 1]
    ensures Straight(vs) <==> vs[0] - vs[4] == 4
  {
    if vs[0] - vs[4] == 4 {
      assert vs[1] == vs[0] - 1 && vs[2] == vs[0] - 2 && vs[3] == vs[0] - 3;
    }
  }

  /** When no group has two cards, the sorted values fall strictly. */
  lemma {:induction false} DistinctRuns(vs: seq<int>)
    requires NonIncreasing(vs) && MaxCount(Runs(vs)) <= 1
    ensures forall i :: 0 <= i < |vs| - 1 ==> vs[i] > vs[i + 1]
    decreases |vs|
  {
    if |vs| > 0 {
      var n := RunLen(vs);
      MaxCountCons(Group(vs[0], n), Runs(vs[n..]));
      RunLenFacts(vs);
      if |vs| > 1 {
        var rest := vs[1..];
        DistinctRuns(rest);
        forall i | 0 <= i < |vs| - 1
          ensures vs[i] > vs[i + 1]
        {
          if i > 0 {
            assert vs[i] == rest[i - 1] && vs[i + 1] == rest[i];
          }
        }
      }
    }
  }

  /** A hand of five different faces is a straight exactly when its
      highest and lowest faces are four apart. */
  lemma HandStraight(hand: seq<string>)
    requires |hand| == 5 && ShapeOf(hand).largest == 1
    ensures Straight(ShapeOf(hand).values) <==> ShapeOf(hand).values[0] - ShapeOf(hand).values[4] == 4
  {
    SortedValues(hand);
    DistinctRuns(ShapeOf(hand).values);
    StraightSpan(ShapeOf(hand).values);
  }

  // ---------------------------------------------------------------------
  // Five of a kind

  /** Five cards of one face. */
  predicate FiveOfAKind(hand: seq<string>)
  {
    |hand| == 5 && AllFaces(hand) && forall i :: 0 <= i < 5 ==> Face(hand[i]) == Face(hand[0])
  }

  lemma ConstantRuns(vs: seq<int>, v: int)
    requires |vs| > 0 && forall i :: 0 <= i < |vs| ==> vs[i] == v
    ensures Runs(vs) == [Group(v, |vs|)]
  {
    RunLenIs(vs, |vs|);
    assert vs[|vs|..] == [];
  }

  /** Five cards of one face make one group of five, and the tie-break is
      that face. */
  lemma FiveOfAKindShape(hand: seq<string>)
    requires FiveOfAKind(hand)
    ensures ShapeOf(hand).groups == [Group(Face(hand[0]), 5)]
    ensures ShapeOf(hand).largest == 5 && ShapeOf(hand).tie == Face(hand[0])
  {
    var sh := ShapeOf(hand);
    var v := Face(hand[0]);
    forall i | 0 <= i < 5
      ensures sh.values[i] == v
    {
      var p := FindIn(hand, sh.sorted[i]);
      assert sh.values[i] == FaceKey(sh.sorted[i]);
    }
    ConstantRuns(sh.values, v);
    var g := Group(v, 5);
    assert MaxCount([g]) == 5 by {
      assert [g][..0] == [];
    }
    assert SortDesc([g], GroupGe) == [g] by {
      assert [g][1..] == [];
    }
    assert Keys([g], GroupVal) == [v];
    assert Fold15([v]) == v by {
      assert [v][..0] == [];
    }
  }

  /** On five cards of one face, hand_value as written returns the face
      value alone, below every pair, where the source means to raise; the
      corrected score raises. */
  lemma FiveOfAKindAsWritten(hand: seq<string>)
    requires FiveOfAKind(hand)
    ensures HandScoreAsWritten(hand) == Success(Face(hand[0]))
    ensures HandScore(hand) == Failure(Cheat)
  {
    NoFaceError(hand, 0);
    FiveOfAKindShape(hand);
  }

  /** Five aces, the input that shows it: scored 14 as written. */
  lemma FiveAces()
    ensures HandScoreAsWritten(["AS", "AH", "AD", "AC", "AS"]) == Success(14)
    ensures HandScore(["AS", "AH", "AD", "AC", "AS"]) == Failure(Cheat)
  {
    var hand := ["AS", "AH", "AD", "AC", "AS"];
    forall i | 0 <= i < 5
      ensures HasFace(hand[i]) && Face(hand[i]) == 14
    {
      assert hand[i][0] == 'A';
    }
    FiveOfAKindAsWritten(hand);
  }

  /** The four aces and a one-character ace: five equal faces without a
      repeated code or a suit outside CDHS. */
  lemma FourAcesAndOne()
    ensures HandScoreAsWritten(["AC", "AD", "AH", "AS", "A"]) == Success(14)
    ensures HandScore(["AC", "AD", "AH", "AS", "A"]) == Failure(Cheat)
  {
    var hand := ["AC", "AD", "AH", "AS", "A"];
    forall i | 0 <= i < 5
      ensures HasFace(hand[i]) && Face(hand[i]) == 14
    {
      assert hand[i][0] == 'A';
    }
    FiveOfAKindAsWritten(hand);
  }

  /** The guard as written never fires on cards with faces: five cards
      always form at least one group. */
  lemma AsWrittenGuardDead(hand: seq<string>)
    requires |hand| == 5 && AllFaces(hand)
    ensures HandScoreAsWritten(hand) != Failure(Cheat)
  {
    NoFaceError(hand, 0);
    HandShape(hand);
    FiveCardShapes(ShapeOf(hand).groups);
  }

  /** The correction changes nothing else: the two scores differ only on
      hands whose five face values are all equal. */
  lemma CorrectionOnlyFiveOfAKind(hand: seq<string>)
    requires |hand| == 5
    ensures HandScore(hand) != HandScoreAsWritten(hand) ==>
      forall i :: 0 <= i < 5 ==> ShapeOf(hand).values[i] == ShapeOf(hand).values[0]
  {
    if HandScore(hand) != HandScoreAsWritten(hand) {
      var gs := ShapeOf(hand).groups;
      HandShape(hand);
      FiveCardShapes(gs);
      GroupsAreRuns(hand);
      assert |gs| == 1;
      assert Expand(gs) == Repeat(gs[0].val, gs[0].count) + Expand(gs[1..]);
      assert gs[1..] == [];
    }
  }
}
