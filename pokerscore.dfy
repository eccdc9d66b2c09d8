/** hand_value and small_hand_value of poker.py: a five-card hand is scored
    by sorting its cards by face value, cutting the sorted values into
    groups of equal faces, ordering the groups by size and then face, and
    reading the group faces as base-15 digits, plus a category bonus in
    steps of a million. A two-card hand is scored as high * 15 + low, plus
    1000 for a pair. */
module PokerScore {
  import opened Wrappers
  import opened PokerCards
  import opened Sorting
  import LowHand

  /** The comparison that sorted(hand, key=card_value, reverse=True) makes. */
  function FaceGe(a: string, b: string): bool
  {
    FaceKey(a) >= FaceKey(b)
  }

  /** The first error card_value raises on the cards from position k on:
      sorted computes every key, in order, before it compares any. */
  function FirstFaceError(hand: seq<string>, k: nat): Option<PyError>
    decreases |hand| - k
  {
    if k >= |hand| then None
    else match FaceOf(hand[k])
      case Failure(e) => Some(e)
      case Success(_) => FirstFaceError(hand, k + 1)
  }

  /** No error is raised exactly when every card from k on has a face. */
  lemma {:induction false} NoFaceError(hand: seq<string>, k: nat)
    ensures FirstFaceError(hand, k).None? <==> forall i :: k <= i < |hand| ==> HasFace(hand[i])
    decreases |hand| - k
  {
    if k < |hand| {
      NoFaceError(hand, k + 1);
    }
  }

  predicate AllFaces(hand: seq<string>)
  {
    forall i :: 0 <= i < |hand| ==> HasFace(hand[i])
  }

  /** Sorting keeps the cards, so every sorted card has a face. */
  lemma SortedFaces(hand: seq<string>)
    requires AllFaces(hand)
    ensures AllFaces(SortDesc(hand, FaceGe))
  {
    var s := SortDesc(hand, FaceGe);
    forall i | 0 <= i < |s|
      ensures HasFace(s[i])
    {
      assert s[i] in multiset(hand);
    }
  }

  /** The sort keys of cards with faces are their face values. */
  lemma FaceValues(s: seq<string>)
    requires AllFaces(s)
    ensures |Keys(s, FaceKey)| == |s|
    ensures forall t :: 0 <= t < |s| ==> Keys(s, FaceKey)[t] == Face(s[t])
  {
    forall t | 0 <= t < |s|
      ensures Keys(s, FaceKey)[t] == Face(s[t])
    {
      assert HasFace(s[t]);
      assert Keys(s, FaceKey)[t] == FaceKey(s[t]);
    }
  }

  // ---------------------------------------------------------------------
  // Groups of equal faces

  /** One entry of counts: a face value and how many cards have it. */
  datatype Group = Group(val: int, count: nat)

  /** The length of the run of values equal to the first. */
  function RunLen(vs: seq<int>): (n: nat)
    requires |vs| > 0
    ensures 1 <= n <= |vs|
  {
    if |vs| > 1 && vs[1] == vs[0] then 1 + RunLen(vs[1..]) else 1
  }

  /** The groups the counting loop finds: each maximal run of equal values,
      from the front. */
  function Runs(vs: seq<int>): seq<Group>
    decreases |vs|
  {
    if |vs| == 0 then []
    else
      var n := RunLen(vs);
      [Group(vs[0], n)] + Runs(vs[n..])
  }

  /** The largest count, as largest_group keeps it over the groups in the
      order they are found. */
  function MaxCount(gs: seq<Group>): nat
  {
    if |gs| == 0 then 0
    else
      var m := MaxCount(gs[..|gs| - 1]);
      if gs[|gs| - 1].count > m then gs[|gs| - 1].count else m
  }

  /** A run of n equal values ended by the end of vs or a different value
      has length n. */
  lemma {:induction false} RunLenIs(vs: seq<int>, n: nat)
    requires 1 <= n <= |vs|
    requires forall t :: 0 <= t < n ==> vs[t] == vs[0]
    requires n == |vs| || vs[n] != vs[0]
    ensures RunLen(vs) == n
    decreases n
  {
    if n > 1 {
      RunLenIs(vs[1..], n - 1);
    }
  }

  // ---------------------------------------------------------------------
  // The score

  /** The sort key of a group: count * 15 + value. */
  function GroupKey(g: Group): int
  {
    g.count * 15 + g.val
  }

  function GroupGe(a: Group, b: Group): bool
  {
    GroupKey(a) >= GroupKey(b)
  }

  function GroupVal(g: Group): int
  {
    g.val
  }

  /** score = score * 15 + val over ds, from the left: ds read as base-15
      digits. */
  function Fold15(ds: seq<int>): int
  {
    if |ds| == 0 then 0 else Fold15(ds[..|ds| - 1]) * 15 + ds[|ds| - 1]
  }

  /** Every value is one less than the one before: a straight. */
  predicate Straight(vs: seq<int>)
  {
    forall i :: 1 <= i < |vs| ==> vs[i] == vs[0] - i
  }

  /** Every code has a second (suit) character. */
  predicate AllLong(s: seq<string>)
  {
    forall i :: 0 <= i < |s| ==> |s[i]| >= 2
  }

  /** Every card has the first card's suit: a flush. */
  predicate Flush(s: seq<string>)
    requires AllLong(s)
  {
    forall i :: 1 <= i < |s| ==> s[i][1] == s[0][1]
  }

  /** What hand_value computes before it adds the bonus: the sorted cards,
      their values, the groups in the order found, the largest count and the
      base-15 tie-break. */
  datatype Shape = Shape(sorted: seq<string>, values: seq<int>, groups: seq<Group>, largest: nat, tie: int)

  function ShapeOf(hand: seq<string>): Shape
  {
    var s := SortDesc(hand, FaceGe);
    var vs := Keys(s, FaceKey);
    var gs := Runs(vs);
    Shape(s, vs, gs, MaxCount(gs), Fold15(Keys(SortDesc(gs, GroupGe), GroupVal)))
  }

  /** The bonus for five different faces. */
  function RunBonus(straight: bool, flush: bool): nat
  {
    if straight && flush then 8000000
    else if flush then 5000000
    else if straight then 4000000
    else 0
  }

  /** The bonus for two to four groups: one pair, two pairs or three of a
      kind, full house or four of a kind. */
  function GroupBonus(groups: nat, largest: nat): nat
  {
    if groups == 4 then 1000000
    else if groups == 3 then (if largest == 3 then 3000000 else 2000000)
    else if groups == 2 then (if largest == 4 then 7000000 else 6000000)
    else 0
  }

  /** hand_value as written, once every card has a face: the five-of-a-kind
      guard tests for no groups at all, which five cards never give, so five
      equal faces score their face value alone. */
  function ShapeScoreAsWritten(sh: Shape): Result<int, PyError>
  {
    if sh.largest == 1 then
      if !AllLong(sh.sorted) then Failure(IndexError)
      else Success(sh.tie + RunBonus(Straight(sh.values), Flush(sh.sorted)))
    else if |sh.groups| == 0 then Failure(Cheat)
    else Success(sh.tie + GroupBonus(|sh.groups|, sh.largest))
  }

  /** hand_value as intended, once every card has a face: five equal faces
      (one group) raise the "Cheat" exception. */
  function ShapeScore(sh: Shape): Result<int, PyError>
  {
    if sh.largest == 1 then
      if !AllLong(sh.sorted) then Failure(IndexError)
      else Success(sh.tie + RunBonus(Straight(sh.values), Flush(sh.sorted)))
    else if |sh.groups| == 1 then Failure(Cheat)
    else Success(sh.tie + GroupBonus(|sh.groups|, sh.largest))
  }

  function HandScoreAsWritten(hand: seq<string>): Result<int, PyError>
    requires |hand| == 5
  {
    match FirstFaceError(hand, 0)
    case Some(e) => Failure(e)
    case None => ShapeScoreAsWritten(ShapeOf(hand))
  }

  function HandScore(hand: seq<string>): Result<int, PyError>
    requires |hand| == 5
  {
    match FirstFaceError(hand, 0)
    case Some(e) => Failure(e)
    case None => ShapeScore(ShapeOf(hand))
  }

  /** hand_value, with the five-of-a-kind guard corrected. */
  method HandValue(hand: seq<string>) returns (r: Result<int, PyError>)
    requires |hand| == 5
    ensures r == HandScore(hand)
  {
    var k := 0;
    while k < 5
      invariant 0 <= k <= 5
      invariant FirstFaceError(hand, 0) == FirstFaceError(hand, k)
    {
      var v := CardValue(hand[k]);
      CardValueTable(hand[k]);
      if v.Failure? {
        return Failure(v.error);
      }
      k := k + 1;
    }
    NoFaceError(hand, 0);
    var sorted := SortDesc(hand, FaceGe);
    SortedFaces(hand);
    FaceValues(sorted);
    var counts, largest := CountGroups(Keys(sorted, FaceKey));
    var ordered := SortDesc(counts, GroupGe);
    var score := ReadDigits(ordered);
    r := AddBonus(sorted, counts, largest, score);
  }

  /** The end of hand_value: the bonus for the shape of the hand. */
  method AddBonus(sorted: seq<string>, counts: seq<Group>, largest: nat, tie: int) returns (r: Result<int, PyError>)
    ensures r == ShapeScore(Shape(sorted, Keys(sorted, FaceKey), counts, largest, tie))
  {
    var score := tie;
    if largest == 1 {
      var isStraight := Straight(Keys(sorted, FaceKey));
      if !AllLong(sorted) {
        return Failure(IndexError);
      }
      var isFlush := Flush(sorted);
      if isStraight && isFlush {
        score := score + 8000000;
      } else if isFlush {
        score := score + 5000000;
      } else if isStraight {
        score := score + 4000000;
      } else {
        score := score + 0;
      }
    } else if |counts| == 4 {
      score := score + 1000000;
    } else if |counts| == 3 {
      if largest == 3 {
        score := score + 3000000;
      } else {
        score := score + 2000000;
      }
    } else if |counts| == 2 {
      if largest == 4 {
        score := score + 7000000;
      } else {
        score := score + 6000000;
      }
    } else if |counts| == 1 {
      return Failure(Cheat);
    }
    return Success(score);
  }

  /** The counting loop of hand_value over the face values of the sorted
      hand: the groups of equal faces, in order, and the largest group. */
  method CountGroups(vs: seq<int>) returns (counts: seq<Group>, largest: nat)
    requires |vs| == 5
    ensures counts == Runs(vs) && largest == MaxCount(counts)
  {
    counts := [];
    largest := 0;
    var i := 0;
    while i < 5
      invariant 0 <= i <= 5
      invariant CountFrom(vs, i, counts, largest) == CountFrom(vs, 0, [], 0)
      decreases 5 - i
    {
      var val := vs[i];
      var j := ScanRun(vs, i);
      var count := j - i;
      CountFromStep(vs, i, counts, largest, j);
      counts := counts + [Group(val, count)];
      if count > largest {
        largest := count;
      }
      i := j;
    }
    CountFromRuns(vs, 0, [], 0);
    assert vs[0..] == vs;
  }

  /** The counting loop from position i on, with the groups and the largest
      count found before i. */
  function CountFrom(vs: seq<int>, i: nat, counts: seq<Group>, largest: nat): (seq<Group>, nat)
    requires i <= |vs|
    decreases |vs| - i
  {
    if i == |vs| then (counts, largest)
    else
      var n := RunLen(vs[i..]);
      CountFrom(vs, i + n, counts + [Group(vs[i], n)], if n > largest then n else largest)
  }

  /** The inner loop of hand_value's counting: the end of the run of values
      equal to vs[i]. */
  method ScanRun(vs: seq<int>, i: nat) returns (j: nat)
    requires i < |vs|
    ensures i < j <= |vs| && RunLen(vs[i..]) == j - i
  {
    var val := vs[i];
    j := i + 1;
    while j < |vs| && val == vs[j]
      invariant i < j <= |vs|
      invariant forall t :: i <= t < j ==> vs[t] == val
    {
      j := j + 1;
    }
    RunLenIs(vs[i..], j - i);
  }

  /** One step of the counting loop: a run of j - i equal values at i. */
  lemma CountFromStep(vs: seq<int>, i: nat, counts: seq<Group>, largest: nat, j: nat)
    requires i < j <= |vs| && RunLen(vs[i..]) == j - i
    ensures CountFrom(vs, i, counts, largest)
      == CountFrom(vs, j, counts + [Group(vs[i], j - i)], if j - i > largest then j - i else largest)
  {
  }

  /** The counting loop finds the groups Runs describes and their largest
      count. */
  lemma {:induction false} CountFromRuns(vs: seq<int>, i: nat, counts: seq<Group>, largest: nat)
    requires i <= |vs| && largest == MaxCount(counts)
    ensures CountFrom(vs, i, counts, largest) == (counts + Runs(vs[i..]), MaxCount(counts + Runs(vs[i..])))
    decreases |vs| - i
  {
    if i < |vs| {
      var n := RunLen(vs[i..]);
      var g := Group(vs[i], n);
      MaxCountAppend(counts, g);
      CountFromRuns(vs, i + n, counts + [g], if n > largest then n else largest);
      assert vs[i..][n..] == vs[i + n..];
      AppendAssoc(counts, [g], Runs(vs[i + n..]));
    } else {
      assert vs[i..] == [];
      assert counts + Runs(vs[i..]) == counts;
    }
  }

  /** largest_group after one more group. */
  lemma MaxCountAppend(gs: seq<Group>, g: Group)
    ensures MaxCount(gs + [g]) == if g.count > MaxCount(gs) then g.count else MaxCount(gs)
  {
    assert (gs + [g])[..|gs|] == gs;
  }

  lemma AppendAssoc<T>(a: seq<T>, b: seq<T>, c: seq<T>)
    ensures (a + b) + c == a + (b + c)
  {
  }

  /** The scoring loop of hand_value: the group values read as base-15
      digits. */
  method ReadDigits(ordered: seq<Group>) returns (score: int)
    ensures score == Fold15(Keys(ordered, GroupVal))
  {
    ghost var digits := Keys(ordered, GroupVal);
    score := 0;
    for t := 0 to |ordered|
      invariant score == Fold15(digits[..t])
    {
      assert digits[..t + 1][..t] == digits[..t] && digits[t] == ordered[t].val;
      score := score * 15;
      score := score + ordered[t].val;
    }
    assert digits[..|ordered|] == digits;
  }

  // ---------------------------------------------------------------------
  // small_hand_value

  /** small_hand_value: the two cards sorted by face, higher face * 15 plus
      lower face, and 1000 more for a pair. */
  function SmallScore(hand: seq<string>): Result<int, PyError>
    requires |hand| == 2
  {
    match FirstFaceError(hand, 0)
    case Some(e) => Failure(e)
    case None =>
      var s := SortDesc(hand, FaceGe);
      var v0, v1 := FaceKey(s[0]), FaceKey(s[1]);
      Success(v0 * 15 + v1 + (if v0 == v1 then 1000 else 0))
  }

  /** The score of a two-card hand from its higher and lower face. */
  function SmallOf(high: int, low: int): int
  {
    high * 15 + low + (if high == low then 1000 else 0)
  }

  /** The two sorted cards are the two cards, higher face first. */
  lemma SortTwo(a: string, b: string)
    ensures SortDesc([a, b], FaceGe) == if FaceKey(a) >= FaceKey(b) then [a, b] else [b, a]
  {
    assert [a, b][1..] == [b];
    assert [b][1..] == [];
    assert SortDesc([b], FaceGe) == [b];
    assert Insert(a, [], FaceGe) == [a];
  }

  /** small_hand_value of two cards with faces is the score of their higher
      and lower face, whichever order they come in. */
  lemma SmallScoreIs(a: string, b: string)
    requires HasFace(a) && HasFace(b)
    ensures SmallScore([a, b]) == SmallScore([b, a])
    ensures SmallScore([a, b]) == Success(
      if Face(a) >= Face(b) then SmallOf(Face(a), Face(b)) else SmallOf(Face(b), Face(a)))
  {
    SmallScoreOfTwo(a, b);
    SmallScoreOfTwo(b, a);
  }

  lemma SmallScoreOfTwo(a: string, b: string)
    requires HasFace(a) && HasFace(b)
    ensures SmallScore([a, b]) == Success(
      if Face(a) >= Face(b) then SmallOf(Face(a), Face(b)) else SmallOf(Face(b), Face(a)))
  {
    var hand := [a, b];
    NoFaceError(hand, 0);
    assert FirstFaceError(hand, 0) == None;
    var s := SortDesc(hand, FaceGe);
    SortTwo(a, b);
    var v0, v1 := FaceKey(s[0]), FaceKey(s[1]);
    assert SmallScore(hand) == Success(SmallOf(v0, v1));
    if Face(a) >= Face(b) {
      assert v0 == Face(a) && v1 == Face(b);
    } else {
      assert v0 == Face(b) && v1 == Face(a);
    }
  }

  /** The order small_hand_value gives two-card hands, as a key: pairs above
      non-pairs, then the higher face, then the lower face; the same key as
      the low-hand order of paigow.cpp. */
  function SmallKey(high: int, low: int): LowHand.LowKey
    requires 0 <= low <= high
  {
    LowHand.LowKey(high == low, high, low)
  }

  /** On faces below 15, the small-hand scores order two-card hands exactly
      by that key, and two hands score the same exactly when their keys
      agree. */
  lemma SmallOfOrder(h1: int, l1: int, h2: int, l2: int)
    requires 0 <= l1 <= h1 < 15 && 0 <= l2 <= h2 < 15
    ensures SmallOf(h1, l1) < SmallOf(h2, l2) <==> LowHand.KeyLess(SmallKey(h1, l1), SmallKey(h2, l2))
    ensures SmallOf(h1, l1) == SmallOf(h2, l2) <==> SmallKey(h1, l1) == SmallKey(h2, l2)
  {
    if h1 < h2 {
      assert h1 * 15 + l1 < h2 * 15 + l2;
    } else if h2 < h1 {
      assert h2 * 15 + l2 < h1 * 15 + l1;
    }
  }
}
