/** The order in which paigow.cpp's Combinations class enumerates the
    k-element subsets of {0, ..., n-1}: each subset is listed as an increasing
    index sequence, and the subsets come in lexicographic order. This module
    is the specification the class is proved against: the successor step
    (next), the rank of a subset (its position in the order) and the
    combinatorial number system that jumpTo decodes. */
module KSubsets {
  import opened Binomial
  import opened Wrappers

  /** c lists a subset of {lo, ..., n-1} in strictly increasing order. */
  predicate IsCombination(c: seq<nat>, lo: nat, n: nat)
  {
    && (forall i, j :: 0 <= i < j < |c| ==> c[i] < c[j])
    && (forall i :: 0 <= i < |c| ==> lo <= c[i] < n)
  }

  /** The consecutive run start, start + 1, ..., start + len - 1. */
  function Run(start: nat, len: nat): (r: seq<nat>)
    ensures |r| == len
    ensures forall i :: 0 <= i < len ==> r[i] == start + i
    decreases len
  {
    if len == 0 then [] else [start] + Run(start + 1, len - 1)
  }

  /** The first subset in the order, {0, ..., k-1}. */
  function Initial(k: nat): seq<nat>
  {
    Run(0, k)
  }

  /** The last subset in the order, {n-k, ..., n-1}. */
  function Last(n: nat, k: nat): seq<nat>
    requires k <= n
  {
    Run(n - k, k)
  }

  /** Scanning backwards from position i, the first position that is below
      its maximum n - |c| + position, or -1 if there is none. */
  function ScanBack(c: seq<nat>, n: nat, i: int): (j: int)
    requires -1 <= i < |c|
    ensures -1 <= j <= i
    ensures forall t :: j < t <= i ==> c[t] == n - |c| + t
    ensures j >= 0 ==> c[j] != n - |c| + j
    decreases i + 1
  {
    if i < 0 || c[i] != n - |c| + i then i else ScanBack(c, n, i - 1)
  }

  /** The step of Combinations::next: raise the last position that is not
      at its maximum and reset the positions after it to consecutive values;
      None when every position is at its maximum. */
  function Successor(c: seq<nat>, n: nat): Option<seq<nat>>
  {
    var i := ScanBack(c, n, |c| - 1);
    if i < 0 then None else Some(c[..i] + Run(c[i] + 1, |c| - i))
  }

  /** The state reached from Initial(k) by i successor steps (a step with no
      successor leaves the state as it is, as next() does). */
  function Nth(n: nat, k: nat, i: nat): seq<nat>
  {
    if i == 0 then Initial(k)
    else match Successor(Nth(n, k, i - 1), n)
      case Some(d) => d
      case None => Nth(n, k, i - 1)
  }

  /** Lexicographic order on index sequences. */
  predicate LexLess(c: seq<nat>, d: seq<nat>)
  {
    && |c| > 0 && |d| > 0
    && (c[0] < d[0] || (c[0] == d[0] && LexLess(c[1..], d[1..])))
  }

  /** The number of m-subsets of {lo, ..., n-1} whose least element lies in
      [lo, hi): sum over v of Binom(n - 1 - v, m - 1). */
  function Below(lo: nat, hi: nat, n: nat, m: nat): nat
    requires hi <= n && m >= 1
    decreases hi - lo
  {
    if hi <= lo then 0 else Binom(n - 1 - lo, m - 1) + Below(lo + 1, hi, n, m)
  }

  /** The position of c in the lexicographic order of the |c|-subsets of
      {lo, ..., n-1}: the number of such subsets that come before it. */
  function LexRank(c: seq<nat>, lo: nat, n: nat): nat
    requires IsCombination(c, lo, n)
  {
    if |c| == 0 then 0 else Below(lo, c[0], n, |c|) + LexRank(c[1..], c[0] + 1, n)
  }

  /** Each value reflected through n - 1 - value, as jumpTo's last loop does. */
  function Reflect(c: seq<nat>, n: nat): (d: seq<nat>)
    requires forall i :: 0 <= i < |c| ==> c[i] < n
    ensures |d| == |c|
    ensures forall i :: 0 <= i < |c| ==> d[i] == n - 1 - c[i]
  {
    if |c| == 0 then [] else [n - 1 - c[0]] + Reflect(c[1..], n)
  }

  /** The combinatorial number system: the value encoded by the decreasing
      sequence d whose first element carries weight m, the next m - 1, ... */
  function Cns(d: seq<nat>, m: nat): nat
    requires |d| <= m
  {
    if |d| == 0 then 0 else Binom(d[0], m) + Cns(d[1..], m - 1)
  }

  // ---------------------------------------------------------------------
  // Sums of binomials

  lemma {:induction false} BelowSplit(lo: nat, mid: nat, hi: nat, n: nat, m: nat)
    requires lo <= mid <= hi <= n && m >= 1
    ensures Below(lo, hi, n, m) == Below(lo, mid, n, m) + Below(mid, hi, n, m)
    decreases mid - lo
  {
    if lo < mid {
      BelowSplit(lo + 1, mid, hi, n, m);
    }
  }

  /** Hockey-stick identity: all m-subsets of {lo, ..., n-1}, counted by
      their least element. */
  lemma {:induction false} BelowAll(lo: nat, n: nat, m: nat)
    requires lo <= n && m >= 1
    ensures Below(lo, n, n, m) == Binom(n - lo, m)
    decreases n - lo
  {
    if lo < n {
      BelowAll(lo + 1, n, m);
      Pascal(n - lo - 1, m);
    }
  }

  /** Appending one more value to a partial combinatorial-number-system sum. */
  lemma {:induction false} CnsAppend(d: seq<nat>, v: nat, m: nat)
    requires |d| < m
    ensures Cns(d + [v], m) == Cns(d, m) + Binom(v, m - |d|)
  {
    if |d| > 0 {
      assert (d + [v])[1..] == d[1..] + [v];
      CnsAppend(d[1..], v, m - 1);
    }
  }

  // ---------------------------------------------------------------------
  // Shape of combinations

  lemma {:induction false} Spread(c: seq<nat>, lo: nat, n: nat, t: nat, j: nat)
    requires IsCombination(c, lo, n) && t <= j < |c|
    ensures c[t] + (j - t) <= c[j]
    decreases j - t
  {
    if t < j {
      Spread(c, lo, n, t + 1, j);
    }
  }

  /** Position t of a k-subset of {0, ..., n-1} holds at most n - k + t. */
  lemma UpperBound(c: seq<nat>, lo: nat, n: nat, t: nat)
    requires IsCombination(c, lo, n) && t < |c|
    ensures c[t] <= n - |c| + t
    ensures lo + |c| <= n
  {
    Spread(c, lo, n, t, |c| - 1);
    Spread(c, lo, n, 0, |c| - 1);
  }

  lemma TailIsCombination(c: seq<nat>, lo: nat, n: nat)
    requires IsCombination(c, lo, n) && |c| > 0
    ensures IsCombination(c[1..], c[0] + 1, n)
    ensures c[0] < n
  {
  }

  lemma RunIsCombination(start: nat, len: nat, lo: nat, n: nat)
    requires lo <= start && start + len <= n
    ensures IsCombination(Run(start, len), lo, n)
  {
  }

  // ---------------------------------------------------------------------
  // Rank and the combinatorial number system

  /** The central identity: the rank of c plus the number-system value of
      its reflection is the number of subsets less one. */
  lemma {:induction false} RankPlusCns(c: seq<nat>, lo: nat, n: nat)
    requires IsCombination(c, lo, n) && lo <= n
    ensures LexRank(c, lo, n) + Cns(Reflect(c, n), |c|) + 1 == Binom(n - lo, |c|)
  {
    if |c| > 0 {
      var m, c0, t := |c|, c[0], c[1..];
      var r := |t|;
      TailIsCombination(c, lo, n);
      RankPlusCns(t, c0 + 1, n);
      RankPlusCnsStep(c, lo, n, c0, t, m, r);
    }
  }

  /** One step of that identity: from the tail's identity to the whole's. */
  lemma RankPlusCnsStep(c: seq<nat>, lo: nat, n: nat, c0: nat, t: seq<nat>, m: nat, r: nat)
    requires IsCombination(c, lo, n) && lo <= n && 0 < m == |c|
    requires c0 == c[0] && t == c[1..] && r == |t| && c0 < n
    requires IsCombination(t, c0 + 1, n)
    requires LexRank(t, c0 + 1, n) + Cns(Reflect(t, n), r) + 1 == Binom(n - (c0 + 1), r)
    ensures LexRank(c, lo, n) + Cns(Reflect(c, n), m) + 1 == Binom(n - lo, m)
  {
    RankHead(c, lo, n);
    ReflectHead(c, n);
    CountFromHead(lo, c0, n, m, r);
  }

  /** The first element's share of the rank and of the number-system value. */
  lemma RankHead(c: seq<nat>, lo: nat, n: nat)
    requires IsCombination(c, lo, n) && |c| > 0
    ensures IsCombination(c[1..], c[0] + 1, n) && c[0] < n
    ensures LexRank(c, lo, n) == Below(lo, c[0], n, |c|) + LexRank(c[1..], c[0] + 1, n)
  {
    TailIsCombination(c, lo, n);
  }

  lemma ReflectHead(c: seq<nat>, n: nat)
    requires forall i :: 0 <= i < |c| ==> c[i] < n
    requires |c| > 0
    ensures Cns(Reflect(c, n), |c|) == Binom(n - 1 - c[0], |c|) + Cns(Reflect(c[1..], n), |c[1..]|)
  {
    var rest := Reflect(c[1..], n);
    assert Reflect(c, n) == [n - 1 - c[0]] + rest;
    assert ([n - 1 - c[0]] + rest)[1..] == rest;
  }

  /** The m-subsets of {lo, ..., n-1}: those starting below c0, those
      starting at c0, and those starting above it. */
  lemma CountFromHead(lo: nat, c0: nat, n: nat, m: nat, r: nat)
    requires lo <= c0 < n && m >= 1 && r == m - 1
    ensures Below(lo, c0, n, m) + Binom(n - (c0 + 1), r) + Binom(n - 1 - c0, m) == Binom(n - lo, m)
  {
    Pascal(n - 1 - c0, m);
    BelowAll(c0, n, m);
    BelowSplit(lo, c0, n, n, m);
    BelowAll(lo, n, m);
  }

  lemma RankBound(c: seq<nat>, lo: nat, n: nat)
    requires IsCombination(c, lo, n) && lo <= n
    ensures LexRank(c, lo, n) < Binom(n - lo, |c|)
  {
    RankPlusCns(c, lo, n);
  }

  /** Below(lo, v + 1) adds the count of subsets starting at v. */
  lemma BelowStep(lo: nat, v: nat, n: nat, m: nat)
    requires lo <= v < n && m >= 1
    ensures Below(lo, v + 1, n, m) == Below(lo, v, n, m) + Binom(n - 1 - v, m - 1)
  {
    BelowSplit(lo, v, v + 1, n, m);
  }

  /** A subset with a smaller least element comes earlier. */
  lemma FirstSmaller(c: seq<nat>, d: seq<nat>, lo: nat, n: nat)
    requires IsCombination(c, lo, n) && IsCombination(d, lo, n)
    requires |c| == |d| > 0 && c[0] < d[0]
    ensures LexRank(c, lo, n) < LexRank(d, lo, n)
  {
    RankBelowNextHead(c, lo, n);
    RankFromHead(d, lo, n);
    BelowSplit(lo, c[0] + 1, d[0], n, |c|);
  }

  /** A subset comes before every subset whose least element is larger. */
  lemma RankBelowNextHead(c: seq<nat>, lo: nat, n: nat)
    requires IsCombination(c, lo, n) && |c| > 0
    ensures c[0] < n && LexRank(c, lo, n) < Below(lo, c[0] + 1, n, |c|)
  {
    var m := |c|;
    TailIsCombination(c, lo, n);
    RankBound(c[1..], c[0] + 1, n);
    BelowStep(lo, c[0], n, m);
    assert LexRank(c, lo, n) == Below(lo, c[0], n, m) + LexRank(c[1..], c[0] + 1, n);
  }

  /** A subset comes after every subset whose least element is smaller. */
  lemma RankFromHead(c: seq<nat>, lo: nat, n: nat)
    requires IsCombination(c, lo, n) && |c| > 0
    ensures LexRank(c, lo, n) >= Below(lo, c[0], n, |c|)
  {
  }

  /** LexRank is strictly monotone in the lexicographic order. */
  lemma {:induction false} LexLessRank(c: seq<nat>, d: seq<nat>, lo: nat, n: nat)
    requires IsCombination(c, lo, n) && IsCombination(d, lo, n) && |c| == |d|
    requires LexLess(c, d)
    ensures LexRank(c, lo, n) < LexRank(d, lo, n)
  {
    if c[0] < d[0] {
      FirstSmaller(c, d, lo, n);
    } else {
      TailIsCombination(c, lo, n);
      TailIsCombination(d, lo, n);
      LexLessRank(c[1..], d[1..], c[0] + 1, n);
    }
  }

  /** Two different sequences of the same length are lexicographically ordered
      one way or the other. */
  lemma {:induction false} LexTotal(c: seq<nat>, d: seq<nat>)
    requires |c| == |d| && c != d
    ensures LexLess(c, d) || LexLess(d, c)
  {
    if c[0] == d[0] {
      assert c == [c[0]] + c[1..] && d == [d[0]] + d[1..];
      LexTotal(c[1..], d[1..]);
    }
  }

  /** The order is exactly the rank order. */
  lemma LexLessIffRank(c: seq<nat>, d: seq<nat>, lo: nat, n: nat)
    requires IsCombination(c, lo, n) && IsCombination(d, lo, n) && |c| == |d|
    ensures LexLess(c, d) <==> LexRank(c, lo, n) < LexRank(d, lo, n)
  {
    if LexLess(c, d) {
      LexLessRank(c, d, lo, n);
    } else if c != d {
      LexTotal(c, d);
      LexLessRank(d, c, lo, n);
    }
  }

  /** Different subsets of the same size have different ranks. */
  lemma RankInjective(c: seq<nat>, d: seq<nat>, lo: nat, n: nat)
    requires IsCombination(c, lo, n) && IsCombination(d, lo, n) && |c| == |d|
    requires LexRank(c, lo, n) == LexRank(d, lo, n)
    ensures c == d
  {
    if c != d {
      LexTotal(c, d);
      LexLessIffRank(c, d, lo, n);
      LexLessIffRank(d, c, lo, n);
    }
  }

  lemma {:induction false} RankOfRunFromLo(lo: nat, m: nat, n: nat)
    requires lo + m <= n
    ensures IsCombination(Run(lo, m), lo, n) && LexRank(Run(lo, m), lo, n) == 0
    decreases m
  {
    if m > 0 {
      RankOfRunFromLo(lo + 1, m - 1, n);
    }
  }

  lemma {:induction false} CnsOfLastIsZero(n: nat, m: nat)
    requires m <= n
    ensures Cns(Reflect(Run(n - m, m), n), m) == 0
  {
    if m > 0 {
      assert Run(n - m, m)[1..] == Run(n - (m - 1), m - 1);
      assert Reflect(Run(n - m, m), n)[1..] == Reflect(Run(n - (m - 1), m - 1), n);
      CnsOfLastIsZero(n, m - 1);
    }
  }

  /** The last subset has the largest rank. */
  lemma RankOfLast(lo: nat, n: nat, m: nat)
    requires lo + m <= n
    ensures IsCombination(Run(n - m, m), lo, n)
    ensures LexRank(Run(n - m, m), lo, n) + 1 == Binom(n - lo, m)
  {
    RankPlusCns(Run(n - m, m), lo, n);
    CnsOfLastIsZero(n, m);
  }

  // ---------------------------------------------------------------------
  // The successor step

  /** Positions after i hold their maxima n - |c| + position. */
  predicate MaximalAfter(c: seq<nat>, n: nat, i: nat)
  {
    forall t :: i < t < |c| ==> c[t] == n - |c| + t
  }

  /** Positions after i continue consecutively from position i. */
  predicate ConsecutiveAfter(d: seq<nat>, i: nat)
    requires i < |d|
  {
    forall t :: i < t < |d| ==> d[t] == d[i] + (t - i)
  }

  lemma ShiftAfter(c: seq<nat>, d: seq<nat>, n: nat, i: nat)
    requires 0 < i < |c| == |d| && MaximalAfter(c, n, i) && ConsecutiveAfter(d, i)
    requires c[..i] == d[..i]
    ensures MaximalAfter(c[1..], n, i - 1) && ConsecutiveAfter(d[1..], i - 1)
    ensures c[0] == d[0] && c[1..][..i - 1] == d[1..][..i - 1]
  {
    assert c[0] == c[..i][0];
    assert c[1..][..i - 1] == c[..i][1..];
    assert d[1..][..i - 1] == d[..i][1..];
  }

  lemma MaximalTailIsLast(c: seq<nat>, n: nat)
    requires 0 < |c| <= n && MaximalAfter(c, n, 0)
    ensures c[1..] == Run(n - (|c| - 1), |c| - 1)
  {
    var r := Run(n - (|c| - 1), |c| - 1);
    forall t | 0 <= t < |c| - 1
      ensures c[1..][t] == r[t]
    {
      assert c[t + 1] == n - |c| + (t + 1);
    }
  }

  lemma ConsecutiveTailIsRun(d: seq<nat>)
    requires 0 < |d| && ConsecutiveAfter(d, 0)
    ensures d[1..] == Run(d[0] + 1, |d| - 1)
  {
    var r := Run(d[0] + 1, |d| - 1);
    forall t | 0 <= t < |d| - 1
      ensures d[1..][t] == r[t]
    {
      assert d[t + 1] == d[0] + (t + 1);
    }
  }

  /** The rank step when the raised position is the first one: the old
      suffix is the last run above c[0], the new one the first run above d[0]. */
  lemma RankStepAtHead(c: seq<nat>, d: seq<nat>, lo: nat, n: nat)
    requires IsCombination(c, lo, n) && IsCombination(d, lo, n) && 0 < |c| == |d|
    requires d[0] == c[0] + 1
    requires MaximalAfter(c, n, 0) && ConsecutiveAfter(d, 0)
    ensures LexRank(d, lo, n) == LexRank(c, lo, n) + 1
  {
    var m := |c|;
    OldTailRank(c, lo, n);
    NewTailRank(d, lo, n);
    BelowStep(lo, c[0], n, m);
    assert LexRank(c, lo, n) == Below(lo, c[0], n, m) + LexRank(c[1..], c[0] + 1, n);
    assert LexRank(d, lo, n) == Below(lo, d[0], n, m) + LexRank(d[1..], d[0] + 1, n);
  }

  /** A suffix at its maxima is the last subset above the head. */
  lemma OldTailRank(c: seq<nat>, lo: nat, n: nat)
    requires IsCombination(c, lo, n) && 0 < |c| && MaximalAfter(c, n, 0)
    ensures IsCombination(c[1..], c[0] + 1, n)
    ensures LexRank(c[1..], c[0] + 1, n) + 1 == Binom(n - (c[0] + 1), |c| - 1)
  {
    TailIsCombination(c, lo, n);
    UpperBound(c, lo, n, 0);
    MaximalTailIsLast(c, n);
    RankOfLast(c[0] + 1, n, |c| - 1);
  }

  /** A consecutive suffix is the first subset above the head. */
  lemma NewTailRank(d: seq<nat>, lo: nat, n: nat)
    requires IsCombination(d, lo, n) && 0 < |d| && ConsecutiveAfter(d, 0)
    ensures IsCombination(d[1..], d[0] + 1, n)
    ensures LexRank(d[1..], d[0] + 1, n) == 0
  {
    TailIsCombination(d, lo, n);
    assert d[|d| - 1] == d[0] + (|d| - 1);
    ConsecutiveTailIsRun(d);
    RankOfRunFromLo(d[0] + 1, |d| - 1, n);
  }

  /** Two subsets with the same first element are as far apart in rank as
      their tails. */
  lemma RankSharedHead(c: seq<nat>, d: seq<nat>, lo: nat, n: nat)
    requires IsCombination(c, lo, n) && IsCombination(d, lo, n) && 0 < |c| == |d| && c[0] == d[0]
    requires IsCombination(c[1..], c[0] + 1, n) && IsCombination(d[1..], c[0] + 1, n)
    requires LexRank(d[1..], c[0] + 1, n) == LexRank(c[1..], c[0] + 1, n) + 1
    ensures LexRank(d, lo, n) == LexRank(c, lo, n) + 1
  {
  }

  /** The rank step at the raised position i: the prefix before i is shared. */
  lemma {:induction false} RankStep(c: seq<nat>, d: seq<nat>, lo: nat, n: nat, i: nat)
    requires IsCombination(c, lo, n) && IsCombination(d, lo, n) && |c| == |d| && i < |c|
    requires c[..i] == d[..i] && d[i] == c[i] + 1
    requires MaximalAfter(c, n, i) && ConsecutiveAfter(d, i)
    ensures LexRank(d, lo, n) == LexRank(c, lo, n) + 1
  {
    if i > 0 {
      ShiftAfter(c, d, n, i);
      TailIsCombination(c, lo, n);
      TailIsCombination(d, lo, n);
      RankStep(c[1..], d[1..], c[0] + 1, n, i - 1);
      RankSharedHead(c, d, lo, n);
    } else {
      RankStepAtHead(c, d, lo, n);
    }
  }

  /** next() has no successor exactly at the last subset. */
  lemma SuccessorNoneIffLast(c: seq<nat>, n: nat)
    requires IsCombination(c, 0, n)
    ensures |c| <= n
    ensures Successor(c, n) == None <==> c == Last(n, |c|)
  {
    if |c| > 0 {
      UpperBound(c, 0, n, 0);
    }
    if Successor(c, n) == None {
      assert c == Run(n - |c|, |c|);
    }
  }

  /** A successor is again a subset of the same size, one rank further. */
  lemma SuccessorStep(c: seq<nat>, n: nat)
    requires IsCombination(c, 0, n) && Successor(c, n).Some?
    ensures var d := Successor(c, n).value;
      && IsCombination(d, 0, n) && |d| == |c|
      && LexRank(d, 0, n) == LexRank(c, 0, n) + 1
  {
    var k := |c|;
    var i := ScanBack(c, n, k - 1);
    var d := Successor(c, n).value;
    UpperBound(c, 0, n, i);
    assert c[i] < n - k + i;
    assert forall t :: i <= t < k ==> d[t] == c[i] + 1 + (t - i);
    assert forall t :: 0 <= t < i ==> d[t] == c[t];
    assert IsCombination(d, 0, n);
    assert c[..i] == d[..i];
    assert MaximalAfter(c, n, i) && ConsecutiveAfter(d, i);
    RankStep(c, d, 0, n, i);
  }

  /** The successor is the lexicographically next subset: it comes after c
      and no subset of the same size lies strictly between them. */
  lemma SuccessorIsNextInOrder(c: seq<nat>, n: nat, e: seq<nat>)
    requires IsCombination(c, 0, n) && Successor(c, n).Some?
    requires IsCombination(e, 0, n) && |e| == |c|
    ensures LexLess(c, Successor(c, n).value)
    ensures !(LexLess(c, e) && LexLess(e, Successor(c, n).value))
  {
    var d := Successor(c, n).value;
    SuccessorStep(c, n);
    LexLessIffRank(c, d, 0, n);
    LexLessIffRank(c, e, 0, n);
    LexLessIffRank(e, d, 0, n);
  }

  // ---------------------------------------------------------------------
  // The enumeration

  /** The i-th state of the enumeration is the subset of rank i. */
  lemma NthRank(n: nat, k: nat, i: nat)
    requires k <= n && i < Binom(n, k)
    ensures IsCombination(Nth(n, k, i), 0, n) && |Nth(n, k, i)| == k
    ensures LexRank(Nth(n, k, i), 0, n) == i
  {
    NthRanked(n, k, i);
  }

  /** c is a k-subset of {0, ..., n-1} of rank i. */
  predicate Ranked(c: seq<nat>, n: nat, k: nat, i: nat)
  {
    IsCombination(c, 0, n) && |c| == k && LexRank(c, 0, n) == i
  }

  lemma {:induction false} NthRanked(n: nat, k: nat, i: nat)
    requires k <= n && i < Binom(n, k)
    ensures Ranked(Nth(n, k, i), n, k, i)
  {
    if i == 0 {
      NthRankedZero(n, k);
    } else {
      NthRanked(n, k, i - 1);
      NthRankStep(n, k, i - 1, i);
    }
  }

  lemma NthRankedZero(n: nat, k: nat)
    requires k <= n
    ensures Ranked(Nth(n, k, 0), n, k, 0)
  {
    RankOfRunFromLo(0, k, n);
  }

  /** Step j = p + 1 of the enumeration, given the rank of step p. */
  lemma NthRankStep(n: nat, k: nat, p: nat, j: nat)
    requires k <= n && j == p + 1 && j < Binom(n, k)
    requires Ranked(Nth(n, k, p), n, k, p)
    ensures Ranked(Nth(n, k, j), n, k, j)
  {
    var prev := Nth(n, k, p);
    NotLast(prev, n, k, p);
    SuccessorStep(prev, n);
    NthNext(n, k, p, j);
  }

  /** A state of rank below the last has a successor. */
  lemma NotLast(c: seq<nat>, n: nat, k: nat, p: nat)
    requires k <= n && p + 1 < Binom(n, k)
    requires IsCombination(c, 0, n) && |c| == k && LexRank(c, 0, n) == p
    ensures Successor(c, n).Some?
  {
    RankOfLast(0, n, k);
    assert c != Last(n, k);
    SuccessorNoneIffLast(c, n);
  }

  /** One step of the enumeration, by definition. */
  lemma NthNext(n: nat, k: nat, p: nat, j: nat)
    requires j == p + 1
    ensures Successor(Nth(n, k, p), n).Some? ==> Nth(n, k, j) == Successor(Nth(n, k, p), n).value
    ensures Successor(Nth(n, k, p), n).None? ==> Nth(n, k, j) == Nth(n, k, p)
  {
  }

  /** Consecutive states are related by the successor step. */
  lemma NthSuccessor(n: nat, k: nat, i: nat)
    requires k <= n && i + 1 < Binom(n, k)
    ensures Successor(Nth(n, k, i), n) == Some(Nth(n, k, i + 1))
  {
    NthRank(n, k, i);
    NotLast(Nth(n, k, i), n, k, i);
    NthNext(n, k, i, i + 1);
  }

  /** The state at the final step j = Binom(n, k) - 1 is the last subset,
      and next() reports exhaustion there. */
  lemma {:induction false} NthLast(n: nat, k: nat, j: nat)
    requires k <= n && j + 1 == Binom(n, k)
    ensures Nth(n, k, j) == Last(n, k)
    ensures Successor(Nth(n, k, j), n) == None
  {
    var c := Nth(n, k, j);
    NthRank(n, k, j);
    RankOfLast(0, n, k);
    RankInjective(c, Last(n, k), 0, n);
    SuccessorNoneIffLast(c, n);
  }

  /** What a step from state i reports: state j = i + 1 while there is one,
      exhaustion after the last. (j is passed in so that callers holding the
      next position in a variable get the fact about that variable.) */
  lemma NthStep(n: nat, k: nat, i: nat, j: nat, more: bool, current: seq<nat>)
    requires k <= n && i < Binom(n, k) && j == i + 1
    requires Successor(Nth(n, k, i), n) == (if more then Some(current) else None)
    ensures more == (j < Binom(n, k))
    ensures more ==> current == Nth(n, k, j)
  {
    if j < Binom(n, k) {
      NthSuccessor(n, k, i);
    } else {
      NthLast(n, k, i);
    }
  }

  /** The enumeration lists every k-subset exactly once: each subset is the
      state at its rank, and different steps give different subsets. */
  lemma NthEnumeratesAll(n: nat, k: nat, c: seq<nat>)
    requires k <= n && IsCombination(c, 0, n) && |c| == k
    ensures LexRank(c, 0, n) < Binom(n, k)
    ensures Nth(n, k, LexRank(c, 0, n)) == c
  {
    RankBound(c, 0, n);
    NthRank(n, k, LexRank(c, 0, n));
    RankInjective(c, Nth(n, k, LexRank(c, 0, n)), 0, n);
  }

  lemma NthDistinct(n: nat, k: nat, i: nat, j: nat)
    requires k <= n && i < Binom(n, k) && j < Binom(n, k) && i != j
    ensures Nth(n, k, i) != Nth(n, k, j)
  {
    NthRank(n, k, i);
    NthRank(n, k, j);
  }
}
