/** Rank masks. paigow.cpp keeps card ranks as bits of an unsigned 32-bit
    word and reads them back with popcount, count-trailing-zeros and
    count-leading-zeros. A mask is modelled as the set of its set bit
    positions; only positions below Width exist in the word. */
module Masks {

  const Width: nat := 32

  /** 2 to the power k. */
  function Pow2(k: nat): (r: nat)
    ensures r >= 1
  {
    if k == 0 then 1 else 2 * Pow2(k - 1)
  }

  /** The number of set bits at positions lo, ..., hi-1. */
  function CountIn(s: set<nat>, lo: nat, hi: nat): (r: nat)
    ensures r <= if hi <= lo then 0 else hi - lo
    decreases hi - lo
  {
    if hi <= lo then 0 else CountIn(s, lo, hi - 1) + (if hi - 1 in s then 1 else 0)
  }

  /** __builtin_popcount: the number of set bits of the word. */
  function PopCount(s: set<nat>): nat
  {
    CountIn(s, 0, Width)
  }

  /** The unsigned value of the bits at positions below k. */
  function Value(s: set<nat>, k: nat): nat
  {
    if k == 0 then 0 else Value(s, k - 1) + (if k - 1 in s then Pow2(k - 1) else 0)
  }

  /** The unsigned integer the word holds. */
  function MaskValue(s: set<nat>): nat
  {
    Value(s, Width)
  }

  /** The lowest set bit in [lo, hi). */
  function Lowest(s: set<nat>, lo: nat, hi: nat): (r: nat)
    requires CountIn(s, lo, hi) > 0
    ensures lo <= r < hi && r in s
    ensures forall x :: lo <= x < r ==> x !in s
    decreases hi - lo
  {
    CountLow(s, lo, hi);
    if lo in s then lo else Lowest(s, lo + 1, hi)
  }

  /** The highest set bit in [lo, hi). */
  function Highest(s: set<nat>, lo: nat, hi: nat): (r: nat)
    requires CountIn(s, lo, hi) > 0
    ensures lo <= r < hi && r in s
    ensures forall x :: r < x < hi ==> x !in s
    decreases hi - lo
  {
    if hi - 1 in s then hi - 1 else Highest(s, lo, hi - 1)
  }

  /** __builtin_ctz: the position of the lowest set bit (undefined on 0). */
  function Ctz(s: set<nat>): nat
    requires PopCount(s) > 0
  {
    Lowest(s, 0, Width)
  }

  /** __builtin_clz: the number of zero bits above the highest set bit
      (undefined on 0). */
  function Clz(s: set<nat>): nat
    requires PopCount(s) > 0
  {
    Width - 1 - Highest(s, 0, Width)
  }

  // ---------------------------------------------------------------------
  // Counting

  /** Peeling the lowest position off a count. */
  lemma {:induction false} CountLow(s: set<nat>, lo: nat, hi: nat)
    requires lo < hi
    ensures CountIn(s, lo, hi) == (if lo in s then 1 else 0) + CountIn(s, lo + 1, hi)
    decreases hi - lo
  {
    if lo + 1 < hi {
      CountLow(s, lo, hi - 1);
    }
  }

  /** Counting over [lo, hi) in two pieces. */
  lemma {:induction false} CountSplit(s: set<nat>, lo: nat, mid: nat, hi: nat)
    requires lo <= mid <= hi
    ensures CountIn(s, lo, hi) == CountIn(s, lo, mid) + CountIn(s, mid, hi)
    decreases hi - mid
  {
    if mid < hi {
      CountSplit(s, lo, mid, hi - 1);
    }
  }

  /** A count reaches the width of its range only when every position is set. */
  lemma {:induction false} CountFull(s: set<nat>, lo: nat, hi: nat)
    requires lo <= hi && CountIn(s, lo, hi) == hi - lo
    ensures forall x :: lo <= x < hi ==> x in s
    decreases hi - lo
  {
    if lo < hi {
      CountFull(s, lo, hi - 1);
    }
  }

  /** A count with every position set is the width of the range. */
  lemma {:induction false} CountAll(s: set<nat>, lo: nat, hi: nat)
    requires lo <= hi && forall x :: lo <= x < hi ==> x in s
    ensures CountIn(s, lo, hi) == hi - lo
    decreases hi - lo
  {
    if lo < hi {
      CountAll(s, lo, hi - 1);
    }
  }

  /** A count over a range holding no set bit is 0. */
  lemma {:induction false} CountNone(s: set<nat>, lo: nat, hi: nat)
    requires forall x :: lo <= x < hi ==> x !in s
    ensures CountIn(s, lo, hi) == 0
    decreases hi - lo
  {
    if lo < hi {
      CountNone(s, lo, hi - 1);
    }
  }

  /** Counts are monotone in the set. */
  lemma {:induction false} CountSubset(s: set<nat>, t: set<nat>, lo: nat, hi: nat)
    requires s <= t
    ensures CountIn(s, lo, hi) <= CountIn(t, lo, hi)
    decreases hi - lo
  {
    if lo < hi {
      CountSubset(s, t, lo, hi - 1);
    }
  }

  /** Only the positions inside the range matter. */
  lemma {:induction false} CountSame(s: set<nat>, t: set<nat>, lo: nat, hi: nat)
    requires forall x :: lo <= x < hi ==> (x in s <==> x in t)
    ensures CountIn(s, lo, hi) == CountIn(t, lo, hi)
    decreases hi - lo
  {
    if lo < hi {
      CountSame(s, t, lo, hi - 1);
    }
  }

  /** A one-bit word. */
  lemma CountSingleton(r: nat, lo: nat, hi: nat)
    requires lo <= r < hi
    ensures CountIn({r}, lo, hi) == 1
  {
    CountSplit({r}, lo, r, hi);
    CountNone({r}, lo, r);
    CountLow({r}, r, hi);
    CountNone({r}, r + 1, hi);
  }

  // ---------------------------------------------------------------------
  // Values

  lemma {:induction false} ValueBound(s: set<nat>, k: nat)
    ensures Value(s, k) < Pow2(k)
  {
    if k > 0 {
      ValueBound(s, k - 1);
    }
  }

  /** Only the positions below k matter. */
  lemma {:induction false} ValueSame(s: set<nat>, t: set<nat>, k: nat)
    requires forall x :: x < k ==> (x in s <==> x in t)
    ensures Value(s, k) == Value(t, k)
  {
    if k > 0 {
      ValueSame(s, t, k - 1);
    }
  }

  /** Positions at or above k add nothing when no bit is set there. */
  lemma {:induction false} ValueTop(s: set<nat>, k: nat, j: nat)
    requires k <= j && forall x :: k <= x < j ==> x !in s
    ensures Value(s, j) == Value(s, k)
    decreases j - k
  {
    if k < j {
      ValueTop(s, k, j - 1);
    }
  }

  /** Unsigned comparison: the word whose highest differing bit is set is
      the larger. */
  lemma {:induction false} ValueGreater(a: set<nat>, b: set<nat>, t: nat, k: nat)
    requires t < k && t in a && t !in b
    requires forall x :: t < x < k ==> (x in a <==> x in b)
    ensures Value(a, k) > Value(b, k)
    decreases k - t
  {
    if k == t + 1 {
      ValueBound(b, t);
    } else {
      ValueGreater(a, b, t, k - 1);
    }
  }

  lemma {:induction false} Pow2Monotone(j: nat, k: nat)
    requires j <= k
    ensures Pow2(j) <= Pow2(k)
    decreases k - j
  {
    if j < k {
      Pow2Monotone(j, k - 1);
    }
  }

  /** The value of a word with one or two bits set. */
  lemma ValueOfPair(i: nat, j: nat, k: nat)
    requires i < k && j < k
    ensures Value({i, j}, k) == if i == j then Pow2(i) else Pow2(i) + Pow2(j)
  {
    ValuePairUpTo(i, j, k);
  }

  lemma {:induction false} ValuePairUpTo(i: nat, j: nat, k: nat)
    ensures Value({i, j}, k) ==
      (if i < k then Pow2(i) else 0) + (if j < k && j != i then Pow2(j) else 0)
  {
    if k > 0 {
      ValuePairUpTo(i, j, k - 1);
    }
  }

  /** Clearing the bits of a sub-word: popcount(a & ~b) when b's bits are
      all set in a. */
  lemma {:induction false} CountDiff(a: set<nat>, b: set<nat>, lo: nat, hi: nat)
    requires b <= a
    ensures CountIn(a - b, lo, hi) + CountIn(b, lo, hi) == CountIn(a, lo, hi)
    decreases hi - lo
  {
    if lo < hi {
      CountDiff(a, b, lo, hi - 1);
    }
  }

  /** A word whose bits all lie below 13 (a rank mask) is below 2^13. */
  lemma RankMaskValue(s: set<nat>)
    requires forall r :: r in s ==> r < 13
    ensures MaskValue(s) < 8192
  {
    ValueTop(s, 13, Width);
    ValueBound(s, 13);
    assert Pow2(13) == 8192;
  }

  /** The lowest and highest set bits of a rank mask are ranks. */
  lemma RankMaskEnds(s: set<nat>)
    requires forall r :: r in s ==> r < 13
    requires PopCount(s) > 0
    ensures Ctz(s) <= Highest(s, 0, Width) < 13
  {
  }

  /** A word with no bit set below the width is the zero word. */
  lemma EmptyMask(s: set<nat>)
    requires forall r :: r in s ==> r < Width
    requires PopCount(s) == 0
    ensures s == {}
  {
    if r :| r in s {
      CountSplit(s, 0, r, Width);
      CountLow(s, r, Width);
    }
  }

  /** A word with at most hi - lo bits set, all of lo, ..., hi-1 among
      them, has no other bit set. */
  lemma RunIsAll(s: set<nat>, lo: nat, hi: nat)
    requires lo <= hi <= Width && PopCount(s) <= hi - lo
    requires forall x :: lo <= x < hi ==> x in s
    ensures PopCount(s) == hi - lo
    ensures CountIn(s, 0, lo) == 0 && CountIn(s, hi, Width) == 0
  {
    CountAll(s, lo, hi);
    CountSplit(s, 0, lo, Width);
    CountSplit(s, lo, hi, Width);
  }

  /** The lowest and highest set bits of a word whose set bits are the run
      lo, ..., hi-1. */
  lemma RunEnds(s: set<nat>, lo: nat, hi: nat)
    requires lo < hi <= Width && PopCount(s) <= hi - lo
    requires forall x :: lo <= x < hi ==> x in s
    ensures PopCount(s) == hi - lo && Ctz(s) == lo && Highest(s, 0, Width) + 1 == hi
  {
    RunIsAll(s, lo, hi);
    CountZero(s, 0, lo);
    CountZero(s, hi, Width);
    LowestIs(s, 0, Width, lo);
    HighestIs(s, 0, Width, hi - 1);
  }

  /** Conversely, a word whose lowest and highest set bits are as far apart
      as its popcount allows has every bit between them set. */
  lemma EndsAreRun(s: set<nat>)
    requires PopCount(s) > 0 && Highest(s, 0, Width) + 1 == Ctz(s) + PopCount(s)
    ensures forall x :: Ctz(s) <= x <= Highest(s, 0, Width) ==> x in s
  {
    var lo, hi := Ctz(s), Highest(s, 0, Width);
    CountSplit(s, 0, lo, Width);
    CountNone(s, 0, lo);
    CountSplit(s, lo, hi + 1, Width);
    CountNone(s, hi + 1, Width);
    CountFull(s, lo, hi + 1);
  }

  /** The lowest set bit is the set bit with none below it. */
  lemma LowestIs(s: set<nat>, lo: nat, hi: nat, r: nat)
    requires lo <= r < hi && r in s && forall x :: lo <= x < r ==> x !in s
    ensures CountIn(s, lo, hi) > 0 && Lowest(s, lo, hi) == r
  {
    CountSplit(s, lo, r, hi);
    CountLow(s, r, hi);
  }

  /** The highest set bit is the set bit with none above it. */
  lemma HighestIs(s: set<nat>, lo: nat, hi: nat, r: nat)
    requires lo <= r < hi && r in s && forall x :: r < x < hi ==> x !in s
    ensures CountIn(s, lo, hi) > 0 && Highest(s, lo, hi) == r
  {
    CountSplit(s, lo, r, hi);
    CountLow(s, r, hi);
  }

  /** A count of 0 means no position in the range is set. */
  lemma {:induction false} CountZero(s: set<nat>, lo: nat, hi: nat)
    requires CountIn(s, lo, hi) == 0
    ensures forall x :: lo <= x < hi ==> x !in s
    decreases hi - lo
  {
    if lo < hi {
      CountZero(s, lo, hi - 1);
    }
  }

  /** Setting a new bit adds one to the popcount. */
  lemma CountAdd(s: set<nat>, r: nat)
    requires r < Width && r !in s
    ensures PopCount(s + {r}) == PopCount(s) + 1
  {
    assert (s + {r}) - {r} == s;
    CountDiff(s + {r}, {r}, 0, Width);
    CountSingleton(r, 0, Width);
  }

  /** Setting a new bit below k adds its power of two to the value. */
  lemma {:induction false} ValueAdd(s: set<nat>, r: nat, k: nat)
    requires r !in s
    ensures Value(s + {r}, k) == Value(s, k) + (if r < k then Pow2(r) else 0)
  {
    if k > 0 {
      ValueAdd(s, r, k - 1);
    }
  }

  // ---------------------------------------------------------------------
  // Reading the set bits from the top

  /** The set bits at positions below k, from the highest to the lowest. */
  function BitsDown(s: set<nat>, k: nat): (r: seq<nat>)
    ensures |r| == CountIn(s, 0, k)
  {
    if k == 0 then []
    else (if k - 1 in s then [k - 1] else []) + BitsDown(s, k - 1)
  }

  /** The list holds exactly the set bits below k, strictly falling. */
  lemma {:induction false} BitsDownFacts(s: set<nat>, k: nat)
    ensures forall i :: 0 <= i < |BitsDown(s, k)| ==> BitsDown(s, k)[i] < k && BitsDown(s, k)[i] in s
    ensures forall i, j :: 0 <= i < j < |BitsDown(s, k)| ==> BitsDown(s, k)[i] > BitsDown(s, k)[j]
    ensures forall x :: x < k && x in s ==> x in BitsDown(s, k)
  {
    if k > 0 {
      BitsDownFacts(s, k - 1);
    }
  }

  /** a comes before b in lexicographic order; a proper prefix comes first. */
  predicate LexBefore(a: seq<nat>, b: seq<nat>)
  {
    |b| > 0 && (|a| == 0 || a[0] < b[0] || (a[0] == b[0] && LexBefore(a[1..], b[1..])))
  }

  /** Lexicographic order and equality on lists that start with one element each. */
  lemma LexCons(x: nat, a: seq<nat>, y: nat, b: seq<nat>)
    ensures LexBefore([x] + a, [y] + b) <==> x < y || (x == y && LexBefore(a, b))
    ensures [x] + a == [y] + b <==> x == y && a == b
  {
    assert ([x] + a)[1..] == a;
    assert ([y] + b)[1..] == b;
  }

  /** Unsigned comparison reads the words from the top: one word is below
      another exactly when its list of set bits, highest first, comes first
      in lexicographic order, and two words are equal exactly when they
      list the same bits. */
  lemma {:induction false} ValueOrder(a: set<nat>, b: set<nat>, k: nat)
    ensures Value(a, k) < Value(b, k) <==> LexBefore(BitsDown(a, k), BitsDown(b, k))
    ensures Value(a, k) == Value(b, k) <==> BitsDown(a, k) == BitsDown(b, k)
  {
    if k > 0 {
      var j := k - 1;
      ValueOrder(a, b, j);
      if j in a && j in b {
        SameTopBit(a, b, j, k);
      } else if j in a {
        TopBitIn(a, b, j, k);
      } else if j in b {
        TopBitIn(b, a, j, k);
      } else {
        assert BitsDown(a, k) == BitsDown(a, j);
        assert BitsDown(b, k) == BitsDown(b, j);
      }
    }
  }

  /** Both words have bit j set: the comparison is decided below it. */
  lemma SameTopBit(a: set<nat>, b: set<nat>, j: nat, k: nat)
    requires k == j + 1 && j in a && j in b
    requires Value(a, j) < Value(b, j) <==> LexBefore(BitsDown(a, j), BitsDown(b, j))
    requires Value(a, j) == Value(b, j) <==> BitsDown(a, j) == BitsDown(b, j)
    ensures Value(a, k) < Value(b, k) <==> LexBefore(BitsDown(a, k), BitsDown(b, k))
    ensures Value(a, k) == Value(b, k) <==> BitsDown(a, k) == BitsDown(b, k)
  {
    assert BitsDown(a, k) == [j] + BitsDown(a, j);
    assert BitsDown(b, k) == [j] + BitsDown(b, j);
    LexCons(j, BitsDown(a, j), j, BitsDown(b, j));
  }

  /** Only a has bit j set, and no bit above: a is the larger word and
      lists first the bit b lacks. */
  lemma TopBitIn(a: set<nat>, b: set<nat>, j: nat, k: nat)
    requires k == j + 1 && j in a && j !in b
    ensures Value(a, k) > Value(b, k)
    ensures !LexBefore(BitsDown(a, k), BitsDown(b, k)) && LexBefore(BitsDown(b, k), BitsDown(a, k))
    ensures BitsDown(a, k) != BitsDown(b, k)
  {
    ValueBound(b, j);
    BitsDownFacts(b, j);
    assert BitsDown(a, k) == [j] + BitsDown(a, j);
    assert BitsDown(b, k) == BitsDown(b, j);
    TopBitFirst(j, BitsDown(a, j), BitsDown(b, j));
  }

  /** A list headed by j comes after every list of smaller numbers. */
  lemma TopBitFirst(j: nat, a: seq<nat>, b: seq<nat>)
    requires forall i :: 0 <= i < |b| ==> b[i] < j
    ensures !LexBefore([j] + a, b) && LexBefore(b, [j] + a) && [j] + a != b
  {
    if |b| > 0 {
      assert b[0] < j;
    }
  }

  /** A word with one bit set lists that bit. */
  lemma BitsOne(s: set<nat>)
    requires PopCount(s) == 1
    ensures BitsDown(s, Width) == [Ctz(s)]
  {
    var r := BitsDown(s, Width);
    BitsDownFacts(s, Width);
    assert Ctz(s) in r;
  }

  /** A word with two bits set lists its highest bit, then its lowest. */
  lemma BitsTwo(s: set<nat>)
    requires PopCount(s) == 2
    ensures BitsDown(s, Width) == [Highest(s, 0, Width), Ctz(s)]
  {
    var r := BitsDown(s, Width);
    var hi, lo := Highest(s, 0, Width), Ctz(s);
    BitsDownFacts(s, Width);
    assert hi in r && lo in r;
    assert r[0] <= hi && lo <= r[1];
  }

  /** A sub-word holding as many bits as the word is the word. */
  lemma SubWordFull(a: set<nat>, b: set<nat>)
    requires b <= a && forall r :: r in a ==> r < Width
    requires PopCount(b) == PopCount(a)
    ensures a == b
  {
    CountDiff(a, b, 0, Width);
    EmptyMask(a - b);
    forall r | r in a
      ensures r in b
    {
      assert r !in a - b;
    }
  }
}
