/** The binomial coefficient used to size and index the k-subset enumeration
    (paigow.cpp, Choose), with the identities the enumeration relies on. */
module Binomial {

  /** Reference definition: Pascal's rule. Binom(n, k) is the number of
      k-element subsets of an n-element set; it is 0 when k > n. */
  function Binom(n: nat, k: nat): (r: nat)
    ensures k > n ==> r == 0
    ensures k <= n ==> r >= 1
  {
    if k == 0 then 1
    else if n == 0 then 0
    else Binom(n - 1, k - 1) + Binom(n - 1, k)
  }

  /** Product lo * (lo+1) * ... * hi; 1 when the range is empty. */
  function Prod(lo: nat, hi: int): nat
    decreases hi - lo + 1
  {
    if hi < lo then 1 else Prod(lo, hi - 1) * hi
  }

  /** Peeling the lowest factor off a non-empty product. */
  lemma {:induction false} ProdLow(lo: nat, hi: nat)
    requires lo <= hi
    ensures Prod(lo, hi) == lo * Prod(lo + 1, hi)
    decreases hi - lo
  {
    if lo < hi {
      ProdLow(lo, hi - 1);
      var p := Prod(lo + 1, hi - 1);
      assert Prod(lo, hi - 1) == lo * p;
      assert Prod(lo + 1, hi) == p * hi;
      MulAssoc(lo, p, hi);
    }
  }

  lemma MulAssoc(a: int, b: int, c: int)
    ensures (a * b) * c == a * (b * c)
  {
  }

  /** A product whose range contains 0 is 0. */
  lemma {:induction false} ProdFromZero(hi: nat)
    ensures Prod(0, hi) == 0
  {
    if hi > 0 {
      ProdFromZero(hi - 1);
    }
  }

  /** A non-empty product of factors >= 2 is at least its largest factor. */
  lemma {:induction false} ProdFromTwoAtLeast(k: nat)
    requires k >= 2
    ensures Prod(2, k) >= k
  {
    if k > 2 {
      ProdFromTwoAtLeast(k - 1);
    }
  }

  lemma {:induction false} ProdPositive(lo: nat, hi: int)
    requires lo >= 1
    ensures Prod(lo, hi) >= 1
    decreases hi - lo + 1
  {
    if hi >= lo {
      ProdPositive(lo, hi - 1);
    }
  }

  /** Binom(n, k) * k! equals the falling product n * (n-1) * ... * (n-k+1),
      which is what the `top` loop of Choose computes. */
  lemma {:induction false} BinomTimesFactorial(n: nat, k: nat)
    requires k <= n
    ensures Binom(n, k) * Prod(2, k) == Prod(n - k + 1, n)
  {
    if k == 0 {
    } else {
      BinomTimesFactorial(n - 1, k - 1);
      var b1, f := Binom(n - 1, k - 1), Prod(2, k - 1);
      assert Prod(2, k) == f * k;
      if k == n {
        assert Binom(n, k) == b1;
        assert Prod(1, n) == Prod(1, n - 1) * n;
        MulAssoc(b1, f, k);
      } else {
        BinomTimesFactorial(n - 1, k);
        var p := Prod(n - k + 1, n - 1);
        ProdLow(n - k, n - 1);
        assert Prod(n - k + 1, n) == p * n;
        PascalProductStep(b1, Binom(n - 1, k), f, k, p, n);
      }
    }
  }

  lemma PascalProductStep(b1: int, b2: int, f: int, k: int, p: int, n: int)
    requires b1 * f == p
    requires b2 * (f * k) == (n - k) * p
    ensures (b1 + b2) * (f * k) == p * n
  {
    calc {
      (b1 + b2) * (f * k);
      b1 * (f * k) + b2 * (f * k);
      { MulAssoc(b1, f, k); }
      p * k + (n - k) * p;
      p * n;
    }
  }

  /** Pascal's rule, stated as a lemma for callers that need it at a point
      where the definition is not unfolded. */
  lemma Pascal(n: nat, k: nat)
    requires k >= 1
    ensures Binom(n + 1, k) == Binom(n, k - 1) + Binom(n, k)
  {
  }

  /** The coefficients of the k-subset enumeration's parameters in this program. */
  lemma {:induction false} BinomOne(n: nat)
    ensures Binom(n, 1) == n
  {
    if n > 0 {
      BinomOne(n - 1);
    }
  }

  /** There is one way to take all of n. */
  lemma {:induction false} BinomAll(n: nat)
    ensures Binom(n, n) == 1
  {
    if n > 0 {
      BinomAll(n - 1);
    }
  }

  lemma BinomSevenTwo()
    ensures Binom(7, 2) == 21
  {
    BinomOne(6); BinomOne(5); BinomOne(4); BinomOne(3); BinomOne(2); BinomOne(1);
    assert Binom(2, 2) == 1;
    assert Binom(3, 2) == 3;
    assert Binom(4, 2) == 6;
    assert Binom(5, 2) == 10;
    assert Binom(6, 2) == 15;
  }

  /** paigow.cpp Choose: the falling product divided by k!, computed with two
      accumulating loops. For k > n the source's unsigned `n - k + 1` either
      is 0 (k == n + 1, so the product contains the factor 0) or wraps to a
      value above n (the product is empty and 1 / k! truncates to 0); both
      give 0, which is what terminates the greedy search in jumpTo. */
  method Choose(n: nat, k: nat) returns (r: nat)
    ensures r == Binom(n, k)
  {
    // The unsigned start value of the `top` loop: n - k + 1, or (after the
    // wrap) a value larger than n.
    var start: nat := if k <= n + 1 then n - k + 1 else n + 1;
    var top := 1;
    var val := start;
    while val <= n
      invariant start <= val
      invariant val <= n + 1 || val == start
      invariant top == Prod(start, val - 1)
    {
      top := top * val;
      val := val + 1;
    }
    var bottom := 1;
    val := 2;
    while val <= k
      invariant 2 <= val
      invariant val <= k + 1 || val == 2
      invariant bottom == Prod(2, val - 1)
    {
      bottom := bottom * val;
      val := val + 1;
    }
    assert bottom == Prod(2, k);
    QuotientIsBinom(n, k, top, bottom);
    r := top / bottom;
  }

  /** The final division of Choose, case by case. */
  lemma QuotientIsBinom(n: nat, k: nat, top: nat, bottom: nat)
    requires bottom == Prod(2, k)
    requires top == Prod(if k <= n + 1 then n - k + 1 else n + 1, n)
    ensures bottom >= 1 && top / bottom == Binom(n, k)
  {
    ProdPositive(2, k);
    if k <= n {
      BinomTimesFactorial(n, k);
      DivExact(top, Binom(n, k), bottom);
    } else if k == n + 1 {
      ProdFromZero(n);
      DivSmall(top, bottom);
    } else {
      ProdFromTwoAtLeast(k);
      DivSmall(top, bottom);
    }
  }

  lemma DivExact(c: nat, a: nat, b: nat)
    requires b >= 1 && c == a * b
    ensures c / b == a
  {
    var q, m := c / b, c % b;
    assert (a - q) * b == m by {
      assert a * b == q * b + m;
    }
    if a - q >= 1 {
      MulMono(a - q, b);
    }
  }

  lemma DivSmall(c: nat, b: nat)
    requires c < b
    ensures c / b == 0
  {
  }

  lemma MulMono(x: int, y: int)
    requires x >= 1 && y >= 1
    ensures x * y >= y
  {
  }
}
