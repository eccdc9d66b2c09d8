/** tools/combinatorics.py: factorial as a left fold of multiplication over
    the countdown n, n-1, ..., 2, and choose as a quotient of factorials with
    Python 2 integer division. The lemmas tie choose to the reference
    binomial coefficient, and through it to paigow.cpp's Choose. */
module Combinatorics {
  import opened Binomial

  /** xrange(n, 1, -1): n, n-1, ..., 2; empty when n < 2. */
  function Countdown(n: int): (xs: seq<int>)
    ensures |xs| == if n >= 2 then n - 1 else 0
    ensures forall i :: 0 <= i < |xs| ==> xs[i] == n - i
    decreases n
  {
    if n < 2 then [] else [n] + Countdown(n - 1)
  }

  /** reduce(operator.mul, xs, acc): multiply the accumulator by each element
      from the left. */
  function ReduceMul(xs: seq<int>, acc: int): int
  {
    if |xs| == 0 then acc else ReduceMul(xs[1..], acc * xs[0])
  }

  /** factorial(n). Any n below 2 gives the empty countdown, hence 1. */
  function Factorial(n: int): int
  {
    ReduceMul(Countdown(n), 1)
  }

  /** choose(n, k): Python 2 `/` on two ints floors; the divisor is a
      product of factorials, which are positive, so flooring is Dafny's
      division. */
  function PyChoose(n: int, k: int): int
  {
    var d := Factorial(n - k) * Factorial(k);
    if d > 0 then Factorial(n) / d else 0
  }

  /** A fold of multiplication scales with its starting accumulator. */
  lemma {:induction false} ReduceMulScales(xs: seq<int>, a: int, b: int)
    ensures ReduceMul(xs, a * b) == a * ReduceMul(xs, b)
    decreases |xs|
  {
    if |xs| > 0 {
      MulAssoc(a, b, xs[0]);
      ReduceMulScales(xs[1..], a, b * xs[0]);
    }
  }

  /** factorial(0) == factorial(1) == 1, and factorial(n) == n * factorial(n-1)
      for n >= 1. */
  lemma FactorialRecurrence(n: int)
    ensures Factorial(0) == 1 && Factorial(1) == 1
    ensures n >= 1 ==> Factorial(n) == n * Factorial(n - 1)
  {
    if n >= 2 {
      var rest := Countdown(n - 1);
      assert Countdown(n) == [n] + rest;
      assert ([n] + rest)[1..] == rest;
      assert Factorial(n) == ReduceMul(rest, n);
      ReduceMulScales(rest, n, 1);
    }
  }

  /** factorial(n) is the product 1 * 2 * ... * n. */
  lemma {:induction false} FactorialIsProduct(n: nat)
    ensures Factorial(n) == Prod(1, n)
  {
    FactorialRecurrence(n);
    if n >= 1 {
      FactorialIsProduct(n - 1);
    }
  }

  lemma {:induction false} ProdSplit(lo: nat, m: nat, hi: nat)
    requires lo <= m + 1 && m <= hi
    ensures Prod(lo, hi) == Prod(lo, m) * Prod(m + 1, hi)
    decreases hi - m
  {
    if m < hi {
      ProdSplit(lo, m, hi - 1);
      MulAssoc(Prod(lo, m), Prod(m + 1, hi - 1), hi);
    }
  }

  /** 1 * 2 * ... * k is the same product started at 2. */
  lemma ProdFromOne(k: nat)
    ensures Prod(1, k) == Prod(2, k)
  {
    if k >= 1 {
      ProdLow(1, k);
    }
  }

  /** For 0 <= k <= n, n! is divisible by (n-k)! * k! with quotient the
      binomial coefficient: the integer division in choose is exact. */
  lemma FactorialsDivide(n: nat, k: nat)
    requires k <= n
    ensures Factorial(n) == Binom(n, k) * (Factorial(n - k) * Factorial(k))
  {
    FactorialIsProduct(n);
    FactorialIsProduct(n - k);
    FactorialIsProduct(k);
    ProdSplit(1, n - k, n);
    ProdFromOne(k);
    BinomTimesFactorial(n, k);
    var a, b, c := Prod(1, n - k), Binom(n, k), Prod(2, k);
    assert Prod(1, n) == a * (b * c);
    MulCommute3(a, b, c);
  }

  lemma MulCommute3(a: int, b: int, c: int)
    ensures a * (b * c) == b * (a * c)
  {
  }

  /** factorial is never below 1. */
  lemma FactorialPositive(n: int)
    ensures Factorial(n) >= 1
  {
    if n >= 0 {
      FactorialIsProduct(n);
      ProdPositive(1, n);
    }
  }

  /** choose as a quotient of the three factorials f = n!, a = (n-k)!,
      b = k!. */
  lemma ChooseQuotient(n: int, k: int, f: int, a: int, b: int)
    requires f == Factorial(n) && a == Factorial(n - k) && b == Factorial(k)
    ensures f >= 1 && a >= 1 && b >= 1 && a * b >= 1 && PyChoose(n, k) == f / (a * b)
  {
    FactorialPositive(n);
    FactorialPositive(n - k);
    FactorialPositive(k);
    MulMono(a, b);
  }

  /** For 0 <= k <= n, choose(n, k) is the binomial coefficient, so it agrees
      with paigow.cpp's Choose, which is proved equal to Binom. */
  lemma ChooseIsBinom(n: nat, k: nat)
    requires k <= n
    ensures PyChoose(n, k) == Binom(n, k)
  {
    var f, a, b := Factorial(n), Factorial(n - k), Factorial(k);
    FactorialsDivide(n, k);
    ChooseQuotient(n, k, f, a, b);
    DivExact(f, Binom(n, k), a * b);
  }

  /** choose(n, 0) == choose(n, n) == 1, and choose is symmetric in k and
      n - k. */
  lemma ChooseEndsAndSymmetry(n: nat, k: nat)
    requires k <= n
    ensures PyChoose(n, 0) == 1 && PyChoose(n, n) == 1
    ensures PyChoose(n, k) == PyChoose(n, n - k)
  {
    ChooseIsBinom(n, 0);
    ChooseIsBinom(n, n);
    ChooseIsBinom(n, k);
    ChooseIsBinom(n, n - k);
    BinomAll(n);
    BinomSymmetric(n, k);
  }

  lemma {:induction false} BinomSymmetric(n: nat, k: nat)
    requires k <= n
    ensures Binom(n, k) == Binom(n, n - k)
  {
    if 0 < k < n {
      BinomSymmetric(n - 1, k - 1);
      BinomSymmetric(n - 1, k);
      Pascal(n - 1, n - k);
    } else if k == n {
      BinomAll(n);
    } else {
      BinomAll(n);
    }
  }

  /** Above n, choose is not the binomial coefficient everywhere: (n-k)!
      is 1 for a negative argument, so choose(n, k) is n! / k!, which is 0
      except at choose(0, 1) == 1 (where Binom and paigow.cpp's Choose give
      0). */
  lemma ChooseAboveN(n: nat, k: nat)
    requires k > n
    ensures PyChoose(n, k) == if n == 0 && k == 1 then 1 else 0
  {
    var f, a, b := Factorial(n), Factorial(n - k), Factorial(k);
    ChooseQuotient(n, k, f, a, b);
    assert Countdown(n - k) == [];
    assert a == 1;
    if n == 0 && k == 1 {
      FactorialRecurrence(0);
    } else {
      FactorialAbove(n, k);
      DivSmall(f, b);
    }
  }

  /** k! exceeds n! when k > n, except for 1! == 0!. */
  lemma FactorialAbove(n: nat, k: nat)
    requires k > n && !(n == 0 && k == 1)
    ensures Factorial(n) < Factorial(k)
  {
    FactorialIsProduct(n);
    FactorialIsProduct(k);
    ProdPositive(1, n);
    ProdSplit(1, n, k);
    ProdLow(n + 1, k);
    ProdPositive(n + 2, k);
    if n == 0 {
      ProdFromTwoAtLeast(k);
    }
    ProductAbove(Prod(1, n), Prod(n + 1, k), Prod(n + 2, k), n, k);
  }

  /** The arithmetic of that step: a * b > a when b = (n+1) * c is at least 2. */
  lemma ProductAbove(a: int, b: int, c: int, n: nat, k: nat)
    requires a >= 1 && c >= 1 && b == (n + 1) * c && k > n && !(n == 0 && k == 1)
    requires n == 0 ==> c >= 2
    ensures a < a * b
  {
    if n == 0 {
      assert b >= 2;
    } else {
      MulMono(n + 1, c);
    }
    MulMono(a, b - 1);
  }
}
