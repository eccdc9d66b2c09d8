/** paigow.cpp's Combinations class: an in-place enumerator of the
    num-element subsets of {0, ..., total-1}, held as an increasing array of
    indices. next() steps to the lexicographic successor; jumpTo(i) decodes
    position i directly through the combinatorial number system. Both are
    proved against the specification in KSubsets. */
module Combinations {
  import opened Binomial
  import opened KSubsets
  import opened Wrappers

  /** The state next() leaves after raising position i and resetting the
      positions after it is the successor. */
  lemma SuccessorFromScan(c: seq<nat>, n: nat, i: nat, d: seq<nat>)
    requires IsCombination(c, 0, n) && i < |c| && ScanBack(c, n, |c| - 1) == i
    requires |d| == |c|
    requires forall t :: 0 <= t < i ==> d[t] == c[t]
    requires forall t :: i <= t < |d| ==> d[t] == c[i] + 1 + (t - i)
    ensures Successor(c, n) == Some(d)
    ensures IsCombination(d, 0, n)
  {
    assert d == c[..i] + Run(c[i] + 1, |c| - i);
    SuccessorStep(c, n);
  }

  /** Reflecting the decreasing number-system digits of Binom(n, k) - i - 1
      gives the subset at position i of the enumeration. */
  lemma DecodedIsNth(ds: seq<nat>, c: seq<nat>, n: nat, k: nat, i: nat)
    requires k <= n && i < Binom(n, k) && |ds| == k && |c| == k
    requires forall t :: 0 <= t < k ==> ds[t] < n
    requires forall s, t :: 0 <= s < t < k ==> ds[s] > ds[t]
    requires forall t :: 0 <= t < k ==> c[t] == n - 1 - ds[t]
    requires Cns(ds, k) + i + 1 == Binom(n, k)
    ensures IsCombination(c, 0, n)
    ensures c == Nth(n, k, i)
  {
    assert IsCombination(c, 0, n);
    assert Reflect(c, n) == ds;
    RankPlusCns(c, 0, n);
    NthRank(n, k, i);
    RankInjective(c, Nth(n, k, i), 0, n);
  }

  class Combinations {
    const total: nat
    const num: nat
    const baseMax: nat
    const combination: array<nat>

    /** The array holds a num-subset of {0, ..., total-1} in increasing order. */
    ghost predicate Valid()
      reads this, combination
    {
      && num <= total
      && baseMax == total - num
      && combination.Length == num
      && IsCombination(combination[..], 0, total)
    }

    /** current(): the index array, as a sequence. */
    function Current(): seq<nat>
      reads this, combination
    {
      combination[..]
    }

    /** The enumeration starts at the first subset {0, ..., num-1}. */
    constructor (total: nat, num: nat)
      requires num <= total
      ensures Valid() && this.total == total && this.num == num
      ensures Current() == Initial(num)
      ensures fresh(combination)
    {
      this.total := total;
      this.num := num;
      baseMax := total - num;
      var a := new nat[num];
      var i := 0;
      while i < num
        invariant 0 <= i <= num
        invariant forall t :: 0 <= t < i ==> a[t] == t
      {
        a[i] := i;
        i := i + 1;
      }
      combination := a;
      new;
      assert combination[..] == Run(0, num);
      RunIsCombination(0, num, 0, total);
    }

    /** next(): advance to the lexicographic successor and report true, or
        report false and leave the state alone when the current subset is the
        last one. */
    method Next() returns (more: bool)
      requires Valid()
      modifies combination
      ensures Valid()
      ensures Successor(old(Current()), total) == (if more then Some(Current()) else None)
      ensures !more ==> Current() == old(Current())
    {
      ghost var c0 := combination[..];
      var i: int := num - 1;
      while i >= 0 && combination[i] == baseMax + i
        invariant -1 <= i < num
        invariant combination[..] == c0
        invariant ScanBack(c0, total, num - 1) == ScanBack(c0, total, i)
      {
        i := i - 1;
      }
      if i < 0 {
        return false;
      }
      combination[i] := combination[i] + 1;
      FillRun(i);
      SuccessorFromScan(c0, total, i, combination[..]);
      return true;
    }

    /** The second loop of next(): each position after i gets one more than
        the position before it, so the tail is a run starting after the
        raised position i. */
    method FillRun(i: nat)
      requires i < combination.Length
      modifies combination
      ensures forall t :: 0 <= t <= i ==> combination[t] == old(combination[t])
      ensures forall t :: i <= t < combination.Length ==> combination[t] == combination[i] + (t - i)
    {
      var j := i + 1;
      while j < combination.Length
        invariant i + 1 <= j <= combination.Length
        invariant forall t :: 0 <= t <= i ==> combination[t] == old(combination[t])
        invariant forall t :: i <= t < j ==> combination[t] == combination[i] + (t - i)
      {
        combination[j] := combination[j - 1] + 1;
        j := j + 1;
      }
    }

    /** jumpTo(i): move straight to the subset at position i of the
        enumeration, or report false and leave the state alone when i is not
        below the number of subsets. */
    method JumpTo(i: nat) returns (ok: bool)
      requires Valid()
      modifies combination
      ensures Valid()
      ensures ok == (i < Binom(total, num))
      ensures ok ==> Current() == Nth(total, num, i)
      ensures !ok ==> Current() == old(Current())
    {
      var numCombos := Choose(total, num);
      if i >= numCombos {
        return false;
      }
      ghost var ds := WriteDigits(numCombos - i - 1);
      var index := 0;
      while index < num
        invariant 0 <= index <= num
        invariant forall t :: 0 <= t < index ==> combination[t] == total - 1 - ds[t]
        invariant forall t :: index <= t < num ==> combination[t] == ds[t]
      {
        combination[index] := (total - 1) - combination[index];
        index := index + 1;
      }
      DecodedIsNth(ds, combination[..], total, num, i);
      return true;
    }

    /** The greedy first loop of jumpTo: for each position, the largest v
        with Binom(v, b) <= x, so the array ends up holding the decreasing
        number-system digits of x0. */
    method WriteDigits(x0: nat) returns (ghost ds: seq<nat>)
      requires num <= total && combination.Length == num && x0 < Binom(total, num)
      modifies combination
      ensures |ds| == num && combination[..] == ds
      ensures forall t :: 0 <= t < num ==> ds[t] < total
      ensures forall s, t :: 0 <= s < t < num ==> ds[s] > ds[t]
      ensures Cns(ds, num) == x0
    {
      var a: nat := total;
      var b: nat := num;
      var x: nat := x0;
      ds := [];
      var index := 0;
      while index < num
        invariant 0 <= index <= num && b == num - index && a <= total
        invariant |ds| == index
        invariant forall t :: 0 <= t < index ==> combination[t] == ds[t]
        invariant forall t :: 0 <= t < index ==> a <= ds[t] < total
        invariant forall s, t :: 0 <= s < t < index ==> ds[s] > ds[t]
        invariant x + Cns(ds, num) == x0
        invariant x < Binom(a, b)
      {
        var v, cv := LargestDigit(a, b, x);
        combination[index] := v;
        CnsAppend(ds, v, num);
        ds := ds + [v];
        x := x - cv;
        a := v;
        b := b - 1;
        index := index + 1;
      }
    }

    /** The inner loop of jumpTo: counting down from a, the largest v whose
        Binom(v, b) does not exceed x, together with that binomial. */
    static method LargestDigit(a: nat, b: nat, x: nat) returns (v: nat, cv: nat)
      requires 1 <= b && x < Binom(a, b)
      ensures v < a && cv == Binom(v, b) && cv <= x
      ensures x < cv + Binom(v, b - 1)
    {
      v := a;
      cv := Choose(v, b);
      while cv > x
        invariant v <= a && cv == Binom(v, b)
        invariant v < a ==> x < Binom(v + 1, b)
        decreases v
      {
        v := v - 1;
        cv := Choose(v, b);
      }
      Pascal(v, b);
    }
  }
}
