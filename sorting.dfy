/** Python's sorted(xs, key=..., reverse=True), as poker.py uses it three
    times: a stable sort into descending key order. It is modelled as an
    insertion sort on an "at least" relation ge between elements
    (ge(x, y) when x's key is at least y's): each element goes in front of
    the first element it ranks at least as high as, so an element that came
    first stays in front of the elements it ties with. */
module Sorting {

  /** ge orders every pair and is transitive, as a comparison of keys is. */
  ghost predicate TotalPreorder<T(!new)>(ge: (T, T) -> bool)
  {
    && (forall a, b :: ge(a, b) || ge(b, a))
    && (forall a, b, c :: ge(a, b) && ge(b, c) ==> ge(a, c))
  }

  /** Every element ranks at least as high as every later one. */
  ghost predicate Descending<T>(s: seq<T>, ge: (T, T) -> bool)
  {
    forall i, j :: 0 <= i < j < |s| ==> ge(s[i], s[j])
  }

  /** Where x goes in s: after the leading elements it does not rank at least
      as high as. */
  function Position<T>(x: T, s: seq<T>, ge: (T, T) -> bool): (p: nat)
    ensures p <= |s|
  {
    if |s| == 0 || ge(x, s[0]) then 0 else 1 + Position(x, s[1..], ge)
  }

  /** x ranks at least as high as the element at its position and not as
      high as any element before it. */
  lemma {:induction false} PositionFacts<T>(x: T, s: seq<T>, ge: (T, T) -> bool)
    ensures forall t :: 0 <= t < Position(x, s, ge) ==> !ge(x, s[t])
    ensures Position(x, s, ge) < |s| ==> ge(x, s[Position(x, s, ge)])
  {
    if |s| > 0 && !ge(x, s[0]) {
      PositionFacts(x, s[1..], ge);
    }
  }

  function Insert<T>(x: T, s: seq<T>, ge: (T, T) -> bool): (r: seq<T>)
    ensures |r| == |s| + 1
  {
    if |s| == 0 || ge(x, s[0]) then [x] + s else [s[0]] + Insert(x, s[1..], ge)
  }

  /** The element at each position of Insert(x, s, ge): s before x's
      position, x at it, s shifted by one after it. */
  lemma {:induction false} InsertAt<T>(x: T, s: seq<T>, ge: (T, T) -> bool, i: nat)
    requires i <= |s|
    ensures Insert(x, s, ge)[i] ==
      if i < Position(x, s, ge) then s[i] else if i == Position(x, s, ge) then x else s[i - 1]
  {
    if |s| > 0 && !ge(x, s[0]) && i > 0 {
      InsertAt(x, s[1..], ge, i - 1);
    }
  }

  lemma {:induction false} InsertMultiset<T>(x: T, s: seq<T>, ge: (T, T) -> bool)
    ensures multiset(Insert(x, s, ge)) == multiset(s) + multiset{x}
  {
    if |s| > 0 && !ge(x, s[0]) {
      InsertMultiset(x, s[1..], ge);
      assert s == [s[0]] + s[1..];
    }
  }

  /** sorted(xs, reverse=True) with ge comparing the keys. */
  function SortDesc<T>(xs: seq<T>, ge: (T, T) -> bool): (r: seq<T>)
    ensures |r| == |xs| && multiset(r) == multiset(xs)
  {
    if |xs| == 0 then []
    else
      var rest := SortDesc(xs[1..], ge);
      InsertMultiset(xs[0], rest, ge);
      assert xs == [xs[0]] + xs[1..];
      Insert(xs[0], rest, ge)
  }

  /** Inserting into a descending sequence keeps it descending. */
  lemma InsertDescending<T(!new)>(x: T, s: seq<T>, ge: (T, T) -> bool)
    requires TotalPreorder(ge) && Descending(s, ge)
    ensures Descending(Insert(x, s, ge), ge)
  {
    var r := Insert(x, s, ge);
    forall i, j | 0 <= i < j < |r|
      ensures ge(r[i], r[j])
    {
      InsertDescendingPair(x, s, ge, i, j);
    }
  }

  lemma InsertDescendingPair<T(!new)>(x: T, s: seq<T>, ge: (T, T) -> bool, i: nat, j: nat)
    requires TotalPreorder(ge) && Descending(s, ge) && i < j <= |s|
    ensures ge(Insert(x, s, ge)[i], Insert(x, s, ge)[j])
  {
    var p := Position(x, s, ge);
    PositionFacts(x, s, ge);
    InsertAt(x, s, ge, i);
    InsertAt(x, s, ge, j);
    if j == p {
      assert !ge(x, s[i]);
    } else if i == p {
      if j - 1 > p {
        assert ge(s[p], s[j - 1]);
      }
    } else {
      var i', j' := if i < p then i else i - 1, if j < p then j else j - 1;
      assert ge(s[i'], s[j']);
    }
  }

  /** The result of the sort is in descending order. */
  lemma {:induction false} SortDescending<T(!new)>(xs: seq<T>, ge: (T, T) -> bool)
    requires TotalPreorder(ge)
    ensures Descending(SortDesc(xs, ge), ge)
  {
    if |xs| > 0 {
      SortDescending(xs[1..], ge);
      InsertDescending(xs[0], SortDesc(xs[1..], ge), ge);
    }
  }

  /** Tied elements appear in increasing order of idx. */
  ghost predicate TiesInOrder<T>(s: seq<T>, ge: (T, T) -> bool, idx: T -> int)
  {
    forall i, j :: 0 <= i < j < |s| && ge(s[j], s[i]) ==> idx(s[i]) < idx(s[j])
  }

  /** Inserting an element whose idx is below every idx in s keeps ties in
      idx order: the elements in front of it rank strictly higher. */
  lemma InsertStable<T>(x: T, s: seq<T>, ge: (T, T) -> bool, idx: T -> int)
    requires TiesInOrder(s, ge, idx)
    requires forall y :: y in multiset(s) ==> idx(x) < idx(y)
    ensures TiesInOrder(Insert(x, s, ge), ge, idx)
  {
    var r := Insert(x, s, ge);
    forall i, j | 0 <= i < j < |r| && ge(r[j], r[i])
      ensures idx(r[i]) < idx(r[j])
    {
      InsertStablePair(x, s, ge, idx, i, j);
    }
  }

  lemma InsertStablePair<T>(x: T, s: seq<T>, ge: (T, T) -> bool, idx: T -> int, i: nat, j: nat)
    requires TiesInOrder(s, ge, idx)
    requires forall y :: y in multiset(s) ==> idx(x) < idx(y)
    requires i < j <= |s| && ge(Insert(x, s, ge)[j], Insert(x, s, ge)[i])
    ensures idx(Insert(x, s, ge)[i]) < idx(Insert(x, s, ge)[j])
  {
    var p := Position(x, s, ge);
    PositionFacts(x, s, ge);
    InsertAt(x, s, ge, i);
    InsertAt(x, s, ge, j);
    if j == p {
      assert false;
    } else if i == p {
      assert s[j - 1] in multiset(s);
    } else {
      var i', j' := if i < p then i else i - 1, if j < p then j else j - 1;
      SameTies(s, ge, idx, i', j');
    }
  }

  lemma SameTies<T>(s: seq<T>, ge: (T, T) -> bool, idx: T -> int, i: nat, j: nat)
    requires TiesInOrder(s, ge, idx) && i < j < |s| && ge(s[j], s[i])
    ensures idx(s[i]) < idx(s[j])
  {
  }

  /** The sort is stable: when the input is in increasing idx order, tied
      elements of the output are still in increasing idx order. */
  lemma {:induction false} SortStable<T>(xs: seq<T>, ge: (T, T) -> bool, idx: T -> int)
    requires forall i, j :: 0 <= i < j < |xs| ==> idx(xs[i]) < idx(xs[j])
    ensures TiesInOrder(SortDesc(xs, ge), ge, idx)
  {
    if |xs| > 0 {
      var rest := SortDesc(xs[1..], ge);
      SortStable(xs[1..], ge, idx);
      FirstIdxLowest(xs, idx);
      assert multiset(rest) == multiset(xs[1..]);
      InsertStable(xs[0], rest, ge, idx);
    }
  }

  lemma FirstIdxLowest<T>(xs: seq<T>, idx: T -> int)
    requires |xs| > 0 && forall i, j :: 0 <= i < j < |xs| ==> idx(xs[i]) < idx(xs[j])
    ensures forall y :: y in multiset(xs[1..]) ==> idx(xs[0]) < idx(y)
  {
    forall y | y in multiset(xs[1..])
      ensures idx(xs[0]) < idx(y)
    {
      var t :| 0 <= t < |xs[1..]| && xs[1..][t] == y;
      assert xs[t + 1] == y;
    }
  }

  /** The keys of a sequence, in order. */
  function Keys<T>(s: seq<T>, key: T -> int): (ks: seq<int>)
  {
    seq(|s|, i requires 0 <= i < |s| => key(s[i]))
  }

  /** Reordering a sequence reorders its keys: two sequences holding the
      same elements hold the same keys. */
  lemma {:induction false} KeysMultiset<T>(a: seq<T>, b: seq<T>, key: T -> int)
    requires multiset(a) == multiset(b)
    ensures multiset(Keys(a, key)) == multiset(Keys(b, key))
    decreases |a|
  {
    if |a| == 0 {
      assert |b| == |multiset(b)| == 0;
    } else {
      var x := a[0];
      var p := FindIn(b, x);
      var b' := b[..p] + b[p + 1..];
      HeadTail(a);
      RemoveAt(b, p);
      Cancel(multiset(a[1..]), multiset(b'), x);
      KeysMultiset(a[1..], b', key);
      KeysRemoveAt(a, 0, key);
      assert a[..0] + a[1..] == a[1..];
      KeysRemoveAt(b, p, key);
    }
  }

  /** A position holding x, which the sequence holds. */
  lemma FindIn<T>(b: seq<T>, x: T) returns (p: nat)
    requires x in multiset(b)
    ensures p < |b| && b[p] == x
  {
    p :| 0 <= p < |b| && b[p] == x;
  }

  lemma HeadTail<T>(a: seq<T>)
    requires |a| > 0
    ensures multiset(a) == multiset(a[1..]) + multiset{a[0]}
  {
    assert a == [a[0]] + a[1..];
  }

  lemma RemoveAt<T>(b: seq<T>, p: nat)
    requires p < |b|
    ensures multiset(b) == multiset(b[..p] + b[p + 1..]) + multiset{b[p]}
  {
    assert b == b[..p] + [b[p]] + b[p + 1..];
  }

  lemma Cancel<T>(m1: multiset<T>, m2: multiset<T>, x: T)
    requires m1 + multiset{x} == m2 + multiset{x}
    ensures m1 == m2
  {
    assert forall y :: m1[y] == (m1 + multiset{x})[y] - multiset{x}[y];
  }

  /** Dropping the element at p drops its key. */
  lemma KeysRemoveAt<T>(b: seq<T>, p: nat, key: T -> int)
    requires p < |b|
    ensures multiset(Keys(b, key)) == multiset(Keys(b[..p] + b[p + 1..], key)) + multiset{key(b[p])}
  {
    var ks := Keys(b, key);
    assert Keys(b[..p] + b[p + 1..], key) == ks[..p] + ks[p + 1..];
    RemoveAt(ks, p);
  }

  /** Every key is at least every later one. */
  predicate NonIncreasing(ks: seq<int>)
  {
    forall i, j :: 0 <= i < j < |ks| ==> ks[i] >= ks[j]
  }

  /** The first key of a non-increasing sequence is its largest. */
  lemma HeadIsMax(a: seq<int>, y: int)
    requires NonIncreasing(a) && y in multiset(a)
    ensures |a| > 0 && y <= a[0]
  {
    var t :| 0 <= t < |a| && a[t] == y;
  }

  /** A non-increasing sequence of keys is determined by the keys it holds. */
  lemma {:induction false} NonIncreasingUnique(a: seq<int>, b: seq<int>)
    requires NonIncreasing(a) && NonIncreasing(b) && multiset(a) == multiset(b)
    ensures a == b
    decreases |a|
  {
    if |a| == 0 {
      assert |b| == |multiset(b)| == 0;
    } else {
      HeadIsMax(b, a[0]);
      HeadIsMax(a, b[0]);
      HeadTail(a);
      HeadTail(b);
      Cancel(multiset(a[1..]), multiset(b[1..]), a[0]);
      NonIncreasingUnique(a[1..], b[1..]);
      assert a == [a[0]] + a[1..] && b == [b[0]] + b[1..];
    }
  }

  /** Sorting two sequences that hold the same elements gives the same
      keys, position by position, when ge compares the keys. */
  lemma SortedKeys<T(!new)>(a: seq<T>, b: seq<T>, key: T -> int, ge: (T, T) -> bool)
    requires multiset(a) == multiset(b)
    requires forall x, y :: ge(x, y) <==> key(x) >= key(y)
    ensures Keys(SortDesc(a, ge), key) == Keys(SortDesc(b, ge), key)
  {
    var sa, sb := SortDesc(a, ge), SortDesc(b, ge);
    KeyPreorder(key, ge);
    SortDescending(a, ge);
    SortDescending(b, ge);
    KeysMultiset(sa, sb, key);
    DescendingKeys(sa, key, ge);
    DescendingKeys(sb, key, ge);
    NonIncreasingUnique(Keys(sa, key), Keys(sb, key));
  }

  lemma KeyPreorder<T(!new)>(key: T -> int, ge: (T, T) -> bool)
    requires forall x, y :: ge(x, y) <==> key(x) >= key(y)
    ensures TotalPreorder(ge)
  {
  }

  lemma DescendingKeys<T>(s: seq<T>, key: T -> int, ge: (T, T) -> bool)
    requires forall x, y :: ge(x, y) <==> key(x) >= key(y)
    requires Descending(s, ge)
    ensures NonIncreasing(Keys(s, key))
  {
  }
}
