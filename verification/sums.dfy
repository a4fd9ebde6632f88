/** Left-to-right sums over sequences, the model of Python's `sum(...)` over a generator. */
module Sums {

  /** The sum of `f` over the elements of `s`. */
  function Sum<T>(s: seq<T>, f: T -> real): real
  {
    if |s| == 0 then 0.0 else Sum(s[..|s| - 1], f) + f(s[|s| - 1])
  }

  /** The integer sum of `f` over the elements of `s`. */
  function SumInt<T>(s: seq<T>, f: T -> int): int
  {
    if |s| == 0 then 0 else SumInt(s[..|s| - 1], f) + f(s[|s| - 1])
  }

  /** Summing a concatenation is summing the parts. */
  lemma {:induction false} SumAppend<T>(a: seq<T>, b: seq<T>, f: T -> real)
    ensures Sum(a + b, f) == Sum(a, f) + Sum(b, f)
    decreases |b|
  {
    if |b| == 0 {
      assert a + b == a;
    } else {
      var b' := b[..|b| - 1];
      assert (a + b)[..|a + b| - 1] == a + b';
      SumAppend(a, b', f);
    }
  }

  /** Replacing one element changes the sum by the difference of the two values. */
  lemma SumUpdate<T>(s: seq<T>, i: nat, x: T, f: T -> real)
    requires i < |s|
    ensures Sum(s[i := x], f) == Sum(s, f) - f(s[i]) + f(x)
  {
    assert s == s[..i] + [s[i]] + s[i + 1..];
    assert s[i := x] == s[..i] + [x] + s[i + 1..];
    SumAppend(s[..i] + [s[i]], s[i + 1..], f);
    SumAppend(s[..i], [s[i]], f);
    SumAppend(s[..i] + [x], s[i + 1..], f);
    SumAppend(s[..i], [x], f);
    assert Sum([s[i]], f) == f(s[i]) by { assert [s[i]][..0] == []; }
    assert Sum([x], f) == f(x) by { assert [x][..0] == []; }
  }

  /** When every term lies in [lo, hi], the sum lies in [lo * |s|, hi * |s|]. */
  lemma {:induction false} SumBounds<T>(s: seq<T>, f: T -> real, lo: real, hi: real)
    requires forall i :: 0 <= i < |s| ==> lo <= f(s[i]) <= hi
    ensures lo * |s| as real <= Sum(s, f) <= hi * |s| as real
    decreases |s|
  {
    if |s| > 0 {
      var s' := s[..|s| - 1];
      assert forall i :: 0 <= i < |s'| ==> s'[i] == s[i];
      SumBounds(s', f, lo, hi);
      assert lo * |s| as real == lo * |s'| as real + lo;
      assert hi * |s| as real == hi * |s'| as real + hi;
    }
  }

  /** Two term functions that agree on every element give the same sum. */
  lemma {:induction false} SumPointwise<T>(s: seq<T>, f: T -> real, g: T -> real)
    requires forall i :: 0 <= i < |s| ==> f(s[i]) == g(s[i])
    ensures Sum(s, f) == Sum(s, g)
    decreases |s|
  {
    if |s| > 0 {
      var s' := s[..|s| - 1];
      assert forall i :: 0 <= i < |s'| ==> s'[i] == s[i];
      SumPointwise(s', f, g);
    }
  }

  /** A sum of non-negative terms is non-negative. */
  lemma {:induction false} SumNonNegative<T>(s: seq<T>, f: T -> real)
    requires forall i :: 0 <= i < |s| ==> f(s[i]) >= 0.0
    ensures Sum(s, f) >= 0.0
    decreases |s|
  {
    if |s| > 0 {
      var s' := s[..|s| - 1];
      assert forall i :: 0 <= i < |s'| ==> s'[i] == s[i];
      SumNonNegative(s', f);
    }
  }

  /** An integer sum of non-negative terms is non-negative. */
  lemma {:induction false} SumIntNonNegative<T>(s: seq<T>, f: T -> int)
    requires forall i :: 0 <= i < |s| ==> f(s[i]) >= 0
    ensures SumInt(s, f) >= 0
    decreases |s|
  {
    if |s| > 0 {
      var s' := s[..|s| - 1];
      assert forall i :: 0 <= i < |s'| ==> s'[i] == s[i];
      SumIntNonNegative(s', f);
    }
  }
}
