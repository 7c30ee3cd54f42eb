/** Arithmetic helpers standing for Kotlin's `coerce*`, `minOf`/`maxOf`,
    `abs` and the truncating division of `Int`/`Long`. */
module Num {

  function Max(a: real, b: real): (r: real)
    ensures r >= a && r >= b && (r == a || r == b)
  {
    if a >= b then a else b
  }

  function Min(a: real, b: real): (r: real)
    ensures r <= a && r <= b && (r == a || r == b)
  {
    if a <= b then a else b
  }

  function Abs(a: real): (r: real)
    ensures r >= 0.0 && (r == a || r == -a)
  {
    if a >= 0.0 then a else -a
  }

  function IMax(a: int, b: int): (r: int)
    ensures r >= a && r >= b && (r == a || r == b)
  {
    if a >= b then a else b
  }

  function IMin(a: int, b: int): (r: int)
    ensures r <= a && r <= b && (r == a || r == b)
  {
    if a <= b then a else b
  }

  /** Kotlin's `v.coerceIn(lo, hi)`. Kotlin throws when `lo > hi`, so callers must
      rule that out. */
  function CoerceIn(v: real, lo: real, hi: real): (r: real)
    requires lo <= hi
    ensures lo <= r <= hi
    ensures lo <= v <= hi ==> r == v
    ensures v < lo ==> r == lo
    ensures v > hi ==> r == hi
  {
    if v < lo then lo else if v > hi then hi else v
  }

  /** Kotlin's `/` on `Int` and `Long`: the quotient is truncated toward zero
      (Dafny's own `/` is Euclidean). */
  function KDiv(a: int, b: int): (q: int)
    requires b > 0
    ensures a >= 0 ==> q == a / b
    ensures a < 0 ==> q == -((-a) / b)
  {
    if a >= 0 then a / b else -((-a) / b)
  }

  /** Kotlin's `%` on `Int` and `Long`: the remainder takes the sign of the dividend. */
  function KRem(a: int, b: int): (r: int)
    requires b > 0
    ensures a == KDiv(a, b) * b + r
    ensures a >= 0 ==> 0 <= r < b && r == a % b
    ensures a < 0 ==> -b < r <= 0
  {
    a - KDiv(a, b) * b
  }
}

/** Counting and filtering over sequences, built from the front so that they
    follow a left-to-right loop one element at a time. */
module Seqs {

  function Count<T>(s: seq<T>, f: T -> bool): (n: nat)
    ensures n <= |s|
  {
    if |s| == 0 then 0 else Count(s[..|s| - 1], f) + (if f(s[|s| - 1]) then 1 else 0)
  }

  /** The elements of `s` that satisfy `f`, in their original order
      (Kotlin's `filter`, and what `removeAll` leaves behind). */
  function Filter<T>(s: seq<T>, f: T -> bool): (r: seq<T>)
    ensures |r| == Count(s, f)
    ensures forall k :: 0 <= k < |r| ==> f(r[k])
  {
    if |s| == 0 then [] else Filter(s[..|s| - 1], f) + (if f(s[|s| - 1]) then [s[|s| - 1]] else [])
  }

  lemma {:induction false} CountAppend<T>(s: seq<T>, t: seq<T>, f: T -> bool)
    ensures Count(s + t, f) == Count(s, f) + Count(t, f)
    decreases |t|
  {
    if |t| == 0 {
      assert s + t == s;
    } else {
      assert (s + t)[..|s + t| - 1] == s + t[..|t| - 1];
      CountAppend(s, t[..|t| - 1], f);
    }
  }

  lemma {:induction false} FilterAppend<T>(s: seq<T>, t: seq<T>, f: T -> bool)
    ensures Filter(s + t, f) == Filter(s, f) + Filter(t, f)
    decreases |t|
  {
    if |t| == 0 {
      assert s + t == s;
    } else {
      assert (s + t)[..|s + t| - 1] == s + t[..|t| - 1];
      FilterAppend(s, t[..|t| - 1], f);
    }
  }

  /** When every element satisfies `f`, filtering keeps everything. */
  lemma {:induction false} FilterAll<T>(s: seq<T>, f: T -> bool)
    requires forall k :: 0 <= k < |s| ==> f(s[k])
    ensures Filter(s, f) == s && Count(s, f) == |s|
    decreases |s|
  {
    if |s| > 0 {
      FilterAll(s[..|s| - 1], f);
    }
  }

  /** When no element satisfies `f`, nothing is counted. */
  lemma {:induction false} CountNone<T>(s: seq<T>, f: T -> bool)
    requires forall k :: 0 <= k < |s| ==> !f(s[k])
    ensures Count(s, f) == 0 && Filter(s, f) == []
    decreases |s|
  {
    if |s| > 0 {
      CountNone(s[..|s| - 1], f);
    }
  }

  /** Replacing one element changes the count by at most the two verdicts on it. */
  lemma {:induction false} CountUpdate<T>(s: seq<T>, j: nat, x: T, f: T -> bool)
    requires j < |s|
    ensures Count(s[j := x], f) + (if f(s[j]) then 1 else 0) == Count(s, f) + (if f(x) then 1 else 0)
    decreases |s|
  {
    var n := |s| - 1;
    if j < n {
      assert s[j := x][..n] == s[..n][j := x];
      CountUpdate(s[..n], j, x, f);
    } else {
      assert s[j := x][..n] == s[..n];
    }
  }

  /** Two lists that agree elementwise on `f` have the same count and filter size. */
  lemma {:induction false} CountPointwise<T, U>(s: seq<T>, t: seq<U>, f: T -> bool, g: U -> bool)
    requires |s| == |t|
    requires forall k :: 0 <= k < |s| ==> f(s[k]) == g(t[k])
    ensures Count(s, f) == Count(t, g)
    decreases |s|
  {
    if |s| > 0 {
      CountPointwise(s[..|s| - 1], t[..|t| - 1], f, g);
    }
  }

  /** Counting `f` in the part of `s` that `g` keeps, for `g` that keeps everything
      `f` accepts except the elements `h` picks out. */
  lemma {:induction false} CountAfterRemoval<T>(s: seq<T>, f: T -> bool, g: T -> bool, h: T -> bool)
    requires forall x :: h(x) ==> f(x) && !g(x)
    requires forall x :: f(x) && !h(x) ==> g(x)
    ensures Count(Filter(s, g), f) + Count(s, h) == Count(s, f)
    decreases |s|
  {
    if |s| > 0 {
      var n := |s| - 1;
      CountAfterRemoval(s[..n], f, g, h);
      var last := s[n];
      var tail := if g(last) then [last] else [];
      assert Filter(s, g) == Filter(s[..n], g) + tail;
      CountAppend(Filter(s[..n], g), tail, f);
      assert Count(s, h) == Count(s[..n], h) + (if h(last) then 1 else 0);
      assert Count(s, f) == Count(s[..n], f) + (if f(last) then 1 else 0);
    }
  }

}
