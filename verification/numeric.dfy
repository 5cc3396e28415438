/**
  Numeric vocabulary shared by every strategy: sums of real sequences,
  the arg-max of Rust's `Iterator::max_by`, and the transcendental
  functions (`ln`, `sqrt`, `exp`) that the model keeps abstract.
 */
module Numeric {

  /** The floating-point library functions the strategies call.  They are
      supplied by the caller; the model only assumes the facts in `Lawful`. */
  datatype Transcendentals = Transcendentals(ln: real -> real, sqrt: real -> real, exp: real -> real)

  /** The only facts the proofs rely on.  `sqrt` of a non-negative number
      is non-negative and `ln` of a number at least one is non-negative, as
      for the `f64` functions; nothing is assumed where `f64` answers NaN
      (`sqrt` of a negative number).  `exp` is positive, as the real
      exponential is: `f64` `exp` underflows to 0 and overflows to infinity
      at the ends of its range, which this abstraction does not model. */
  ghost predicate Lawful(m: Transcendentals)
  {
    && (forall x :: m.exp(x) > 0.0)
    && (forall x :: x >= 0.0 ==> m.sqrt(x) >= 0.0)
    && (forall x :: x >= 1.0 ==> m.ln(x) >= 0.0)
  }

  /** Left-to-right sum, as `Iterator::sum` folds. */
  function Sum(s: seq<real>): real
  {
    if |s| == 0 then 0.0 else Sum(s[..|s| - 1]) + s[|s| - 1]
  }

  /** Sum of the first `j` entries. */
  function PrefixSum(s: seq<real>, j: nat): real
    requires j <= |s|
  {
    Sum(s[..j])
  }

  /** Extending a prefix by one entry adds that entry. */
  lemma PrefixSumStep(s: seq<real>, j: nat)
    requires j < |s|
    ensures PrefixSum(s, j + 1) == PrefixSum(s, j) + s[j]
  {
    assert s[..j + 1][..j] == s[..j];
  }

  predicate AllPositive(s: seq<real>)
  {
    forall i :: 0 <= i < |s| ==> s[i] > 0.0
  }

  /** `n` copies of `c`. */
  function Constant(n: nat, c: real): (s: seq<real>)
    ensures |s| == n && forall i :: 0 <= i < n ==> s[i] == c
  {
    seq(n, _ => c)
  }

  /** Index returned by `iter().enumerate().max_by(cmp).unwrap().0`:
      `max_by` keeps the later element whenever the comparison says
      "not greater", so among equal maxima the highest index wins. */
  function Argmax(s: seq<real>): (k: nat)
    requires |s| > 0
    ensures k < |s|
    ensures forall j :: 0 <= j < |s| ==> s[j] <= s[k]
    ensures forall j :: k < j < |s| ==> s[j] < s[k]
  {
    if |s| == 1 then 0
    else
      var k := Argmax(s[..|s| - 1]);
      if s[k] <= s[|s| - 1] then |s| - 1 else k
  }

  /** Sum of a concatenation splits. */
  lemma {:induction false} SumAppend(a: seq<real>, b: seq<real>)
    ensures Sum(a + b) == Sum(a) + Sum(b)
    decreases |b|
  {
    if |b| == 0 {
      assert a + b == a;
    } else {
      var b' := b[..|b| - 1];
      assert (a + b)[..|a + b| - 1] == a + b';
      SumAppend(a, b');
    }
  }

  /** Adding `d` to one entry adds `d` to the sum. */
  lemma {:induction false} SumUpdate(s: seq<real>, i: nat, d: real)
    requires i < |s|
    ensures Sum(s[i := s[i] + d]) == Sum(s) + d
  {
    var t := s[i := s[i] + d];
    assert s == s[..i] + [s[i]] + s[i + 1..];
    assert t == s[..i] + [s[i] + d] + s[i + 1..];
    SumAppend(s[..i] + [s[i]], s[i + 1..]);
    SumAppend(s[..i], [s[i]]);
    SumAppend(s[..i] + [s[i] + d], s[i + 1..]);
    SumAppend(s[..i], [s[i] + d]);
    assert Sum([s[i]]) == s[i] by { assert [s[i]][..0] == []; }
    assert Sum([s[i] + d]) == s[i] + d by { assert [s[i] + d][..0] == []; }
  }

  /** A non-empty sequence of positive reals has a positive sum. */
  lemma {:induction false} SumPositive(s: seq<real>)
    requires |s| > 0 && AllPositive(s)
    ensures Sum(s) > 0.0
    decreases |s|
  {
    if |s| > 1 {
      SumPositive(s[..|s| - 1]);
    }
  }

  /** The prefix sums of `n` copies of `1/n` are `j/n`. */
  lemma {:induction false} UniformPrefixSum(n: nat, j: nat)
    requires 0 < n && j <= n
    ensures PrefixSum(Constant(n, 1.0 / n as real), j) == j as real / n as real
    decreases j
  {
    var u := Constant(n, 1.0 / n as real);
    if j > 0 {
      UniformPrefixSum(n, j - 1);
      assert u[..j][..j - 1] == u[..j - 1];
      assert (j - 1) as real / n as real + 1.0 / n as real == j as real / n as real;
    } else {
      assert u[..0] == [];
    }
  }

  /** `n` copies of `1/n` sum to one. */
  lemma UniformSumsToOne(n: nat)
    requires n > 0
    ensures Sum(Constant(n, 1.0 / n as real)) == 1.0
  {
    var u := Constant(n, 1.0 / n as real);
    UniformPrefixSum(n, n);
    assert u[..n] == u;
  }

  /** Every entry divided by `d`. */
  function Scale(s: seq<real>, d: real): (r: seq<real>)
    requires d != 0.0
    ensures |r| == |s| && forall i :: 0 <= i < |s| ==> r[i] * d == s[i]
  {
    seq(|s|, i requires 0 <= i < |s| => s[i] / d)
  }

  /** Dividing every entry by `d` divides the sum by `d`. */
  lemma {:induction false} SumScale(s: seq<real>, d: real)
    requires d != 0.0
    ensures Sum(Scale(s, d)) * d == Sum(s)
    decreases |s|
  {
    if |s| > 0 {
      var s' := s[..|s| - 1];
      assert Scale(s, d)[..|s| - 1] == Scale(s', d);
      SumScale(s', d);
      var a := Sum(Scale(s', d));
      var b := Scale(s, d)[|s| - 1];
      assert (a + b) * d == a * d + b * d;
    }
  }

  // ----- Arithmetic facts the strategies rely on -----

  /** A product of non-negative integers is non-negative. */
  lemma MulNonnegative(a: int, n: int)
    requires a >= 0 && n >= 0
    ensures a * n >= 0
  {
  }

  /** At least one block of at least two is at least two. */
  lemma MulAtLeast(a: nat, b: nat)
    requires a >= 1 && b >= 2
    ensures a * b >= 2
  {
    assert a * b == (a - 1) * b + b;
    MulNonnegative(a - 1, b);
  }

  /** `1 / c` for a positive `c` is positive, and at least one exactly when `c` is at most one. */
  lemma Reciprocal(c: real)
    requires c > 0.0
    ensures 1.0 / c > 0.0
    ensures 1.0 / c >= 1.0 <==> c <= 1.0
  {
    var d := 1.0 / c;
    assert d * c == 1.0;
    if c <= 1.0 {
      assert d >= d * c;
    } else {
      assert d * c > d;
    }
  }

  /** `x * d == d` with `d > 0` forces `x == 1`. */
  lemma UnitQuotient(x: real, d: real)
    requires d > 0.0 && x * d == d
    ensures x == 1.0
  {
    assert (x - 1.0) * d == 0.0;
  }

  /** A quotient of positives is positive. */
  lemma PositiveQuotient(x: real, y: real, d: real)
    requires d > 0.0 && y > 0.0 && x * d == y
    ensures x > 0.0
  {
  }

  /** Dividing a number at least one by a `delta` in `(0, 1)` keeps it at least one. */
  lemma AboveOne(x: real, delta: real)
    requires x >= 1.0 && 0.0 < delta < 1.0
    ensures x / delta >= 1.0
  {
    assert (x / delta) * delta == x;
  }
}
