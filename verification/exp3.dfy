/**
  Exp3: sample an arm from a probability vector by inverse CDF, then update
  importance-weighted estimators and renormalise `exp(learningRate * est)`.
  The sampling and renormalisation defined here are shared with Exp3-IX.
 */
module Exp3Player {
  import opened Numeric
  import opened Common

  datatype Exp3 = Exp3(arms: seq<ArmInfo>, learningRate: real, probabilities: seq<real>, estimators: seq<real>)

  /** A non-empty vector of positive probabilities summing to one. */
  predicate IsDistribution(p: seq<real>)
  {
    |p| > 0 && AllPositive(p) && Sum(p) == 1.0
  }

  /** The invariant every Exp3 state keeps. */
  predicate Valid(x: Exp3)
  {
    && |x.arms| == |x.probabilities| == |x.estimators|
    && IsDistribution(x.probabilities)
  }

  /** `sqrt(ln(nArms) / (nArms * horizon))`. */
  function LearningRate(nArms: nat, horizon: nat, m: Transcendentals): (lr: real)
    requires nArms > 0 && horizon > 0
    ensures Lawful(m) ==> lr >= 0.0
  {
    m.sqrt(m.ln(nArms as real) / (nArms as real * horizon as real))
  }

  /** Asserts `nArms > 0`; starts uniform with zero estimators. */
  function New(nArms: nat, horizon: nat, m: Transcendentals): (x: Exp3)
    requires nArms > 0 && horizon > 0
    ensures Valid(x) && |x.arms| == nArms
    ensures forall k :: 0 <= k < nArms ==> x.probabilities[k] == 1.0 / nArms as real
    ensures forall k :: 0 <= k < nArms ==> x.estimators[k] == 0.0
    ensures forall k :: 0 <= k < nArms ==> NotPulled(x.arms[k]) && x.arms[k].cumulativeReward == 0.0
    ensures Lawful(m) ==> x.learningRate >= 0.0
  {
    var p := Constant(nArms, 1.0 / nArms as real);
    UniformSumsToOne(nArms);
    Exp3(NewArms(nArms), LearningRate(nArms, horizon, m), p, Constant(nArms, 0.0))
  }

  // ----- Inverse-CDF sampling -----

  /** The cumulative mass up to and including arm `j` exceeds the draw. */
  predicate Exceeds(p: seq<real>, r: real, j: nat)
    requires j < |p|
  {
    r < PrefixSum(p, j + 1)
  }

  /** The loop of `choose`: the least `k` with `r < p[0] + .. + p[k]`, or 0
      when no prefix exceeds `r`. */
  function Sample(p: seq<real>, r: real): (k: nat)
    ensures |p| > 0 ==> k < |p|
    ensures (exists j :: 0 <= j < |p| && Exceeds(p, r, j)) ==>
              k < |p| && Exceeds(p, r, k) && forall j :: 0 <= j < k ==> !Exceeds(p, r, j)
    ensures (forall j :: 0 <= j < |p| ==> !Exceeds(p, r, j)) ==> k == 0
  {
    SampleFrom(p, r, 0, 0.0)
  }

  /** The loop state after `i` iterations: `pdf` is the mass of arms `0 .. i - 1`. */
  function SampleFrom(p: seq<real>, r: real, i: nat, pdf: real): (k: nat)
    requires i <= |p| && pdf == PrefixSum(p, i)
    requires forall j :: 0 <= j < i ==> !Exceeds(p, r, j)
    ensures |p| > 0 ==> k < |p|
    ensures (exists j :: 0 <= j < |p| && Exceeds(p, r, j)) ==>
              k < |p| && Exceeds(p, r, k) && forall j :: 0 <= j < k ==> !Exceeds(p, r, j)
    ensures (forall j :: 0 <= j < |p| ==> !Exceeds(p, r, j)) ==> k == 0
    decreases |p| - i
  {
    if i == |p| then 0
    else
      PrefixSumStep(p, i);
      if r < pdf + p[i] then i
      else SampleFrom(p, r, i + 1, pdf + p[i])
  }

  /** `choose` ignores the round; `r` is the uniform draw of that call. */
  function Choose(x: Exp3, r: real): (arm: nat)
    requires Valid(x)
    ensures arm < |x.arms|
  {
    Sample(x.probabilities, r)
  }

  /** Under the initial uniform distribution a draw `0 <= r < 1` lands on
      the `k` with `k/n <= r < (k+1)/n`. */
  lemma SampleUniform(n: nat, r: real)
    requires n > 0 && 0.0 <= r < 1.0
    ensures var k := Sample(Constant(n, 1.0 / n as real), r);
            k < n && k as real / n as real <= r < (k + 1) as real / n as real
  {
    var p := Constant(n, 1.0 / n as real);
    UniformPrefixSum(n, n);
    assert Exceeds(p, r, n - 1);
    var k := Sample(p, r);
    UniformPrefixSum(n, k + 1);
    if k > 0 {
      assert !Exceeds(p, r, k - 1);
      UniformPrefixSum(n, k);
    }
  }

  // ----- Update -----

  /** `estimators[k] += 1 - (if k == arm { x } else { 0 })`. */
  function AddEstimates(est: seq<real>, arm: nat, x: real): (e: seq<real>)
    requires arm < |est|
    ensures |e| == |est|
    ensures e[arm] == est[arm] + 1.0 - x
    ensures forall k :: 0 <= k < |est| && k != arm ==> e[k] == est[k] + 1.0
  {
    seq(|est|, k requires 0 <= k < |est| => est[k] + (1.0 - if k == arm then x else 0.0))
  }

  /** The unnormalised weight `exp(learningRate * estimate)`. */
  function Weight(m: Transcendentals, lr: real, estimate: real): (w: real)
    ensures Lawful(m) ==> w > 0.0
  {
    m.exp(lr * estimate)
  }

  function Weights(est: seq<real>, lr: real, m: Transcendentals): (w: seq<real>)
    ensures |w| == |est| && forall k :: 0 <= k < |est| ==> w[k] == Weight(m, lr, est[k])
  {
    seq(|est|, k requires 0 <= k < |est| => Weight(m, lr, est[k]))
  }

  /** Dividing positive weights by their sum gives a distribution
      proportional to them. */
  function Normalise(w: seq<real>): (p: seq<real>)
    requires |w| > 0 && AllPositive(w)
    ensures |p| == |w| && IsDistribution(p)
    ensures forall i, j :: 0 <= i < |w| && 0 <= j < |w| ==> p[i] * w[j] == p[j] * w[i]
  {
    SumPositive(w);
    ScaleBySumIsDistribution(w, Sum(w));
    ScaleIsProportional(w, Sum(w));
    Scale(w, Sum(w))
  }

  lemma ScaleBySumIsDistribution(w: seq<real>, d: real)
    requires |w| > 0 && AllPositive(w) && d == Sum(w) && d > 0.0
    ensures IsDistribution(Scale(w, d))
  {
    ScaledSumIsOne(w, d);
    var p := Scale(w, d);
    forall i | 0 <= i < |w|
      ensures p[i] > 0.0
    {
      PositiveQuotient(p[i], w[i], d);
    }
  }

  /** Dividing by the sum leaves a sum of 1. */
  lemma ScaledSumIsOne(w: seq<real>, d: real)
    requires d == Sum(w) && d > 0.0
    ensures Sum(Scale(w, d)) == 1.0
  {
    SumScale(w, d);
    UnitQuotient(Sum(Scale(w, d)), d);
  }

  lemma ScaleIsProportional(w: seq<real>, d: real)
    requires d != 0.0
    ensures forall i, j :: 0 <= i < |w| && 0 <= j < |w| ==> Scale(w, d)[i] * w[j] == Scale(w, d)[j] * w[i]
  {
    var p := Scale(w, d);
    forall i, j | 0 <= i < |w| && 0 <= j < |w|
      ensures p[i] * w[j] == p[j] * w[i]
    {
      assert w[j] == p[j] * d && w[i] == p[i] * d;
      assert p[i] * (p[j] * d) == p[j] * (p[i] * d);
    }
  }

  /** Exp3's update: record the reward, add `1 - (1 - reward) / p[arm]` to
      the played arm's estimator and 1 to every other, then renormalise.
      `exp` being positive keeps the distribution invariant. */
  function Update(x: Exp3, arm: nat, reward: real, m: Transcendentals): (x': Exp3)
    requires Valid(x) && arm < |x.arms| && Lawful(m)
    ensures Valid(x') && |x'.arms| == |x.arms| && x'.learningRate == x.learningRate
    ensures x'.arms[arm].pullCount == x.arms[arm].pullCount + 1
    ensures x'.arms[arm].cumulativeReward == x.arms[arm].cumulativeReward + reward
    ensures forall k :: 0 <= k < |x.arms| && k != arm ==> x'.arms[k] == x.arms[k]
    ensures x'.estimators[arm] == x.estimators[arm] + 1.0 - (1.0 - reward) / x.probabilities[arm]
    ensures forall k :: 0 <= k < |x.arms| && k != arm ==> x'.estimators[k] == x.estimators[k] + 1.0
    ensures forall i, j :: 0 <= i < |x.arms| && 0 <= j < |x.arms| ==>
              x'.probabilities[i] * Weight(m, x.learningRate, x'.estimators[j])
              == x'.probabilities[j] * Weight(m, x.learningRate, x'.estimators[i])
  {
    var est := AddEstimates(x.estimators, arm, (1.0 - reward) / x.probabilities[arm]);
    var w := Weights(est, x.learningRate, m);
    Exp3(UpdateArm(x.arms, arm, reward), x.learningRate, Normalise(w), est)
  }

}
