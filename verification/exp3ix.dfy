/**
  Exp3-IX: Exp3 with implicit exploration, i.e. the importance weight's
  denominator is biased by `gamma = learningRate / 2`.  Sampling and
  renormalisation are the ones of `Exp3Player`.
 */
module Exp3IxPlayer {
  import opened Numeric
  import opened Common
  import opened Exp3Player

  datatype Exp3Ix = Exp3Ix(arms: seq<ArmInfo>, gamma: real, learningRate: real, probabilities: seq<real>, estimators: seq<real>)

  /** The invariant every Exp3-IX state keeps. */
  predicate Valid(x: Exp3Ix)
  {
    && |x.arms| == |x.probabilities| == |x.estimators|
    && IsDistribution(x.probabilities)
    && x.gamma >= 0.0
  }

  /** With a confidence `delta`: `sqrt((ln n + ln((n + 1) / delta)) / (n T))`;
      without: `sqrt(2 ln(n + 1) / (n T))`.  Both radicands are
      non-negative, hence both rates are, when `delta` lies in `(0, 1)`, the
      range the builder documents; outside it the radicand can be negative
      and `f64` answers NaN. */
  function LearningRate(nArms: nat, horizon: nat, confidence: Option<real>, m: Transcendentals): (lr: real)
    requires nArms > 0 && horizon > 0
    requires confidence.Some? ==> confidence.value != 0.0
    ensures Lawful(m) && InRange(confidence) ==> lr >= 0.0
  {
    var n := nArms as real;
    var nk := n * horizon as real;
    match confidence
    case Some(delta) =>
      assert 0.0 < delta < 1.0 ==> (n + 1.0) / delta >= 1.0 by {
        if 0.0 < delta < 1.0 {
          AboveOne(n + 1.0, delta);
        }
      }
      m.sqrt((m.ln(n) + m.ln((n + 1.0) / delta)) / nk)
    case None => m.sqrt(2.0 * m.ln(n + 1.0) / nk)
  }

  /** The confidence range the builder documents: absent, or in `(0, 1)`. */
  predicate InRange(confidence: Option<real>)
  {
    confidence.Some? ==> 0.0 < confidence.value < 1.0
  }

  /** Asserts `nArms > 0`; starts uniform with zero estimators and
      `gamma = learningRate / 2`. */
  function New(nArms: nat, horizon: nat, confidence: Option<real>, m: Transcendentals): (x: Exp3Ix)
    requires nArms > 0 && horizon > 0
    requires confidence.Some? ==> confidence.value != 0.0
    ensures |x.arms| == |x.probabilities| == |x.estimators| == nArms && IsDistribution(x.probabilities)
    ensures Lawful(m) && InRange(confidence) ==> Valid(x)
    ensures forall k :: 0 <= k < nArms ==> x.probabilities[k] == 1.0 / nArms as real
    ensures forall k :: 0 <= k < nArms ==> x.estimators[k] == 0.0
    ensures forall k :: 0 <= k < nArms ==> NotPulled(x.arms[k]) && x.arms[k].cumulativeReward == 0.0
    ensures x.gamma + x.gamma == x.learningRate
  {
    var lr := LearningRate(nArms, horizon, confidence, m);
    UniformSumsToOne(nArms);
    Exp3Ix(NewArms(nArms), 0.5 * lr, lr, Constant(nArms, 1.0 / nArms as real), Constant(nArms, 0.0))
  }

  /** Same inverse-CDF pick as Exp3; the round is ignored. */
  function Choose(x: Exp3Ix, r: real): (arm: nat)
    requires Valid(x)
    ensures arm < |x.arms|
    ensures arm == Exp3Player.Choose(Exp3(x.arms, x.learningRate, x.probabilities, x.estimators), r)
  {
    Sample(x.probabilities, r)
  }

  /** The biased loss estimate `(1 - reward) / (p[arm] + gamma)`; its
      denominator is positive because `p[arm] > 0` and `gamma >= 0`. */
  function LossEstimate(x: Exp3Ix, arm: nat, reward: real): (e: real)
    requires Valid(x) && arm < |x.arms|
    ensures e * (x.probabilities[arm] + x.gamma) == 1.0 - reward
  {
    (1.0 - reward) / (x.probabilities[arm] + x.gamma)
  }

  /** Record the reward, add `1 - LossEstimate` to the played arm's
      estimator and 1 to every other, then renormalise. */
  function Update(x: Exp3Ix, arm: nat, reward: real, m: Transcendentals): (x': Exp3Ix)
    requires Valid(x) && arm < |x.arms| && Lawful(m)
    ensures Valid(x') && |x'.arms| == |x.arms|
    ensures x'.gamma == x.gamma && x'.learningRate == x.learningRate
    ensures x'.arms[arm].pullCount == x.arms[arm].pullCount + 1
    ensures x'.arms[arm].cumulativeReward == x.arms[arm].cumulativeReward + reward
    ensures forall k :: 0 <= k < |x.arms| && k != arm ==> x'.arms[k] == x.arms[k]
    ensures x'.estimators[arm] == x.estimators[arm] + 1.0 - LossEstimate(x, arm, reward)
    ensures forall k :: 0 <= k < |x.arms| && k != arm ==> x'.estimators[k] == x.estimators[k] + 1.0
    ensures forall i, j :: 0 <= i < |x.arms| && 0 <= j < |x.arms| ==>
              x'.probabilities[i] * Weight(m, x.learningRate, x'.estimators[j])
              == x'.probabilities[j] * Weight(m, x.learningRate, x'.estimators[i])
  {
    var est := AddEstimates(x.estimators, arm, LossEstimate(x, arm, reward));
    var w := Weights(est, x.learningRate, m);
    x.(arms := UpdateArm(x.arms, arm, reward), probabilities := Normalise(w), estimators := est)
  }

}
