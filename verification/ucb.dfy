/**
  UCB with a fixed confidence: every round picks the last maximiser of
  `ucb(1 / confidence)`.  There is no separate "unpulled first" branch: an
  unpulled arm wins through its `f64::MAX` sentinel.
 */
module UcbPlayer {
  import opened Numeric
  import opened Common

  datatype Ucb = Ucb(arms: seq<ArmInfo>, confidence: real)

  /** Asserts `nArms > 0`; `confidence` is not checked here. */
  function New(nArms: nat, confidence: real): (u: Ucb)
    requires nArms > 0
    ensures |u.arms| == nArms && u.confidence == confidence
    ensures forall k :: 0 <= k < nArms ==> NotPulled(u.arms[k]) && u.arms[k].cumulativeReward == 0.0
  {
    Ucb(NewArms(nArms), confidence)
  }

  /** The `delta` handed to `ArmInfo::ucb`: positive, and at least one
      exactly when the confidence is at most one. */
  function Delta(u: Ucb): (d: real)
    requires u.confidence > 0.0
    ensures d > 0.0
    ensures d >= 1.0 <==> u.confidence <= 1.0
  {
    Reciprocal(u.confidence);
    1.0 / u.confidence
  }

  /** `max_by(|a, b| a.partial_cmp(&b).unwrap())` compares every bound when
      there are two or more arms, and panics on a NaN one.  A pulled arm's
      bound is NaN when `delta < 1`, i.e. when `confidence > 1`; unpulled
      arms carry the sentinel.  So the comparison goes through exactly when
      the confidence is at most one, or there is a single arm, or no arm
      has been pulled yet. */
  predicate Comparable(u: Ucb)
  {
    || u.confidence <= 1.0
    || |u.arms| == 1
    || forall k :: 0 <= k < |u.arms| ==> NotPulled(u.arms[k])
  }

  /** The last maximiser of the UCB values; the round is ignored.
      `ucb` asserts `delta > 0`, which needs `confidence > 0`, and the
      comparison needs `Comparable`. */
  function Choose(u: Ucb, m: Transcendentals): (arm: nat)
    requires |u.arms| > 0 && u.confidence > 0.0 && Comparable(u)
    ensures arm < |u.arms|
    ensures forall k :: 0 <= k < |u.arms| ==> UcbValue(u.arms[k], Delta(u), m) <= UcbValue(u.arms[arm], Delta(u), m)
    ensures forall k :: arm < k < |u.arms| ==> UcbValue(u.arms[k], Delta(u), m) < UcbValue(u.arms[arm], Delta(u), m)
  {
    Argmax(UcbValues(u.arms, Delta(u), m))
  }

  /** `arms[arm].update(reward)`. */
  function Update(u: Ucb, arm: nat, reward: real): (u': Ucb)
    requires arm < |u.arms|
    ensures u'.confidence == u.confidence
    ensures |u'.arms| == |u.arms|
    ensures u'.arms[arm].pullCount == u.arms[arm].pullCount + 1
    ensures u'.arms[arm].cumulativeReward == u.arms[arm].cumulativeReward + reward
    ensures forall k :: 0 <= k < |u.arms| && k != arm ==> u'.arms[k] == u.arms[k]
  {
    u.(arms := UpdateArm(u.arms, arm, reward))
  }


  /** While some arm is unpulled, the choice is the highest-indexed unpulled
      arm, provided every pulled arm's bound stays below the sentinel. */
  lemma ChoosesLastUnpulled(u: Ucb, m: Transcendentals, j: nat)
    requires |u.arms| > 0 && u.confidence > 0.0 && Comparable(u)
    requires j < |u.arms| && NotPulled(u.arms[j])
    requires forall k :: 0 <= k < |u.arms| && !NotPulled(u.arms[k]) ==> UcbValue(u.arms[k], Delta(u), m) < F64Max
    ensures NotPulled(u.arms[Choose(u, m)])
    ensures j <= Choose(u, m)
    ensures forall k :: Choose(u, m) < k < |u.arms| ==> !NotPulled(u.arms[k])
  {
    var arm := Choose(u, m);
    assert UcbValue(u.arms[j], Delta(u), m) <= UcbValue(u.arms[arm], Delta(u), m);
  }

  /** With every arm fresh, all bounds tie at the sentinel and the last arm wins. */
  lemma FreshChoosesLast(u: Ucb, m: Transcendentals)
    requires |u.arms| > 0 && u.confidence > 0.0
    requires forall k :: 0 <= k < |u.arms| ==> NotPulled(u.arms[k])
    ensures Choose(u, m) == |u.arms| - 1
  {
  }

  /** With a confidence of at most one every pulled arm's bound is at least
      its mean, so the chosen arm's bound is at least every pulled arm's
      empirical mean: the player is optimistic about its choice. */
  lemma ChoiceBoundsEveryMean(u: Ucb, m: Transcendentals)
    requires |u.arms| > 0 && 0.0 < u.confidence <= 1.0 && Lawful(m)
    ensures forall k :: 0 <= k < |u.arms| && !NotPulled(u.arms[k]) ==>
              EmpiricalMean(u.arms[k]).value <= UcbValue(u.arms[Choose(u, m)], Delta(u), m)
  {
    var arm := Choose(u, m);
    forall k | 0 <= k < |u.arms| && !NotPulled(u.arms[k])
      ensures EmpiricalMean(u.arms[k]).value <= UcbValue(u.arms[arm], Delta(u), m)
    {
      assert EmpiricalMean(u.arms[k]).value <= UcbValue(u.arms[k], Delta(u), m);
    }
  }
}
