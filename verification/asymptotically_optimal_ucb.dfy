/**
  Asymptotically optimal UCB: play the first unpulled arm; once every arm
  has been pulled, play the last maximiser of `ucb(1 + t (ln t)^2)`.
 */
module AsymptoticUcbPlayer {
  import opened Numeric
  import opened Common

  datatype AoUcb = AoUcb(arms: seq<ArmInfo>)

  /** Asserts `nArms > 0`. */
  function New(nArms: nat): (a: AoUcb)
    requires nArms > 0
    ensures |a.arms| == nArms
    ensures forall k :: 0 <= k < nArms ==> NotPulled(a.arms[k]) && a.arms[k].cumulativeReward == 0.0
  {
    AoUcb(NewArms(nArms))
  }

  predicate SomeUnpulled(a: AoUcb)
  {
    exists k :: 0 <= k < |a.arms| && NotPulled(a.arms[k])
  }

  /** `delta = 1 + t * ln(t)^2`: at least one for every positive round, so
      it always meets the `delta > 0` assertion of `ucb`. */
  function Delta(t: nat, m: Transcendentals): (d: real)
    requires t > 0
    ensures d >= 1.0
  {
    var l := m.ln(t as real);
    assert l * l >= 0.0;
    assert t as real * (l * l) >= 0.0;
    1.0 + t as real * (l * l)
  }

  /** The lowest-indexed unpulled arm whatever `t` is (even 0); once all
      arms are pulled the round must be positive and the choice is the last
      maximiser of the UCB values at `Delta(t)`. */
  function Choose(a: AoUcb, t: nat, m: Transcendentals): (arm: nat)
    requires |a.arms| > 0
    requires !SomeUnpulled(a) ==> t > 0
    ensures arm < |a.arms|
    ensures SomeUnpulled(a) ==> NotPulled(a.arms[arm]) && forall k :: 0 <= k < arm ==> !NotPulled(a.arms[k])
    ensures !SomeUnpulled(a) ==>
              && (forall k :: 0 <= k < |a.arms| ==> UcbValue(a.arms[k], Delta(t, m), m) <= UcbValue(a.arms[arm], Delta(t, m), m))
              && (forall k :: arm < k < |a.arms| ==> UcbValue(a.arms[k], Delta(t, m), m) < UcbValue(a.arms[arm], Delta(t, m), m))
  {
    match FirstUnpulled(a.arms)
    case Some(arm) => arm
    case None => Argmax(UcbValues(a.arms, Delta(t, m), m))
  }

  /** `arms[arm].update(reward)`. */
  function Update(a: AoUcb, arm: nat, reward: real): (a': AoUcb)
    requires arm < |a.arms|
    ensures |a'.arms| == |a.arms|
    ensures a'.arms[arm].pullCount == a.arms[arm].pullCount + 1
    ensures a'.arms[arm].cumulativeReward == a.arms[arm].cumulativeReward + reward
    ensures forall k :: 0 <= k < |a.arms| && k != arm ==> a'.arms[k] == a.arms[k]
  {
    a.(arms := UpdateArm(a.arms, arm, reward))
  }


  /** The player after updating arms `0, 1, .., |rewards| - 1` in turn. */
  function Sweep(a: AoUcb, rewards: seq<real>): (a': AoUcb)
    requires |rewards| <= |a.arms|
    ensures |a'.arms| == |a.arms|
    ensures forall k :: 0 <= k < |rewards| ==> a'.arms[k].pullCount == a.arms[k].pullCount + 1
    ensures forall k :: |rewards| <= k < |a.arms| ==> a'.arms[k] == a.arms[k]
  {
    if |rewards| == 0 then a
    else Update(Sweep(a, rewards[..|rewards| - 1]), |rewards| - 1, rewards[|rewards| - 1])
  }

  /** Starting fresh, the first `nArms` choices pull the arms in index order
      whatever the round: once arms `0 .. j - 1` have been pulled, arm `j` is
      chosen next. */
  lemma FreshSweep(n: nat, t: nat, m: Transcendentals, rewards: seq<real>)
    requires |rewards| < n
    ensures SomeUnpulled(Sweep(New(n), rewards))
    ensures Choose(Sweep(New(n), rewards), t, m) == |rewards|
  {
    assert NotPulled(Sweep(New(n), rewards).arms[|rewards|]);
  }
}
