/**
  Per-arm statistics (`ArmInfo`) and the fixed-length vector of them that
  every UCB- and Exp3-style player owns.
 */
module Common {
  import opened Numeric

  datatype Option<T> = None | Some(value: T)

  /** `f64::MAX`, exactly: (2 - 2^-52) * 2^1023 = 2^1024 - 2^971. */
  const F64Max: real := 179769313486231570814527423731704356798070567525844996598917476803157260780028538760589558632766878171540458953514382464234321326889464182768467546703537516986049910576551282076245490090389328944075868508455133942304583236903222948165808559332123348274797826204144723168738177180919299881250404026184124858368.0

  /** Running sum of the rewards observed on one arm and how often it was pulled. */
  datatype ArmInfo = ArmInfo(cumulativeReward: real, pullCount: nat)

  function NewArm(): (a: ArmInfo)
    ensures a.cumulativeReward == 0.0 && a.pullCount == 0
  {
    ArmInfo(0.0, 0)
  }

  predicate NotPulled(a: ArmInfo)
  {
    a.pullCount == 0
  }

  /** Records one observed reward. */
  function Update(a: ArmInfo, reward: real): (b: ArmInfo)
    ensures b.cumulativeReward - a.cumulativeReward == reward
    ensures b.pullCount == a.pullCount + 1
    ensures !NotPulled(b)
  {
    ArmInfo(a.cumulativeReward + reward, a.pullCount + 1)
  }

  /** The mean reward, absent exactly when the arm was never pulled. */
  function EmpiricalMean(a: ArmInfo): (r: Option<real>)
    ensures r.None? <==> a.pullCount == 0
    ensures r.Some? ==> r.value * a.pullCount as real == a.cumulativeReward
  {
    if a.pullCount == 0 then None
    else Some(a.cumulativeReward / a.pullCount as real)
  }

  /** Confidence width `sqrt(2 ln(delta) / count)`. */
  function Width(m: Transcendentals, delta: real, count: nat): real
    requires count > 0
  {
    m.sqrt(2.0 * m.ln(delta) / count as real)
  }

  /** Upper confidence bound: the `f64::MAX` sentinel for an arm never
      pulled, otherwise the mean widened by `Width`.  The width is a real
      square root only for `delta >= 1`; below that `ln(delta) < 0` and the
      source's `sqrt` answers NaN, so nothing is said about the bound there. */
  function UcbValue(a: ArmInfo, delta: real, m: Transcendentals): (u: real)
    requires delta > 0.0
    ensures NotPulled(a) ==> u == F64Max
    ensures !NotPulled(a) ==> u == EmpiricalMean(a).value + Width(m, delta, a.pullCount)
    ensures Lawful(m) && !NotPulled(a) && delta >= 1.0 ==> u >= EmpiricalMean(a).value
  {
    match EmpiricalMean(a)
    case Some(mean) => mean + Width(m, delta, a.pullCount)
    case None => F64Max
  }

  /** Folding `Update` over a reward history from a fresh arm. */
  function Replay(a: ArmInfo, rewards: seq<real>): ArmInfo
  {
    if |rewards| == 0 then a
    else Update(Replay(a, rewards[..|rewards| - 1]), rewards[|rewards| - 1])
  }

  /** Pull count and reward sum move in lock step: after any history the
      count is its length and the reward is its sum. */
  lemma {:induction false} ReplayCounts(rewards: seq<real>)
    ensures Replay(NewArm(), rewards).pullCount == |rewards|
    ensures Replay(NewArm(), rewards).cumulativeReward == Sum(rewards)
    ensures NotPulled(Replay(NewArm(), rewards)) <==> |rewards| == 0
  {
    if |rewards| > 0 {
      ReplayCounts(rewards[..|rewards| - 1]);
    }
  }

  // ----- The vector of arms -----

  function NewArms(n: nat): (arms: seq<ArmInfo>)
    ensures |arms| == n
    ensures forall k :: 0 <= k < n ==> arms[k].pullCount == 0 && arms[k].cumulativeReward == 0.0
  {
    seq(n, _ => NewArm())
  }

  /** `arms[arm].update(reward)`; every other arm is left alone. */
  function UpdateArm(arms: seq<ArmInfo>, arm: nat, reward: real): (r: seq<ArmInfo>)
    requires arm < |arms|
    ensures |r| == |arms|
    ensures r[arm].cumulativeReward == arms[arm].cumulativeReward + reward
    ensures r[arm].pullCount == arms[arm].pullCount + 1
    ensures forall k :: 0 <= k < |arms| && k != arm ==> r[k] == arms[k]
  {
    arms[arm := Update(arms[arm], reward)]
  }

  function Rewards(arms: seq<ArmInfo>): (r: seq<real>)
    ensures |r| == |arms| && forall k :: 0 <= k < |arms| ==> r[k] == arms[k].cumulativeReward
  {
    seq(|arms|, k requires 0 <= k < |arms| => arms[k].cumulativeReward)
  }

  function Pulls(arms: seq<ArmInfo>): (r: seq<nat>)
    ensures |r| == |arms| && forall k :: 0 <= k < |arms| ==> r[k] == arms[k].pullCount
  {
    seq(|arms|, k requires 0 <= k < |arms| => arms[k].pullCount)
  }

  /** Sum of every arm's cumulative reward. */
  function TotalReward(arms: seq<ArmInfo>): real
  {
    Sum(Rewards(arms))
  }

  /** Updating one arm moves the total by exactly the reward. */
  lemma TotalRewardUpdate(arms: seq<ArmInfo>, arm: nat, reward: real)
    requires arm < |arms|
    ensures TotalReward(UpdateArm(arms, arm, reward)) == TotalReward(arms) + reward
    ensures Rewards(UpdateArm(arms, arm, reward)) == Rewards(arms)[arm := Rewards(arms)[arm] + reward]
  {
    var before := Rewards(arms);
    assert Rewards(UpdateArm(arms, arm, reward)) == before[arm := before[arm] + reward];
    SumUpdate(before, arm, reward);
  }

  /** Any vector that agrees with `UpdateArm` arm by arm has its ledgers:
      the reward and one pull credited to `arm`, nothing else moved. */
  lemma UpdatedArms(arms: seq<ArmInfo>, arms': seq<ArmInfo>, arm: nat, reward: real)
    requires arm < |arms| == |arms'|
    requires arms'[arm].cumulativeReward == arms[arm].cumulativeReward + reward
    requires arms'[arm].pullCount == arms[arm].pullCount + 1
    requires forall k :: 0 <= k < |arms| && k != arm ==> arms'[k] == arms[k]
    ensures Rewards(arms') == Rewards(arms)[arm := Rewards(arms)[arm] + reward]
    ensures Pulls(arms') == Pulls(arms)[arm := Pulls(arms)[arm] + 1]
    ensures TotalReward(arms') == TotalReward(arms) + reward
  {
    assert arms' == UpdateArm(arms, arm, reward);
    TotalRewardUpdate(arms, arm, reward);
    assert Pulls(arms') == Pulls(arms)[arm := Pulls(arms)[arm] + 1];
  }

  /** Fresh arms hold no reward. */
  lemma {:induction false} NewArmsTotal(n: nat)
    ensures TotalReward(NewArms(n)) == 0.0
  {
    var r := Rewards(NewArms(n));
    if n > 0 {
      NewArmsTotal(n - 1);
      assert r[..n - 1] == Rewards(NewArms(n - 1));
    }
  }

  /** `arms.iter().position(|arm| arm.not_pulled())`: the lowest index of an
      arm never pulled, or `None` when every arm has been pulled. */
  function FirstUnpulled(arms: seq<ArmInfo>): (r: Option<nat>)
    ensures r.None? <==> forall k :: 0 <= k < |arms| ==> !NotPulled(arms[k])
    ensures r.Some? ==> r.value < |arms| && NotPulled(arms[r.value])
    ensures r.Some? ==> forall k :: 0 <= k < r.value ==> !NotPulled(arms[k])
  {
    FirstUnpulledFrom(arms, 0)
  }

  function FirstUnpulledFrom(arms: seq<ArmInfo>, i: nat): (r: Option<nat>)
    requires i <= |arms|
    requires forall k :: 0 <= k < i ==> !NotPulled(arms[k])
    ensures r.None? <==> forall k :: 0 <= k < |arms| ==> !NotPulled(arms[k])
    ensures r.Some? ==> r.value < |arms| && NotPulled(arms[r.value])
    ensures r.Some? ==> forall k :: 0 <= k < r.value ==> !NotPulled(arms[k])
    decreases |arms| - i
  {
    if i == |arms| then None
    else if NotPulled(arms[i]) then Some(i)
    else FirstUnpulledFrom(arms, i + 1)
  }

  /** The lazy `arms.iter().map(|arm| arm.ucb(delta))`. */
  function UcbValues(arms: seq<ArmInfo>, delta: real, m: Transcendentals): (v: seq<real>)
    requires delta > 0.0
    ensures |v| == |arms|
    ensures forall k :: 0 <= k < |arms| ==> v[k] == UcbValue(arms[k], delta, m)
  {
    seq(|arms|, k requires 0 <= k < |arms| => UcbValue(arms[k], delta, m))
  }
}
