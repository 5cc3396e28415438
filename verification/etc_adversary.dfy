/**
  The deterministic adversary against explore-then-commit: reward the arm
  played first once, pay nothing for the rest of the exploration budget,
  then pay 1 for every arm except the one played first.
 */
module EtcAdversaryEnv {

  datatype EtcAdversary = EtcAdversary(nArms: nat, pullEachArm: nat, roundCount: nat, firstArm: nat)

  function New(nArms: nat, pullEachArm: nat): (a: EtcAdversary)
    ensures a.nArms == nArms && a.pullEachArm == pullEachArm
    ensures a.roundCount == 0 && a.firstArm == 0
  {
    EtcAdversary(nArms, pullEachArm, 0, 0)
  }

  /** Reward for `arm`, together with the advanced adversary. */
  function Reveal(a: EtcAdversary, arm: nat): (res: (EtcAdversary, real))
    ensures res.0.nArms == a.nArms && res.0.pullEachArm == a.pullEachArm
    ensures res.0.roundCount == a.roundCount + 1
    ensures res.1 == 0.0 || res.1 == 1.0
    ensures a.roundCount == 0 ==> res.0.firstArm == arm && res.1 == 1.0
    ensures a.roundCount > 0 ==> res.0.firstArm == a.firstArm
    ensures 0 < a.roundCount < a.nArms * a.pullEachArm ==> res.1 == 0.0
    ensures 0 < a.roundCount && a.nArms * a.pullEachArm <= a.roundCount ==> (res.1 == 1.0 <==> arm != a.firstArm)
  {
    var a' := a.(roundCount := a.roundCount + 1);
    if a'.roundCount == 1 then
      (a'.(firstArm := arm), 1.0)
    else if a'.roundCount <= a.nArms * a.pullEachArm then
      (a', 0.0)
    else
      (a', if arm == a.firstArm then 0.0 else 1.0)
  }

  /** `(firstArm + 1) % nArms`, which differs from the first arm whenever
      there are at least two arms. */
  function BestArm(a: EtcAdversary): (arm: nat)
    requires a.nArms > 0
    ensures arm < a.nArms
    ensures a.nArms >= 2 ==> arm != a.firstArm
  {
    (a.firstArm + 1) % a.nArms
  }
}
