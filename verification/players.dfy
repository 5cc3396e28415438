/**
  The closed set of strategies behind the `Player` capability, dispatched
  as a tagged union.
 */
module Players {
  import opened Numeric
  import opened Common
  import EtcPlayer
  import UcbPlayer
  import AsymptoticUcbPlayer
  import Exp3Player
  import Exp3IxPlayer

  datatype Player =
    | EtcStrategy(etc: EtcPlayer.Etc)
    | UcbStrategy(ucb: UcbPlayer.Ucb)
    | AoUcbStrategy(aoUcb: AsymptoticUcbPlayer.AoUcb)
    | Exp3Strategy(exp3: Exp3Player.Exp3)
    | Exp3IxStrategy(exp3Ix: Exp3IxPlayer.Exp3Ix)

  /** The arm statistics of every strategy except explore-then-commit,
      which keeps only one accumulated value per arm. */
  function Arms(p: Player): seq<ArmInfo>
    requires !p.EtcStrategy?
  {
    match p
    case UcbStrategy(u) => u.arms
    case AoUcbStrategy(a) => a.arms
    case Exp3Strategy(x) => x.arms
    case Exp3IxStrategy(x) => x.arms
  }

  function NArms(p: Player): nat
  {
    if p.EtcStrategy? then p.etc.nArms else |Arms(p)|
  }

  /** What each strategy needs in order to choose: at least one arm, and the
      per-strategy invariants.  UCB needs a positive confidence, so that
      `delta = 1 / confidence` meets the assertion of `ucb`; with two or more
      arms it also needs a confidence of at most one, since otherwise its
      `choose` panics as soon as one arm has been pulled
      (`UcbPlayer.Comparable`). */
  predicate Valid(p: Player)
  {
    match p
    case EtcStrategy(e) => EtcPlayer.Valid(e) && e.nArms > 0
    case UcbStrategy(u) => |u.arms| > 0 && 0.0 < u.confidence && (u.confidence <= 1.0 || |u.arms| == 1)
    case AoUcbStrategy(a) => |a.arms| > 0
    case Exp3Strategy(x) => Exp3Player.Valid(x)
    case Exp3IxStrategy(x) => Exp3IxPlayer.Valid(x)
  }

  /** The value each arm has accumulated: explore-then-commit's `losses`,
      every other strategy's per-arm cumulative reward. */
  function Ledger(p: Player): (l: seq<real>)
    ensures p.EtcStrategy? ==> l == p.etc.losses
    ensures !p.EtcStrategy? ==> l == Rewards(Arms(p))
  {
    if p.EtcStrategy? then p.etc.losses else Rewards(Arms(p))
  }

  /** `cumulative_reward()`: the sum over arms (explore-then-commit has none). */
  function CumulativeReward(p: Player): real
    requires !p.EtcStrategy?
  {
    TotalReward(Arms(p))
  }

  /** The pull counts of the strategies that keep them; explore-then-commit
      keeps none. */
  function PullCounts(p: Player): (c: seq<nat>)
    ensures !p.EtcStrategy? ==> c == Pulls(Arms(p)) && |c| == NArms(p)
  {
    if p.EtcStrategy? then [] else Pulls(Arms(p))
  }

  /** `cumulative_reward()` where it exists.  Explore-then-commit has none,
      and its `0.0` is a placeholder: it lets the loop's total be stated as a
      total function on every player, and the total lemmas apply it only to
      the strategies that keep arm records. */
  function Earned(p: Player): (r: real)
    ensures !p.EtcStrategy? ==> r == CumulativeReward(p)
  {
    if p.EtcStrategy? then 0.0 else CumulativeReward(p)
  }

  /** `choose(t)`; `draw` is the uniform sample an Exp3-style player takes
      from its generator on this call, ignored by the others.  Only the
      asymptotically optimal UCB asserts `t > 0`, and only once every arm
      has been pulled. */
  function Choose(p: Player, t: nat, draw: real, m: Transcendentals): (arm: nat)
    requires Valid(p)
    requires p.AoUcbStrategy? && t == 0 ==> AsymptoticUcbPlayer.SomeUnpulled(p.aoUcb)
    ensures arm < NArms(p)
  {
    match p
    case EtcStrategy(e) => EtcPlayer.Choose(e, t)
    case UcbStrategy(u) => UcbPlayer.Choose(u, m)
    case AoUcbStrategy(a) => AsymptoticUcbPlayer.Choose(a, t, m)
    case Exp3Strategy(x) => Exp3Player.Choose(x, draw)
    case Exp3IxStrategy(x) => Exp3IxPlayer.Choose(x, draw)
  }

  /** `update(arm, reward)`: the invariant is kept, the reward is credited to
      `arm` and to no other arm, and the arm's pull count grows by one. */
  function Update(p: Player, arm: nat, reward: real, m: Transcendentals): (p': Player)
    requires Valid(p) && arm < NArms(p) && Lawful(m)
    ensures Valid(p') && NArms(p') == NArms(p) && p'.EtcStrategy? == p.EtcStrategy?
    ensures p.EtcStrategy? ==> p'.etc.m == p.etc.m
    ensures Ledger(p') == Ledger(p)[arm := Ledger(p)[arm] + reward]
    ensures !p.EtcStrategy? ==> Pulls(Arms(p')) == Pulls(Arms(p))[arm := Pulls(Arms(p))[arm] + 1]
    ensures !p.EtcStrategy? ==> CumulativeReward(p') == CumulativeReward(p) + reward
  {
    if p.EtcStrategy? then UpdateEtc(p, arm, reward)
    else if p.UcbStrategy? || p.AoUcbStrategy? then UpdateUcbFamily(p, arm, reward)
    else UpdateExp3Family(p, arm, reward, m)
  }

  /** `Update`, arm by arm: the reward and one pull go to `arm`, every
      other arm's ledger and count stay as they were. */
  lemma UpdateCredits(p: Player, arm: nat, reward: real, m: Transcendentals)
    requires Valid(p) && arm < NArms(p) && Lawful(m)
    ensures forall k :: 0 <= k < NArms(p) ==>
              Ledger(Update(p, arm, reward, m))[k] == Ledger(p)[k] + if k == arm then reward else 0.0
    ensures !p.EtcStrategy? ==> forall k :: 0 <= k < NArms(p) ==>
              PullCounts(Update(p, arm, reward, m))[k] == PullCounts(p)[k] + if k == arm then 1 else 0
  {
    var p' := Update(p, arm, reward, m);
    var l := Ledger(p);
    assert Ledger(p') == l[arm := l[arm] + reward];
    if !p.EtcStrategy? {
      var c := Pulls(Arms(p));
      assert PullCounts(p') == c[arm := c[arm] + 1];
    }
  }

  /** Explore-then-commit: only the loss ledger moves. */
  function UpdateEtc(p: Player, arm: nat, loss: real): (p': Player)
    requires Valid(p) && p.EtcStrategy? && arm < NArms(p)
    ensures Valid(p') && p'.EtcStrategy? && NArms(p') == NArms(p) && p'.etc.m == p.etc.m
    ensures Ledger(p') == Ledger(p)[arm := Ledger(p)[arm] + loss]
  {
    var e' := EtcPlayer.Update(p.etc, arm, loss);
    assert e'.losses == p.etc.losses[arm := p.etc.losses[arm] + loss];
    EtcStrategy(e')
  }

  /** The two UCB strategies: only the arm vector moves. */
  function UpdateUcbFamily(p: Player, arm: nat, reward: real): (p': Player)
    requires Valid(p) && (p.UcbStrategy? || p.AoUcbStrategy?) && arm < NArms(p)
    ensures Valid(p') && !p'.EtcStrategy? && p'.UcbStrategy? == p.UcbStrategy? && p'.AoUcbStrategy? == p.AoUcbStrategy?
    ensures |Arms(p')| == |Arms(p)|
    ensures Ledger(p') == Ledger(p)[arm := Ledger(p)[arm] + reward]
    ensures Pulls(Arms(p')) == Pulls(Arms(p))[arm := Pulls(Arms(p))[arm] + 1]
    ensures CumulativeReward(p') == CumulativeReward(p) + reward
  {
    match p
    case UcbStrategy(u) =>
      var u' := UcbPlayer.Update(u, arm, reward);
      UpdatedArms(u.arms, u'.arms, arm, reward);
      UcbStrategy(u')
    case AoUcbStrategy(a) =>
      var a' := AsymptoticUcbPlayer.Update(a, arm, reward);
      UpdatedArms(a.arms, a'.arms, arm, reward);
      AoUcbStrategy(a')
  }

  /** The two Exp3 strategies: the arm vector, estimators and distribution move. */
  function UpdateExp3Family(p: Player, arm: nat, reward: real, m: Transcendentals): (p': Player)
    requires Valid(p) && (p.Exp3Strategy? || p.Exp3IxStrategy?) && arm < NArms(p) && Lawful(m)
    ensures Valid(p') && !p'.EtcStrategy? && p'.Exp3Strategy? == p.Exp3Strategy? && p'.Exp3IxStrategy? == p.Exp3IxStrategy?
    ensures |Arms(p')| == |Arms(p)|
    ensures Ledger(p') == Ledger(p)[arm := Ledger(p)[arm] + reward]
    ensures Pulls(Arms(p')) == Pulls(Arms(p))[arm := Pulls(Arms(p))[arm] + 1]
    ensures CumulativeReward(p') == CumulativeReward(p) + reward
  {
    match p
    case Exp3Strategy(x) =>
      var x' := Exp3Player.Update(x, arm, reward, m);
      UpdatedArms(x.arms, x'.arms, arm, reward);
      Exp3Strategy(x')
    case Exp3IxStrategy(x) =>
      var x' := Exp3IxPlayer.Update(x, arm, reward, m);
      UpdatedArms(x.arms, x'.arms, arm, reward);
      Exp3IxStrategy(x')
  }
}
