/**
  The bandit protocol `run<P, E>`: for `t = 1 ..= horizon` the player
  chooses an arm, the environment reveals a reward for it, and the player
  is updated; afterwards the player is asked for its choice in round
  `horizon + 1`.  Like the source, the loop is generic in the player type
  `P` and the environment type `E`: it sees them only through the three
  calls bundled in a `Game`.  Two instantiations follow: the tagged union
  of the strategies (`PlayerGame`), and explore-then-commit against its
  adversary (`EtcGame`).
 */
module Protocol {
  import opened Numeric
  import opened Common
  import Players
  import EtcPlayer
  import EtcAdversaryEnv

  /** `player.choose(t)`, `player.update(arm, reward)` and
      `environment.reveal(arm)`, as pure state transformers. */
  datatype Game<!P, !E> = Game(choose: (P, nat) -> nat, update: (P, nat, real) -> P, respond: (E, nat) -> (E, real))

  /** What happened in round `t`. */
  datatype Round = Round(t: nat, arm: nat, reward: real)

  /** The state of both parties after a run, and the rounds played. */
  datatype Played<P, E> = Played(player: P, env: E, rounds: seq<Round>)

  /** The loop `for t in 1..=horizon { choose; reveal; update }`. */
  function Run<P, E>(g: Game<P, E>, p: P, env: E, horizon: nat): (res: Played<P, E>)
    ensures |res.rounds| == horizon
  {
    if horizon == 0 then Played(p, env, [])
    else
      var prev := Run(g, p, env, horizon - 1);
      var arm := g.choose(prev.player, horizon);
      var response := g.respond(prev.env, arm);
      Played(g.update(prev.player, arm, response.1), response.0, prev.rounds + [Round(horizon, arm, response.1)])
  }

  /** `player.choose(horizon + 1)` after the loop. */
  function NextArm<P, E>(g: Game<P, E>, p: P, env: E, horizon: nat): nat
  {
    g.choose(Run(g, p, env, horizon).player, horizon + 1)
  }

  /** One more round: the record grows by the round played on the state
      the earlier rounds left, and the player is updated with its arm and
      reward. */
  lemma RunStep<P, E>(g: Game<P, E>, p: P, env: E, horizon: nat)
    requires horizon >= 1
    ensures var prev := Run(g, p, env, horizon - 1);
            var res := Run(g, p, env, horizon);
            var last := res.rounds[horizon - 1];
            && res.rounds[..horizon - 1] == prev.rounds
            && last.t == horizon
            && last.arm == g.choose(prev.player, horizon)
            && (res.env, last.reward) == g.respond(prev.env, last.arm)
            && res.player == g.update(prev.player, last.arm, last.reward)
  {
    var res := Run(g, p, env, horizon);
    assert res.rounds[..horizon - 1] == Run(g, p, env, horizon - 1).rounds;
  }

  /** Round `i` of the record is round `i + 1` of the loop: its arm is the
      player's choice on the state the first `i` rounds left, its reward is
      the environment's answer on its state after those rounds. */
  lemma {:induction false} RunRounds<P, E>(g: Game<P, E>, p: P, env: E, horizon: nat)
    ensures forall i :: 0 <= i < horizon ==>
              && Run(g, p, env, horizon).rounds[i].t == i + 1
              && Run(g, p, env, horizon).rounds[i].arm == g.choose(Run(g, p, env, i).player, i + 1)
              && Run(g, p, env, horizon).rounds[i].reward
                 == g.respond(Run(g, p, env, i).env, Run(g, p, env, horizon).rounds[i].arm).1
  {
    if horizon > 0 {
      RunRounds(g, p, env, horizon - 1);
      var prev := Run(g, p, env, horizon - 1).rounds;
      var rounds := Run(g, p, env, horizon).rounds;
      assert rounds[..horizon - 1] == prev;
      forall i | 0 <= i < horizon - 1
        ensures rounds[i] == prev[i]
      {
        assert rounds[i] == rounds[..horizon - 1][i];
      }
    }
  }

  /** A longer run extends a shorter one: the rounds already played are
      never rewritten. */
  lemma {:induction false} RunExtends<P, E>(g: Game<P, E>, p: P, env: E, h1: nat, h2: nat)
    requires h1 <= h2
    ensures Run(g, p, env, h1).rounds == Run(g, p, env, h2).rounds[..h1]
    decreases h2
  {
    if h1 < h2 {
      RunExtends(g, p, env, h1, h2 - 1);
      var long := Run(g, p, env, h2).rounds;
      assert long[..h2 - 1] == Run(g, p, env, h2 - 1).rounds;
      assert long[..h2 - 1][..h1] == long[..h1];
    } else {
      assert Run(g, p, env, h2).rounds[..h2] == Run(g, p, env, h2).rounds;
    }
  }

  // ----- What a player type must provide -----

  /** `inv` is an invariant of the player with `n` arms: from round 1 on,
      `choose` answers one of the arms, and `update` on any arm keeps the
      invariant and the number of arms. */
  ghost predicate Sound<P(!new), E>(g: Game<P, E>, inv: P -> bool, n: P -> nat)
  {
    && (forall q: P, t: nat :: inv(q) && t >= 1 ==> g.choose(q, t) < n(q))
    && (forall q: P, a: nat, r: real :: inv(q) && a < n(q) ==> inv(g.update(q, a, r)) && n(g.update(q, a, r)) == n(q))
  }

  /** `ledger` holds one value per arm, and `update` credits the reward to
      the chosen arm and leaves every other arm's value alone. */
  ghost predicate Credits<P(!new), E>(g: Game<P, E>, inv: P -> bool, n: P -> nat, ledger: P -> seq<real>)
  {
    && (forall q: P :: inv(q) ==> |ledger(q)| == n(q))
    && (forall q: P, a: nat, r: real :: inv(q) && a < n(q) ==>
          && |ledger(g.update(q, a, r))| == n(q)
          && forall k :: 0 <= k < n(q) ==> ledger(g.update(q, a, r))[k] == ledger(q)[k] + if k == a then r else 0.0)
  }

  /** `counts` holds one count per arm, and `update` counts one pull of the
      chosen arm only. */
  ghost predicate Counts<P(!new), E>(g: Game<P, E>, inv: P -> bool, n: P -> nat, counts: P -> seq<nat>)
  {
    && (forall q: P :: inv(q) ==> |counts(q)| == n(q))
    && (forall q: P, a: nat, r: real :: inv(q) && a < n(q) ==>
          && |counts(g.update(q, a, r))| == n(q)
          && forall k :: 0 <= k < n(q) ==> counts(g.update(q, a, r))[k] == counts(q)[k] + if k == a then 1 else 0)
  }

  /** `update` adds the reward to `total`. */
  ghost predicate Totals<P(!new), E>(g: Game<P, E>, inv: P -> bool, n: P -> nat, total: P -> real)
  {
    forall q: P, a: nat, r: real :: inv(q) && a < n(q) ==> total(g.update(q, a, r)) == total(q) + r
  }

  // ----- The loop keeps what the player type provides -----

  /** A sound player stays sound through the loop, keeps its arms, and
      every arm played, including the one chosen after the loop, is one of
      them. */
  lemma {:induction false} RunKeeps<P(!new), E>(g: Game<P, E>, inv: P -> bool, n: P -> nat, p: P, env: E, horizon: nat)
    requires Sound(g, inv, n) && inv(p)
    ensures inv(Run(g, p, env, horizon).player) && n(Run(g, p, env, horizon).player) == n(p)
    ensures forall i :: 0 <= i < horizon ==> Run(g, p, env, horizon).rounds[i].arm < n(p)
    ensures NextArm(g, p, env, horizon) < n(p)
  {
    if horizon > 0 {
      RunKeeps(g, inv, n, p, env, horizon - 1);
      var prev := Run(g, p, env, horizon - 1).rounds;
      var rounds := Run(g, p, env, horizon).rounds;
      forall i | 0 <= i < horizon - 1
        ensures rounds[i].arm < n(p)
      {
        assert rounds[i] == prev[i];
      }
    }
  }

  /** Total reward revealed in the rounds that played `k`. */
  function RewardOn(rounds: seq<Round>, k: nat): real
  {
    if |rounds| == 0 then 0.0
    else RewardOn(rounds[..|rounds| - 1], k) + (if rounds[|rounds| - 1].arm == k then rounds[|rounds| - 1].reward else 0.0)
  }

  /** Number of rounds that played `k`. */
  function PlaysOf(rounds: seq<Round>, k: nat): nat
  {
    if |rounds| == 0 then 0
    else PlaysOf(rounds[..|rounds| - 1], k) + (if rounds[|rounds| - 1].arm == k then 1 else 0)
  }

  /** The rewards in the order they were revealed. */
  function RoundRewards(rounds: seq<Round>): (r: seq<real>)
    ensures |r| == |rounds| && forall i :: 0 <= i < |rounds| ==> r[i] == rounds[i].reward
  {
    seq(|rounds|, i requires 0 <= i < |rounds| => rounds[i].reward)
  }

  /** After a run every arm's ledger holds its starting value plus exactly
      the rewards revealed in the rounds that played it. */
  lemma {:induction false} RunLedger<P(!new), E>(g: Game<P, E>, inv: P -> bool, n: P -> nat, ledger: P -> seq<real>,
                                           p: P, env: E, horizon: nat)
    requires Sound(g, inv, n) && Credits(g, inv, n, ledger) && inv(p)
    ensures |ledger(Run(g, p, env, horizon).player)| == n(p)
    ensures forall k :: 0 <= k < n(p) ==>
              ledger(Run(g, p, env, horizon).player)[k] == ledger(p)[k] + RewardOn(Run(g, p, env, horizon).rounds, k)
  {
    RunKeeps(g, inv, n, p, env, horizon);
    if horizon > 0 {
      RunLedger(g, inv, n, ledger, p, env, horizon - 1);
      RunKeeps(g, inv, n, p, env, horizon - 1);
      var prev := Run(g, p, env, horizon - 1);
      var res := Run(g, p, env, horizon);
      var last := res.rounds[horizon - 1];
      RunStep(g, p, env, horizon);
      forall k | 0 <= k < n(p)
        ensures ledger(res.player)[k] == ledger(p)[k] + RewardOn(res.rounds, k)
      {
        assert RewardOn(res.rounds, k) == RewardOn(prev.rounds, k) + if last.arm == k then last.reward else 0.0;
      }
    }
  }

  /** After a run every arm's count grew by the number of rounds that played it. */
  lemma {:induction false} RunCounts<P(!new), E>(g: Game<P, E>, inv: P -> bool, n: P -> nat, counts: P -> seq<nat>,
                                           p: P, env: E, horizon: nat)
    requires Sound(g, inv, n) && Counts(g, inv, n, counts) && inv(p)
    ensures |counts(Run(g, p, env, horizon).player)| == n(p)
    ensures forall k :: 0 <= k < n(p) ==>
              counts(Run(g, p, env, horizon).player)[k] == counts(p)[k] + PlaysOf(Run(g, p, env, horizon).rounds, k)
  {
    RunKeeps(g, inv, n, p, env, horizon);
    if horizon > 0 {
      RunCounts(g, inv, n, counts, p, env, horizon - 1);
      RunKeeps(g, inv, n, p, env, horizon - 1);
      var prev := Run(g, p, env, horizon - 1);
      var res := Run(g, p, env, horizon);
      var last := res.rounds[horizon - 1];
      RunStep(g, p, env, horizon);
      forall k | 0 <= k < n(p)
        ensures counts(res.player)[k] == counts(p)[k] + PlaysOf(res.rounds, k)
      {
        assert PlaysOf(res.rounds, k) == PlaysOf(prev.rounds, k) + if last.arm == k then 1 else 0;
      }
    }
  }

  /** The total grows by exactly the sum of the revealed rewards. */
  lemma {:induction false} RunTotal<P(!new), E>(g: Game<P, E>, inv: P -> bool, n: P -> nat, total: P -> real,
                                          p: P, env: E, horizon: nat)
    requires Sound(g, inv, n) && Totals(g, inv, n, total) && inv(p)
    ensures total(Run(g, p, env, horizon).player) == total(p) + Sum(RoundRewards(Run(g, p, env, horizon).rounds))
  {
    if horizon > 0 {
      RunTotal(g, inv, n, total, p, env, horizon - 1);
      RunKeeps(g, inv, n, p, env, horizon - 1);
      var rounds := Run(g, p, env, horizon).rounds;
      assert rounds[..horizon - 1] == Run(g, p, env, horizon - 1).rounds;
      RoundRewardsStep(rounds);
    }
  }

  /** Appending a round adds its reward to the running sum. */
  lemma RoundRewardsStep(rounds: seq<Round>)
    requires |rounds| > 0
    ensures Sum(RoundRewards(rounds)) == Sum(RoundRewards(rounds[..|rounds| - 1])) + rounds[|rounds| - 1].reward
  {
    assert RoundRewards(rounds)[..|rounds| - 1] == RoundRewards(rounds[..|rounds| - 1]);
  }

  // ----- The strategies as players of the loop -----

  /** The tagged union of the strategies against any environment.  The
      draw an Exp3-style player takes in round `t` is `draws(t)`.  Outside
      a valid player (where the source would panic or never goes) `choose`
      answers arm 0 and `update` leaves the player alone; `PlayersSound`
      shows the loop never goes there. */
  ghost function PlayerGame<E>(respond: (E, nat) -> (E, real), draws: nat -> real, m: Transcendentals): Game<Players.Player, E>
  {
    Game((q: Players.Player, t: nat) => if Players.Valid(q) && t >= 1 then Players.Choose(q, t, draws(t), m) else 0,
         (q: Players.Player, a: nat, r: real) =>
           if Players.Valid(q) && a < Players.NArms(q) && Lawful(m) then Players.Update(q, a, r, m) else q,
         respond)
  }

  /** A valid player that is not explore-then-commit. */
  predicate Counting(q: Players.Player)
  {
    Players.Valid(q) && !q.EtcStrategy?
  }

  /** `update` on a valid player, as the loop calls it, is `Players.Update`. */
  lemma PlayerUpdate<E>(respond: (E, nat) -> (E, real), draws: nat -> real, m: Transcendentals,
                        q: Players.Player, a: nat, r: real)
    requires Lawful(m) && Players.Valid(q) && a < Players.NArms(q)
    ensures PlayerGame(respond, draws, m).update(q, a, r) == Players.Update(q, a, r, m)
  {
  }

  /** Every strategy meets what the loop needs: validity is its invariant,
      and it keeps its arms. */
  lemma PlayersSound<E>(respond: (E, nat) -> (E, real), draws: nat -> real, m: Transcendentals)
    requires Lawful(m)
    ensures Sound(PlayerGame(respond, draws, m), Players.Valid, Players.NArms)
    ensures Sound(PlayerGame(respond, draws, m), Counting, Players.NArms)
  {
    var g := PlayerGame(respond, draws, m);
    forall q: Players.Player, t: nat | Players.Valid(q) && t >= 1
      ensures g.choose(q, t) < Players.NArms(q)
    {
      assert g.choose(q, t) == Players.Choose(q, t, draws(t), m);
    }
    forall q: Players.Player, a: nat, r: real | Players.Valid(q) && a < Players.NArms(q)
      ensures Players.Valid(g.update(q, a, r)) && Players.NArms(g.update(q, a, r)) == Players.NArms(q)
      ensures !q.EtcStrategy? ==> !g.update(q, a, r).EtcStrategy?
    {
      PlayerUpdate(respond, draws, m, q, a, r);
    }
  }

  /** Every strategy's ledger is credited arm by arm. */
  lemma PlayersCredit<E>(respond: (E, nat) -> (E, real), draws: nat -> real, m: Transcendentals)
    requires Lawful(m)
    ensures Credits(PlayerGame(respond, draws, m), Players.Valid, Players.NArms, Players.Ledger)
  {
    var g := PlayerGame(respond, draws, m);
    forall q: Players.Player, a: nat, r: real | Players.Valid(q) && a < Players.NArms(q)
      ensures |Players.Ledger(g.update(q, a, r))| == Players.NArms(q)
      ensures forall k :: 0 <= k < Players.NArms(q) ==>
                Players.Ledger(g.update(q, a, r))[k] == Players.Ledger(q)[k] + if k == a then r else 0.0
    {
      PlayerUpdate(respond, draws, m, q, a, r);
      Players.UpdateCredits(q, a, r, m);
    }
  }

  /** The counting strategies count one pull of the arm played and add the
      reward to `cumulative_reward()`. */
  lemma PlayersCount<E>(respond: (E, nat) -> (E, real), draws: nat -> real, m: Transcendentals)
    requires Lawful(m)
    ensures Counts(PlayerGame(respond, draws, m), Counting, Players.NArms, Players.PullCounts)
    ensures Totals(PlayerGame(respond, draws, m), Counting, Players.NArms, Players.Earned)
  {
    var g := PlayerGame(respond, draws, m);
    forall q: Players.Player, a: nat, r: real | Counting(q) && a < Players.NArms(q)
      ensures |Players.PullCounts(g.update(q, a, r))| == Players.NArms(q)
      ensures forall k :: 0 <= k < Players.NArms(q) ==>
                Players.PullCounts(g.update(q, a, r))[k] == Players.PullCounts(q)[k] + if k == a then 1 else 0
      ensures Players.Earned(g.update(q, a, r)) == Players.Earned(q) + r
    {
      PlayerUpdate(respond, draws, m, q, a, r);
      Players.UpdateCredits(q, a, r, m);
    }
  }

  /** What a run of any strategy guarantees: the player stays valid with
      the same arms, every arm played and the next choice are among them,
      every arm's ledger gained exactly the rewards revealed on it, and for
      the counting strategies the pull counts grew by the plays and
      `cumulative_reward()` by the sum of all rewards. */
  lemma PlayerRun<E>(p: Players.Player, env: E, respond: (E, nat) -> (E, real), draws: nat -> real,
                     m: Transcendentals, horizon: nat)
    requires Players.Valid(p) && Lawful(m)
    ensures var g := PlayerGame(respond, draws, m);
            var res := Run(g, p, env, horizon);
            && Players.Valid(res.player) && Players.NArms(res.player) == Players.NArms(p)
            && (forall i :: 0 <= i < horizon ==> res.rounds[i].arm < Players.NArms(p))
            && NextArm(g, p, env, horizon) < Players.NArms(p)
            && (forall k :: 0 <= k < Players.NArms(p) ==>
                  Players.Ledger(res.player)[k] == Players.Ledger(p)[k] + RewardOn(res.rounds, k))
    ensures var g := PlayerGame(respond, draws, m);
            var res := Run(g, p, env, horizon);
            !p.EtcStrategy? ==>
              && |Players.PullCounts(res.player)| == Players.NArms(p)
              && (forall k :: 0 <= k < Players.NArms(p) ==>
                    Players.PullCounts(res.player)[k] == Players.PullCounts(p)[k] + PlaysOf(res.rounds, k))
              && !res.player.EtcStrategy?
              && Players.CumulativeReward(res.player) == Players.CumulativeReward(p) + Sum(RoundRewards(res.rounds))
  {
    var g := PlayerGame(respond, draws, m);
    PlayersSound(respond, draws, m);
    PlayersCredit(respond, draws, m);
    PlayersCount(respond, draws, m);
    RunKeeps(g, Players.Valid, Players.NArms, p, env, horizon);
    RunLedger(g, Players.Valid, Players.NArms, Players.Ledger, p, env, horizon);
    if !p.EtcStrategy? {
      RunKeeps(g, Counting, Players.NArms, p, env, horizon);
      RunCounts(g, Counting, Players.NArms, Players.PullCounts, p, env, horizon);
      RunTotal(g, Counting, Players.NArms, Players.Earned, p, env, horizon);
    }
  }

  // ----- Explore-then-commit against its adversary -----

  /** `run::<Etc, EtcAdversary>`.  `choose` needs at least one arm and
      `update` an arm in range; outside them the fallbacks are as in
      `PlayerGame`. */
  function EtcGame(): Game<EtcPlayer.Etc, EtcAdversaryEnv.EtcAdversary>
  {
    Game((e: EtcPlayer.Etc, t: nat) => if EtcPlayer.Valid(e) && e.nArms > 0 then EtcPlayer.Choose(e, t) else 0,
         (e: EtcPlayer.Etc, a: nat, l: real) => if EtcPlayer.Valid(e) && a < e.nArms then EtcPlayer.Update(e, a, l) else e,
         EtcAdversaryEnv.Reveal)
  }

  /** The ledger after the first round: arm 1 credited once. */
  function FavouredOne(n: nat): (l: seq<real>)
    requires n >= 2
    ensures |l| == n && l[1] == 1.0 && forall k :: 0 <= k < n && k != 1 ==> l[k] == 0.0
  {
    Constant(n, 0.0)[1 := 1.0]
  }

  /** The arg-max of `FavouredOne` is arm 1. */
  lemma ArgmaxFavouredOne(n: nat)
    requires n >= 2
    ensures Argmax(FavouredOne(n)) == 1
  {
  }

  /** Round `k >= 2` from the settled state: whichever arm the player
      picks, the adversary pays 0, so the ledger does not move. */
  lemma AdversaryRound(pulls: nat, n: nat, k: nat)
    requires pulls >= 1 && n >= 2 && k >= 2
    ensures var e := EtcPlayer.Etc(pulls, n, FavouredOne(n));
            var a := EtcAdversaryEnv.EtcAdversary(n, pulls, k - 1, 1);
            var arm := EtcGame().choose(e, k);
            && arm < n
            && EtcAdversaryEnv.Reveal(a, arm) == (EtcAdversaryEnv.EtcAdversary(n, pulls, k, 1), 0.0)
            && EtcGame().update(e, arm, 0.0) == e
  {
    var e := EtcPlayer.Etc(pulls, n, FavouredOne(n));
    var arm := EtcGame().choose(e, k);
    assert arm == EtcPlayer.Choose(e, k) < n;
    assert pulls * n >= 2 by {
      MulAtLeast(pulls, n);
    }
    if k > pulls * n {
      ArgmaxFavouredOne(n);
    }
    var l := FavouredOne(n);
    assert EtcGame().update(e, arm, 0.0) == EtcPlayer.Update(e, arm, 0.0);
    assert l[arm := l[arm] + 0.0] == l;
  }

  /** Round 1: the player explores arm `1 % n = 1`, the adversary pays 1
      and records arm 1 as the arm played first. */
  lemma AdversaryFirst(pulls: nat, n: nat)
    requires pulls >= 1 && n >= 2
    ensures var res := Run(EtcGame(), EtcPlayer.New(pulls, n), EtcAdversaryEnv.New(n, pulls), 1);
            && res.env == EtcAdversaryEnv.EtcAdversary(n, pulls, 1, 1)
            && res.player == EtcPlayer.Etc(pulls, n, FavouredOne(n))
  {
    var p0 := EtcPlayer.New(pulls, n);
    var res := Run(EtcGame(), p0, EtcAdversaryEnv.New(n, pulls), 1);
    assert pulls * n >= 2 by {
      MulAtLeast(pulls, n);
    }
    assert EtcGame().choose(p0, 1) == EtcPlayer.Choose(p0, 1) == 1;
    assert res.player == EtcPlayer.Update(p0, 1, 1.0);
    assert res.player.losses == FavouredOne(n);
  }

  /** The state of the run after `k >= 1` rounds: round 1 played arm
      `1 % n = 1` and was paid 1, every later round was paid 0, and the
      player's ledger credits arm 1 once and nothing else. */
  lemma {:induction false} AdversaryState(pulls: nat, n: nat, k: nat)
    requires pulls >= 1 && n >= 2 && k >= 1
    ensures var res := Run(EtcGame(), EtcPlayer.New(pulls, n), EtcAdversaryEnv.New(n, pulls), k);
            && res.env == EtcAdversaryEnv.EtcAdversary(n, pulls, k, 1)
            && res.player == EtcPlayer.Etc(pulls, n, FavouredOne(n))
  {
    if k == 1 {
      AdversaryFirst(pulls, n);
    } else {
      AdversaryState(pulls, n, k - 1);
      AdversaryRound(pulls, n, k);
    }
  }

  /** Any player against the adversary: the loop reveals exactly `horizon`
      times, the adversary's parameters never move, every reward is 0 or 1,
      and from a fresh adversary the arm it remembers is the one played in
      round 1, which was paid 1. */
  lemma {:induction false} AdversaryCountsRounds<P>(choose: (P, nat) -> nat, update: (P, nat, real) -> P,
                                                    p: P, env: EtcAdversaryEnv.EtcAdversary, horizon: nat)
    ensures var res := Run(Game(choose, update, EtcAdversaryEnv.Reveal), p, env, horizon);
            && res.env.roundCount == env.roundCount + horizon
            && res.env.nArms == env.nArms && res.env.pullEachArm == env.pullEachArm
            && (forall i :: 0 <= i < horizon ==> res.rounds[i].reward == 0.0 || res.rounds[i].reward == 1.0)
            && (env.roundCount == 0 && horizon > 0 ==> res.env.firstArm == res.rounds[0].arm && res.rounds[0].reward == 1.0)
  {
    var g := Game(choose, update, EtcAdversaryEnv.Reveal);
    if horizon > 0 {
      AdversaryCountsRounds(choose, update, p, env, horizon - 1);
      var prev := Run(g, p, env, horizon - 1);
      var res := Run(g, p, env, horizon);
      assert res.rounds[..horizon - 1] == prev.rounds;
      forall i | 0 <= i < horizon - 1
        ensures res.rounds[i] == prev.rounds[i]
      {
        assert res.rounds[i] == res.rounds[..horizon - 1][i];
      }
    }
  }

  /** Explore-then-commit with `pulls` pulls per arm and at least two arms,
      run for at least its exploration budget against the adversary tuned
      to it, commits to the arm the adversary starves: the arm played
      first is arm 1, every round but the first is paid 0, every committed
      round plays arm 1, and the next choice is again arm 1, never
      `best_arm()`, although `best_arm()` would be paid 1 in the next round
      and arm 1 would be paid 0. */
  lemma EtcLosesToAdversary(pulls: nat, n: nat, horizon: nat)
    requires pulls >= 1 && n >= 2 && horizon >= pulls * n
    ensures var p0 := EtcPlayer.New(pulls, n);
            var e0 := EtcAdversaryEnv.New(n, pulls);
            var res := Run(EtcGame(), p0, e0, horizon);
            var next := NextArm(EtcGame(), p0, e0, horizon);
            && res.env == EtcAdversaryEnv.EtcAdversary(n, pulls, horizon, 1)
            && (forall i :: 0 < i < horizon ==> res.rounds[i].reward == 0.0)
            && (forall i :: pulls * n <= i + 1 <= horizon ==> res.rounds[i].arm == 1)
            && next == 1
            && EtcAdversaryEnv.BestArm(res.env) != next
            && EtcAdversaryEnv.Reveal(res.env, next).1 == 0.0
            && EtcAdversaryEnv.Reveal(res.env, EtcAdversaryEnv.BestArm(res.env)).1 == 1.0
  {
    var p0 := EtcPlayer.New(pulls, n);
    var e0 := EtcAdversaryEnv.New(n, pulls);
    var res := Run(EtcGame(), p0, e0, horizon);
    assert pulls * n >= 2 by {
      MulAtLeast(pulls, n);
    }
    AdversaryState(pulls, n, horizon);
    ArgmaxFavouredOne(n);
    RunRounds(EtcGame(), p0, e0, horizon);
    forall i | 0 < i < horizon
      ensures res.rounds[i].reward == 0.0
      ensures pulls * n <= i + 1 ==> res.rounds[i].arm == 1
    {
      AdversaryState(pulls, n, i);
    }
  }
}
