# Multi-armed bandits: strategies, an adversary and the play loop

This project models the core of a small Rust library for multi-armed
bandits. Each round a *player* chooses one of `n` arms, an *environment*
reveals a reward for that arm, and the player updates its statistics.
The model covers:

- `ArmInfo`, the per-arm running reward and pull count (`Common`);
- five players:
  - explore-then-commit (`EtcPlayer`);
  - UCB with a fixed confidence (`UcbPlayer`);
  - asymptotically optimal UCB (`AsymptoticUcbPlayer`);
  - Exp3 (`Exp3Player`);
  - Exp3-IX (`Exp3IxPlayer`);
- the deterministic adversary built to defeat explore-then-commit (`EtcAdversaryEnv`);
- the generic protocol `run<P, E>` (`Protocol`).

`Players` is the tagged union of the five strategies. `Numeric` holds the
shared vocabulary: sums of real sequences, the arg-max of Rust's
`Iterator::max_by`, and a record of the transcendental functions.

Every operation is a pure function. A `&mut self` method returns the
updated value. The protocol loop is generic, like the source: `Run` sees
the player and environment only through a `Game`, which holds three
functions:

- `choose(state, t)`;
- `update(state, arm, reward)`;
- `respond(env, arm)`, which returns the advanced environment and the reward.

The loop's guarantees are proved once, generically:

- `RunKeeps` keeps any invariant that the three functions keep (`Sound`).
- `RunLedger` and `RunCounts` track the per-arm ledger and pull count a player keeps (`Credits`, `Counts`).
- `RunTotal` tracks its total (`Totals`).

Two instantiations use these results:

- `PlayerGame`: every strategy against any environment (`PlayerRun`).
- `EtcGame`: explore-then-commit against its adversary (`EtcLosesToAdversary`).

Numbers are modelled as follows:

- `f64` values are `real`, and `f64::MAX` is its exact value.
- `ln`, `sqrt` and `exp` are parameters (`Numeric.Transcendentals`).
  The proofs assume three facts (`Numeric.Lawful`). `sqrt` of a
  non-negative number is non-negative, and `ln` of a number at least one is
  non-negative; the `f64` functions satisfy both. `exp` is positive: this is
  an abstraction of the real exponential, since `f64` `exp` underflows to
  `0.0` below about `-745.1` and overflows to `+inf` above about `709.78`.
- The uniform draw an Exp3-style player takes in `choose` is a parameter. In the loop, the draw for round `t` is `draws(t)`.

## Model

| member | source | states |
|---|---|---|
| Numeric.Argmax | src/player/etc.rs:70-75 | the index returned holds a maximal value, and every later index holds a strictly smaller one (`max_by` keeps the last maximum) |
| Numeric.UniformSumsToOne | src/player/exp3.rs:78 | the uniform initial probabilities `1/n` sum to exactly one |
| Numeric.SumUpdate | src/player/ucb.rs:71-75 | adding `d` to one entry adds `d` to the sum |
| Numeric.SumScale | src/player/exp3.rs:134-135 | dividing every weight by `d` divides their sum by `d` |
| Common.NewArm | src/common.rs:11-13 | a fresh arm has no reward and no pulls |
| Common.Update | src/common.rs:59-62 | one update adds exactly the reward and exactly one pull, and leaves the arm pulled |
| Common.EmpiricalMean | src/common.rs:17-24 | the mean is absent exactly when the arm was never pulled; otherwise mean × count is the cumulative reward |
| Common.UcbValue | src/common.rs:37-49 | an unpulled arm's bound is `f64::MAX`; a pulled arm's is its mean plus the confidence width, and for `delta >= 1` never below the mean |
| Common.ReplayCounts | src/common.rs:59-62 | after any reward history the pull count is its length and the reward its sum; the arm is unpulled exactly when the history is empty |
| Common.NotPulled | src/common.rs:53-55 | `not_pulled`: a fresh arm is unpulled, and an arm is unpulled exactly when its history of updates is empty (stated by `Common.ReplayCounts`); no arm is unpulled after an update (`Common.Update`) |
| Common.NewArms | src/player/ucb.rs:49 | `n` fresh arms |
| Common.UpdateArm | src/player/ucb.rs:66-68 | only the chosen arm changes, by one pull and the reward |
| Common.TotalRewardUpdate | src/player/ucb.rs:71-75 | updating one arm moves `cumulative_reward()` by exactly the reward |
| Common.UpdatedArms | src/player/exp3.rs:119 | any arm vector that agrees with a single-arm update has that update's ledgers, pull counts and total |
| Common.NewArmsTotal | src/player/ucb.rs:71-75 | fresh arms sum to zero reward |
| Common.TotalReward | src/player/ucb.rs:71-75 | the sum of every arm's reward, also copied at `src/player/asymptotically_optimal_ucb.rs:68-72` and behind `Arms::cumulative_reward`; zero for fresh arms (`Common.NewArmsTotal`), moved by exactly the reward on each update (`Common.TotalRewardUpdate`), and over a run ends at its start plus every revealed reward (`Protocol.RunTotal`) |
| Common.FirstUnpulled | src/player/asymptotically_optimal_ucb.rs:47-49 | absent exactly when every arm was pulled; otherwise the lowest-indexed unpulled arm |
| Common.UcbValues | src/player/ucb.rs:58-59 | one UCB value per arm, in arm order |
| EtcPlayer.New | src/player/etc.rs:44-51 | one zero ledger entry per arm, with the given `m` and arm count |
| EtcPlayer.Choose | src/player/etc.rs:56-62 | below `m·n` the arm is `t mod n`; afterwards it is the last maximiser of the ledger |
| EtcPlayer.Update | src/player/etc.rs:65-67 | only the played arm's ledger moves, by exactly the loss |
| EtcPlayer.CommitIgnoresRound | src/player/etc.rs:56-62 | after exploration the choice does not depend on the round |
| EtcPlayer.ExplorationPlays | src/player/etc.rs:56-62 | over rounds `1 .. m·n - 1` every arm is explored `m` times except arm 0, explored `m - 1` times |
| EtcPlayer.ExplorationPlaysUpTo | src/player/etc.rs:56-62 | the same count after any whole number `j` of round-robin sweeps |
| EtcPlayer.PlaysBlock | src/player/etc.rs:56-58 | within one round-robin sweep, arm `k` is visited once, at the sweep's `k`-th round (round 0 excluded) |
| UcbPlayer.New | src/player/ucb.rs:43-51 | `n` fresh arms and the given confidence |
| UcbPlayer.Delta | src/player/ucb.rs:57 | `delta = 1/confidence` is positive, and at least one exactly when the confidence is at most one |
| UcbPlayer.Choose | src/player/ucb.rs:56-63 | only where `max_by`'s `partial_cmp(..).unwrap()` cannot meet a NaN bound (`Comparable`): the choice has the maximal UCB value at `delta = 1/confidence`, and every later arm's value is strictly smaller |
| UcbPlayer.Update | src/player/ucb.rs:66-68 | only the chosen arm changes, by one pull and the reward; the confidence stays |
| UcbPlayer.ChoosesLastUnpulled | src/player/ucb.rs:56-63 | while some arm is unpulled, the choice is the highest-indexed unpulled arm (the `f64::MAX` sentinel wins) |
| UcbPlayer.FreshChoosesLast | src/player/ucb.rs:56-63 | a fresh UCB player chooses the last arm |
| UcbPlayer.ChoiceBoundsEveryMean | src/player/ucb.rs:56-63 | with a confidence of at most one, the chosen arm's bound is at least the empirical mean of every pulled arm |
| AsymptoticUcbPlayer.New | src/player/asymptotically_optimal_ucb.rs:34-41 | `n` fresh arms |
| AsymptoticUcbPlayer.Delta | src/player/asymptotically_optimal_ucb.rs:54 | `1 + t·ln(t)²` is at least one, so it always meets `ucb`'s `delta > 0` assertion |
| AsymptoticUcbPlayer.Choose | src/player/asymptotically_optimal_ucb.rs:46-60 | the lowest unpulled arm if there is one; otherwise (with `t > 0`) the last maximiser of the UCB values at `Delta(t)` |
| AsymptoticUcbPlayer.Update | src/player/asymptotically_optimal_ucb.rs:63-65 | only the chosen arm changes, by one pull and the reward |
| AsymptoticUcbPlayer.Sweep | src/player/asymptotically_optimal_ucb.rs:63-65 | updating arms `0 .. j-1` in order pulls each of them once and leaves the rest alone |
| AsymptoticUcbPlayer.FreshSweep | src/player/asymptotically_optimal_ucb.rs:46-49 | from fresh arms, after arms `0 .. j-1` have been played, the next choice is arm `j`, whatever the round |
| Exp3Player.LearningRate | src/player/exp3.rs:82 | the learning rate is a square root, hence non-negative |
| Exp3Player.New | src/player/exp3.rs:64-91 | fresh arms, zero estimators, uniform probabilities forming a distribution |
| Exp3Player.Sample | src/player/exp3.rs:105-114 | the least arm whose cumulative mass exceeds the draw, or arm 0 when none does |
| Exp3Player.Choose | src/player/exp3.rs:101-115 | the sampled arm is one of the arms |
| Exp3Player.SampleUniform | src/player/exp3.rs:101-115 | under the uniform distribution a draw `r` in `[0, 1)` picks the `k` with `k/n <= r < (k+1)/n` |
| Exp3Player.AddEstimates | src/player/exp3.rs:125-128 | the played arm's estimator gains `1 - x`, every other arm's gains 1 |
| Exp3Player.Weight | src/player/exp3.rs:130-132 | every weight `exp(lr·estimate)` is positive |
| Exp3Player.Normalise | src/player/exp3.rs:134-135 | the result is a distribution proportional to the weights |
| Exp3Player.ScaleBySumIsDistribution | src/player/exp3.rs:134-135 | positive weights divided by their sum are positive and sum to one |
| Exp3Player.ScaleIsProportional | src/player/exp3.rs:134-135 | dividing by a common denominator keeps every ratio between weights |
| Exp3Player.Update | src/player/exp3.rs:118-136 | the invariant (a distribution of the right length) is kept, the played arm gets one pull, the reward, and estimator `+ 1 - (1 - reward)/p[arm]`; the others get estimator `+ 1`; the new probabilities are proportional to `exp(lr·estimator)` |
| Exp3IxPlayer.LearningRate | src/player/exp3ix.rs:101-107 | both schedules are non-negative when the confidence is absent or in `(0, 1)`, the range documented at `src/player/exp3ix.rs:40` |
| Exp3IxPlayer.New | src/player/exp3ix.rs:81-121 | fresh arms, zero estimators, uniform distribution, `gamma` half the learning rate; the state invariant (`gamma >= 0`) holds when the confidence is absent or in `(0, 1)` |
| Exp3IxPlayer.Choose | src/player/exp3ix.rs:131-145 | the same pick as Exp3 on the same probabilities and draw |
| Exp3IxPlayer.LossEstimate | src/player/exp3ix.rs:151 | the estimate times `p[arm] + gamma` is `1 - reward` |
| Exp3IxPlayer.Update | src/player/exp3ix.rs:148-166 | as Exp3's update with the biased estimate; `gamma` and the learning rate never change |
| EtcAdversaryEnv.New | src/environment/etc_adversary.rs:49-58 | no rounds yet, first arm 0, the given parameters |
| EtcAdversaryEnv.Reveal | src/environment/etc_adversary.rs:63-76 | the round counter advances by one; round 1 records the arm and pays 1; the rest of exploration pays 0; afterwards the first arm pays 0 and every other arm 1 |
| EtcAdversaryEnv.BestArm | src/environment/etc_adversary.rs:79-81 | an arm, and with two or more arms never the first arm |
| Players.Choose | src/protocol.rs:10 | every strategy's choice is one of its arms |
| Players.Update | src/protocol.rs:12 | every strategy stays valid with the same arms; the reward goes to the played arm's ledger only; the counting strategies count one pull and add exactly the reward to `cumulative_reward()` (the per-arm sum of `src/player/ucb.rs:71-75`, copied at `src/player/asymptotically_optimal_ucb.rs:68-72`; Exp3 and Exp3-IX call `Arms::cumulative_reward` at `src/player/exp3.rs:139-141` and `src/player/exp3ix.rs:169-171`, modelled as the same sum) |
| Players.UpdateCredits | src/protocol.rs:12 | the same, arm by arm |
| Players.CumulativeReward | src/player/exp3.rs:139-141 | each counting player's `cumulative_reward()`, the total of its arm records; `Players.Update` states that every update adds exactly the reward to it, and `Protocol.PlayerRun` that a run ends at its start plus every revealed reward |
| Players.UpdateEtc | src/player/etc.rs:65-67 | explore-then-commit's update on the union: only the ledger moves |
| Players.UpdateUcbFamily | src/player/ucb.rs:66-68 | the two UCB players' update on the union |
| Players.UpdateExp3Family | src/player/exp3.rs:118-136 | the two Exp3 players' update on the union |
| Protocol.Run | src/protocol.rs:9-13 | one round is recorded per loop iteration |
| Protocol.RunStep | src/protocol.rs:9-13 | iteration `t` extends the record by the arm chosen on the state the earlier rounds left, the environment's answer for it, and the update with that answer |
| Protocol.RunRounds | src/protocol.rs:9-13 | round `i` of the record is iteration `i + 1`: its arm is the choice after `i` rounds, its reward the environment's answer after `i` rounds |
| Protocol.RunExtends | src/protocol.rs:9-13 | a longer run never rewrites the rounds a shorter one played |
| Protocol.RunKeeps | src/protocol.rs:9-17 | a player invariant kept by each call is kept by the loop; every arm played and the arm chosen for round `horizon + 1` are in range |
| Protocol.NextArm | src/protocol.rs:17 | `choose(horizon + 1)` on the player the loop leaves; in range for every sound player (`Protocol.RunKeeps`), and arm 1 for explore-then-commit against its adversary (`Protocol.EtcLosesToAdversary`) |
| Protocol.RunLedger | src/protocol.rs:9-13 | each arm's ledger ends at its start plus the rewards revealed in the rounds that played it |
| Protocol.RunCounts | src/protocol.rs:9-13 | each arm's pull count ends at its start plus the number of rounds that played it |
| Protocol.RunTotal | src/protocol.rs:9-13 | the total ends at its start plus the sum of all revealed rewards |
| Protocol.RoundRewardsStep | src/protocol.rs:11 | one more round adds its reward to the sum of revealed rewards |
| Protocol.PlayersSound | src/protocol.rs:10-12 | every strategy chooses in range and keeps its validity and arm count under update |
| Protocol.PlayersCredit | src/protocol.rs:12 | every strategy's update credits the reward to the played arm only |
| Protocol.PlayersCount | src/protocol.rs:12 | the counting strategies' update counts one pull of the played arm and adds the reward to the total |
| Protocol.PlayerRun | src/protocol.rs:5-17 | a run of any strategy keeps it valid, plays only its arms (also in round `horizon + 1`), and leaves each arm's ledger, pull count and the total exactly accounting for the rounds |
| Protocol.AdversaryRound | src/environment/etc_adversary.rs:63-76 | from the settled state, any round after the first is paid 0 and leaves the explore-then-commit ledger unchanged |
| Protocol.AdversaryFirst | src/environment/etc_adversary.rs:63-68 | round 1 plays arm `1 mod n = 1`, is paid 1, and the adversary records arm 1 |
| Protocol.AdversaryState | src/environment/etc_adversary.rs:63-76 | after any `k >= 1` rounds the adversary has counted `k` and remembers arm 1, and the player's ledger credits arm 1 once and nothing else |
| Protocol.AdversaryCountsRounds | src/environment/etc_adversary.rs:63-76 | against any player the adversary counts one round per iteration, keeps its parameters, and pays only 0 or 1; from a fresh adversary it remembers round 1's arm and paid it 1 |
| Protocol.EtcLosesToAdversary | src/environment/etc_adversary.rs:63-81 | explore-then-commit run for at least its exploration budget commits to arm 1, the arm the adversary starves, and chooses it again after the loop; `best_arm()` is a different arm that would be paid 1 |

## Left out

- `src/environment/subgaussian.rs`: its `reveal` samples a normal distribution from a seeded generator and clamps the sample to `[0, 1]`. Sampling from a foreign distribution is outside the model.
- The builders, `name()`, `arms()` and the printing in `src/protocol.rs:18-28`: construction and reporting only.
- Randomness: the `StdRng` seeds, the `RefCell` and the `Uniform` sampler are not modelled. Each `choose` of an Exp3-style player takes its draw as a parameter.
- Floating point: rounding and infinities are out of scope, since the numbers are reals. The Exp3 probabilities sum to exactly one rather than approximately. NaN is not a value of the model. A UCB bound with `delta < 1` is NaN in the source; that case is handled by `UcbPlayer.Comparable` and `Players.Valid` (below). Overflow of `exp` in the Exp3 updates is a second source of NaN (the `Exp3Player.Update` and `Exp3IxPlayer.Update` lines below).
- `ln`, `sqrt` and `exp`: these are parameters. Nothing is assumed about them beyond the three facts in `Numeric.Lawful`. `powi(2)` is modelled as an exact square.
- Integer widths: `usize` and `u64` are unbounded. The overflow of `m * n_arms`, of `pull_count += 1` and of `horizon + 1` is not modelled.
- `crate::common::Arms`, the arm vector used by Exp3 and Exp3-IX, is not defined in `src/common.rs`. It is modelled as `seq<ArmInfo>` with the operations its callers use (`new`, `update`, `len`, `cumulative_reward`), as in the UCB players.
- `src/protocol.rs:15-16` calls `cumulative_loss()` and `best_arm()`. The `Player` trait in `src/player/player_trait.rs` declares `cumulative_reward()`, and `Environment` declares neither. The model provides `Players.CumulativeReward` and `EtcAdversaryEnv.BestArm` and leaves the call site out.
- `Protocol.PlayerGame` and `Protocol.EtcGame`: outside a valid state, `choose` answers arm 0 and `update` leaves the player alone. The source would panic there instead. `PlayersSound` and `RunKeeps` show the loop never reaches those states.
- Exp3Player.New: requires `horizon > 0`. With `horizon = 0` the source divides by zero and gets an infinite or NaN learning rate.
- Exp3Player.LearningRate: requires `horizon > 0`, for the reason on the line above.
- Exp3IxPlayer.New: requires `horizon > 0` and a non-zero confidence, for the same reason. Its state invariant is promised only for a confidence in `(0, 1)` or none. Outside that range the rate's radicand can be negative and `f64` answers NaN.
- Exp3IxPlayer.LearningRate: requires `horizon > 0` and a non-zero confidence, as `New` does. The rate is proved non-negative only for a confidence in `(0, 1)` or none, for the reason on the line above.
- UcbPlayer.Choose: requires `confidence > 0`. With 0 the source's `delta` is `+inf`. A negative confidence makes `ucb`'s assertion panic.
- UcbPlayer.Choose: requires `Comparable`. With a confidence above one and two or more arms, the source panics in `partial_cmp(..).unwrap()` as soon as one arm has been pulled, because that arm's bound is NaN.
- Players.Valid: a UCB player with a confidence above one is valid only with a single arm. With two or more arms the source's run panics from round 2, or in the final `choose(horizon + 1)`. The only runs this excludes without a panic are those of horizon 0.
- Exp3Player.Update: the invariant (positive probabilities summing to one) is proved for the real exponential. In `f64` it holds only while every `lr * estimator` stays below about `709.78`. Beyond that, `exp` returns `+inf`, the normalised vector holds NaN, and every later `choose` falls through to arm 0. A long enough run against an adversary that keeps paying the same arm reaches that bound.
- Exp3IxPlayer.Update: the same bound on `lr * estimator` applies, with the same consequence.
- UcbPlayer.ChoosesLastUnpulled: assumes that no pulled arm's bound reaches `f64::MAX`. This holds for rewards in `[0, 1]`, the only rewards either environment pays.
- Common.UcbValue: the confidence width is kept abstract (`sqrt(2 ln(delta) / count)` over the parameter functions). It is known to be non-negative only for `delta >= 1` and lawful parameters. For `0 < delta < 1` the source computes NaN, and the model says nothing about the bound.

## Where the code and its documentation differ

The model follows the code. These are the points where the code behaves differently from what its own comments and names suggest, or where a reader might expect otherwise.

- **Tie-breaking.** Ties in every arg-max go to the **last** maximiser, because Rust's `max_by` returns the last maximum (`Numeric.Argmax`).
- **Exp3 sampling fallback.** When no prefix of the probabilities exceeds the draw, Exp3 and Exp3-IX return arm **0**, the loop's initial value (`src/player/exp3.rs:106`, `Exp3Player.Sample`).
- **Explore-then-commit.**
  - The builder documents `m` as "the number of times each arm pulled" (`src/player/etc.rs:20`). However, `choose(t)` explores with `t mod n` only while `t < m·n`, so round `m·n` already commits.
  - Over the `m·n - 1` exploration rounds, arm 0 is therefore explored `m - 1` times and every other arm `m` times (`EtcPlayer.ExplorationPlays`).
  - The commit is not remembered. The arg-max of the ledger is recomputed on every call (`src/player/etc.rs:60`).
  - The values it maximises are the values it is fed, although the field is named `losses`.
- **The adversary.** Its module comment (`src/environment/etc_adversary.rs:2-3`) says explore-then-commit is led to pull arm 0. Round 1 actually plays arm `1 mod n`, so the starved arm is arm 1 (`Protocol.EtcLosesToAdversary`).
- **UCB with fixed confidence.** It has no separate "unpulled first" step. Unpulled arms win through the `f64::MAX` sentinel, and the tie among them goes to the highest-indexed one (`UcbPlayer.ChoosesLastUnpulled`).
