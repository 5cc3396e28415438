/**
  Explore-then-commit: round-robin exploration for the first `m * nArms`
  rounds, then the arg-max of the accumulated values.  Despite the field
  name, the values accumulated in `losses` are treated as rewards (the
  arg-max picks the largest).
 */
module EtcPlayer {
  import opened Numeric

  datatype Etc = Etc(m: nat, nArms: nat, losses: seq<real>)

  /** One accumulated value per arm. */
  predicate Valid(e: Etc)
  {
    |e.losses| == e.nArms
  }

  /** Construction does not check `nArms > 0`. */
  function New(m: nat, nArms: nat): (e: Etc)
    ensures Valid(e) && e.m == m && e.nArms == nArms
    ensures forall k :: 0 <= k < nArms ==> e.losses[k] == 0.0
  {
    Etc(m, nArms, Constant(nArms, 0.0))
  }

  /** Round-robin on `t % nArms` while `t < m * nArms`, afterwards the
      last maximiser of the accumulated values, recomputed on every call.
      With no arms the arg-max of an empty slice panics, hence `nArms > 0`. */
  function Choose(e: Etc, t: nat): (arm: nat)
    requires Valid(e) && e.nArms > 0
    ensures arm < e.nArms
    ensures t < e.m * e.nArms ==> arm == t % e.nArms
    ensures t >= e.m * e.nArms ==>
              && (forall k :: 0 <= k < e.nArms ==> e.losses[k] <= e.losses[arm])
              && (forall k :: arm < k < e.nArms ==> e.losses[k] < e.losses[arm])
  {
    if t < e.m * e.nArms then t % e.nArms else Argmax(e.losses)
  }

  /** `losses[arm] += loss`; nothing else changes. */
  function Update(e: Etc, arm: nat, loss: real): (e': Etc)
    requires Valid(e) && arm < e.nArms
    ensures Valid(e') && e'.m == e.m && e'.nArms == e.nArms
    ensures e'.losses[arm] == e.losses[arm] + loss
    ensures forall k :: 0 <= k < e.nArms && k != arm ==> e'.losses[k] == e.losses[k]
  {
    e.(losses := e.losses[arm := e.losses[arm] + loss])
  }

  /** Once committed, the choice no longer depends on the round. */
  lemma CommitIgnoresRound(e: Etc, t1: nat, t2: nat)
    requires Valid(e) && e.nArms > 0
    requires t1 >= e.m * e.nArms && t2 >= e.m * e.nArms
    ensures Choose(e, t1) == Choose(e, t2)
  {
  }

  /** Number of rounds `t` in `1 .. hi - 1` in which `Choose` picks `k`. */
  function Plays(e: Etc, k: nat, hi: nat): nat
    requires Valid(e) && e.nArms > 0
  {
    if hi <= 1 then 0
    else Plays(e, k, hi - 1) + (if Choose(e, hi - 1) == k then 1 else 0)
  }

  /** Euclidean remainder is unique: `a * n + r` leaves `r` for `0 <= r < n`. */
  lemma ModUnique(x: int, a: int, n: int, r: int)
    requires n > 0 && 0 <= r < n && x == a * n + r
    ensures x % n == r
  {
    var q := x / n;
    var d := a - q;
    assert d * n == x % n - r by {
      assert a * n - q * n == (a - q) * n;
    }
    if d >= 1 {
      MulNonnegative(d - 1, n);
    } else if d <= -1 {
      MulNonnegative(-d - 1, n);
    }
  }

  /** One block of `nArms` exploration rounds starting at `base = j * nArms`
      visits arm `k` once (round 0 is not played, so the first block misses arm 0). */
  lemma {:induction false} PlaysBlock(e: Etc, k: nat, j: nat, base: nat, i: nat)
    requires Valid(e) && e.nArms > 0 && k < e.nArms
    requires base == j * e.nArms && i <= e.nArms && base + i <= e.m * e.nArms
    ensures Plays(e, k, base + i) == Plays(e, k, base) + (if k < i && base + k >= 1 then 1 else 0)
  {
    if i > 0 {
      PlaysBlock(e, k, j, base, i - 1);
      ModUnique(base + (i - 1), j, e.nArms, i - 1);
    }
  }

  /** During the exploration rounds `1 .. m * nArms - 1` arm 0 is played
      `m - 1` times and every other arm `m` times: round 0 is never played,
      so "each arm pulled m times" holds only for the arms other than 0. */
  lemma {:induction false} ExplorationPlays(e: Etc, k: nat)
    requires Valid(e) && e.nArms > 0 && e.m >= 1 && k < e.nArms
    ensures Plays(e, k, e.m * e.nArms) == if k == 0 then e.m - 1 else e.m
  {
    ExplorationPlaysUpTo(e, k, e.m, e.m * e.nArms);
  }

  lemma {:induction false} ExplorationPlaysUpTo(e: Etc, k: nat, j: nat, hi: nat)
    requires Valid(e) && e.nArms > 0 && k < e.nArms
    requires 1 <= j <= e.m && hi == j * e.nArms
    ensures Plays(e, k, hi) == if k == 0 then j - 1 else j
  {
    var n := e.nArms;
    var total := e.m * n;
    MulNonnegative(e.m - j, n);
    assert total == hi + (e.m - j) * n;
    var lo := (j - 1) * n;
    assert hi == lo + n;
    MulNonnegative(j - 1, n);
    PlaysBlock(e, k, j - 1, lo, n);
    if j > 1 {
      ExplorationPlaysUpTo(e, k, j - 1, lo);
    }
  }
}
