/** The holding loop of a phase: which entries it touches, and how long it runs. */
module Holding {
  import opened Samplers

  /** The countdown of loop_for over L entries, after n turns: it reaches 0, rests for one turn and
      starts again. */
  function Countdown(L: nat, n: nat): (i: nat)
    ensures i <= L
  {
    if n == 0 then L
    else
      var i := Countdown(L, n - 1);
      if i > 0 then i - 1 else L
  }

  /** The entries touched in the first n turns. */
  function HoldLog(L: nat, n: nat): seq<nat> {
    if n == 0 then []
    else
      var i := Countdown(L, n - 1);
      HoldLog(L, n - 1) + if i > 0 then [i - 1] else []
  }

  lemma NextTurn(m: nat, n: nat)
    requires m >= 1
    ensures (n + 1) % m == if n % m == m - 1 then 0 else n % m + 1
    ensures (n + 1) / m == if n % m == m - 1 then n / m + 1 else n / m
  {
    DivMod(n, m);
    if n % m == m - 1 {
      QuotientRemainder(m, n / m + 1, 0);
    } else {
      QuotientRemainder(m, n / m, n % m + 1);
    }
  }

  lemma {:induction false} CountdownIs(L: nat, n: nat)
    ensures Countdown(L, n) == L - n % (L + 1)
  {
    if n == 0 {
      QuotientRemainder(L + 1, 0, 0);
    } else {
      CountdownIs(L, n - 1);
      NextTurn(L + 1, n - 1);
    }
  }

  /** How often entry k is due in n turns: once per round, and once more if the round has passed it. */
  function Share(L: nat, n: nat, k: nat): int
    requires k < L
  {
    n / (L + 1) + if L - 1 - k < n % (L + 1) then 1 else 0
  }

  lemma HoldZero(L: nat, k: nat)
    requires k < L
    ensures multiset(HoldLog(L, 0))[k] == 0 == Share(L, 0, k)
  {
    QuotientRemainder(L + 1, 0, 0);
  }

  lemma ShareStep(L: nat, n: nat, k: nat)
    requires k < L
    ensures Share(L, n + 1, k) == Share(L, n, k) + if Countdown(L, n) == k + 1 then 1 else 0
  {
    hide Countdown;
    CountdownIs(L, n);
    NextTurn(L + 1, n);
    DivMod(n, L + 1);
  }

  lemma HoldStep(L: nat, n: nat, k: nat)
    ensures multiset(HoldLog(L, n + 1))[k] == multiset(HoldLog(L, n))[k] + if Countdown(L, n) == k + 1 then 1 else 0
  {
  }

  /** Fairness: all entries are touched equally often, to within one turn. */
  lemma {:induction false} HoldFair(L: nat, n: nat, k: nat)
    requires k < L
    ensures multiset(HoldLog(L, n))[k] == Share(L, n, k)
  {
    hide *;
    if n == 0 {
      HoldZero(L, k);
    } else {
      HoldFair(L, n - 1, k);
      HoldStep(L, n - 1, k);
      ShareStep(L, n - 1, k);
    }
  }

  /** No entry outside of the phase is touched. */
  lemma {:induction false} HoldWithin(L: nat, n: nat)
    ensures forall k | k in HoldLog(L, n) :: k < L
  {
    if n > 0 {
      HoldWithin(L, n - 1);
    }
  }

  /** The number of turns: the loop ends at the first clock reading that is exec or more after the
      first one. */
  ghost predicate RunsFor(clock: nat -> real, exec: real, n: nat) {
    && exec <= clock(n) - clock(0)
    && forall m | 0 <= m < n :: exec > clock(m) - clock(0)
  }

  ghost function FirstReached(clock: nat -> real, exec: real, k: nat, bound: nat): (n: nat)
    requires k <= bound && exec <= clock(bound) - clock(0)
    ensures k <= n <= bound && exec <= clock(n) - clock(0)
    ensures forall m | k <= m < n :: exec > clock(m) - clock(0)
    decreases bound - k
  {
    if exec <= clock(k) - clock(0) then k else FirstReached(clock, exec, k + 1, bound)
  }

  /** How many turns it takes, on a clock that gets far enough. */
  ghost function HoldTurns(clock: nat -> real, exec: real, bound: nat): (n: nat)
    requires exec <= clock(bound) - clock(0)
    ensures RunsFor(clock, exec, n)
  {
    FirstReached(clock, exec, 0, bound)
  }

  lemma RunsForUnique(clock: nat -> real, exec: real, m: nat, n: nat)
    requires RunsFor(clock, exec, m) && RunsFor(clock, exec, n)
    ensures m == n
  {
  }

  /** The time variables of the loop after n turns: run is the time since the first reading. */
  ghost predicate Timed(clock: nat -> real, exec: real, n: nat, now: real, run: real) {
    && now == clock(n) && run == clock(n) - clock(0)
    && forall m | 0 <= m < n :: exec > clock(m) - clock(0)
  }

  lemma TimedStart(clock: nat -> real, exec: real)
    ensures Timed(clock, exec, 0, clock(0), 0.0)
  {
  }

  lemma TimedStep(clock: nat -> real, exec: real, n: nat, now: real, run: real)
    requires Timed(clock, exec, n, now, run)
    ensures exec > run ==> Timed(clock, exec, n + 1, clock(n + 1), run + (clock(n + 1) - now))
    ensures !(exec > run) ==> RunsFor(clock, exec, n)
  {
  }

  lemma TimedBound(clock: nat -> real, exec: real, n: nat, now: real, run: real, bound: nat)
    requires Timed(clock, exec, n, now, run) && exec <= clock(bound) - clock(0)
    ensures n <= bound
    ensures exec > run ==> n < bound
  {
  }
}
