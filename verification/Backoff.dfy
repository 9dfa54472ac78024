/** The retry schedule: doubling from a base, capped, with up to a fifth of jitter. */
module Backoff {
  import opened Ordering

  const TWO63: int := 0x8000_0000_0000_0000

  /** Two's-complement wrap-around of the sum of two 64-bit durations. */
  function Wrap(x: int): int {
    if x >= TWO63 then x - 2 * TWO63 else if x < -TWO63 then x + 2 * TWO63 else x
  }

  /** `base` times two to the power `n`. */
  function Scaled(base: int, n: nat): int {
    if n == 0 then base else 2 * Scaled(base, n - 1)
  }

  /** The wait the documentation promises after `attempts` attempts, before jitter. */
  function Wait(base: int, cap: int, attempts: nat): int
    requires attempts >= 1
  {
    Min(Scaled(base, attempts - 1), cap)
  }

  /** What the 64-bit doubling loop leaves in `wait` after at most `rounds` rounds. */
  function Doubled(wait: int, cap: int, rounds: nat): int
    decreases rounds
  {
    if rounds == 0 || wait >= cap then wait else Doubled(Wrap(2 * wait), cap, rounds - 1)
  }

  function Schedule(base: int, cap: int, attempts: nat, jitter: int): int
    requires attempts >= 1
  {
    Wrap(Min(Doubled(base, cap, attempts - 1), cap) + jitter)
  }

  /** The first doubling of `base` that reaches the cap. */
  function Peak(base: int, cap: int): (p: int)
    requires base > 0
    ensures p >= base && p >= cap && (p == base || p < 2 * cap)
    decreases cap - base
  {
    if base >= cap then base else Peak(2 * base, cap)
  }

  /** The cap leaves room for the doubling that passes it and for the jitter on top of it. */
  predicate Fits(base: int, cap: int)
    requires base > 0
  {
    Peak(base, cap) < TWO63 && cap + cap / 5 < TWO63
  }

  lemma {:induction false} ScaledShift(base: int, n: nat)
    ensures Scaled(2 * base, n) == Scaled(base, n + 1)
  {
    if n > 0 {
      ScaledShift(base, n - 1);
    }
  }

  lemma {:induction false} ScaledGrows(base: int, a: nat, b: nat)
    requires base > 0 && a <= b
    ensures base <= Scaled(base, a) <= Scaled(base, b)
    decreases b
  {
    if a < b {
      ScaledGrows(base, a, b - 1);
    } else if a > 0 {
      ScaledGrows(base, a - 1, a - 1);
    }
  }

  lemma {:induction false} DoubledIsExact(wait: int, cap: int, rounds: nat)
    requires 0 < wait && Peak(wait, cap) < TWO63
    ensures Min(Doubled(wait, cap, rounds), cap) == Min(Scaled(wait, rounds), cap)
    decreases rounds
  {
    if rounds > 0 && wait < cap {
      DoubledIsExact(2 * wait, cap, rounds - 1);
      ScaledShift(wait, rounds - 1);
    } else {
      ScaledGrows(wait, 0, rounds);
    }
  }

  /** Where the peak wraps, some attempt count produces a negative wait. */
  lemma {:induction false} PeakWraps(wait: int, cap: int) returns (rounds: nat)
    requires 0 < wait < cap < TWO63 && Peak(wait, cap) >= TWO63
    ensures -TWO63 <= Doubled(wait, cap, rounds) < 0
    decreases cap - wait
  {
    if 2 * wait >= cap {
      rounds := 1;
      assert Doubled(Wrap(2 * wait), cap, 0) == Wrap(2 * wait);
    } else {
      var r := PeakWraps(2 * wait, cap);
      rounds := r + 1;
    }
  }

  lemma {:induction false} ReachesCap(base: int, cap: int) returns (attempts: nat)
    requires base > 0
    ensures attempts >= 1 && Wait(base, cap, attempts) == cap
    decreases cap - base
  {
    if base >= cap {
      attempts := 1;
    } else {
      var a := ReachesCap(2 * base, cap);
      attempts := a + 1;
      ScaledShift(base, a - 1);
    }
  }

  /** Every retry waits the promised time plus its jitter. */
  ghost predicate Sound(base: int, cap: int) {
    forall attempts: nat, jitter: int ::
      attempts >= 1 && 0 <= jitter <= Wait(base, cap, attempts) / 5 ==>
      Schedule(base, cap, attempts, jitter) == Wait(base, cap, attempts) + jitter
  }

  lemma ScheduleExact(base: int, cap: int, attempts: nat, jitter: int)
    requires 0 < base && 0 < cap && Fits(base, cap)
    requires attempts >= 1 && 0 <= jitter <= Wait(base, cap, attempts) / 5
    ensures 0 < Wait(base, cap, attempts) <= cap
    ensures Schedule(base, cap, attempts, jitter) == Wait(base, cap, attempts) + jitter
  {
    DoubledIsExact(base, cap, attempts - 1);
    ScaledGrows(base, 0, attempts - 1);
  }

  /** The schedule is as documented exactly when the doubling past the cap and the jitter fit in 64 bits. */
  lemma BackoffExact(base: int, cap: int)
    requires 0 < base < TWO63 && 0 < cap < TWO63
    ensures Sound(base, cap) <==> Fits(base, cap)
  {
    if Fits(base, cap) {
      forall attempts: nat, jitter: int | attempts >= 1 && 0 <= jitter <= Wait(base, cap, attempts) / 5
        ensures Schedule(base, cap, attempts, jitter) == Wait(base, cap, attempts) + jitter
      {
        ScheduleExact(base, cap, attempts, jitter);
      }
    } else if Peak(base, cap) >= TWO63 {
      var rounds := PeakWraps(base, cap);
      ScaledGrows(base, 0, rounds);
      assert Schedule(base, cap, rounds + 1, 0) != Wait(base, cap, rounds + 1) + 0;
    } else {
      var attempts := ReachesCap(base, cap);
      DoubledIsExact(base, cap, attempts - 1);
      assert Schedule(base, cap, attempts, cap / 5) != cap + cap / 5;
    }
  }

  /** A cap of at most 2^62 always fits. */
  lemma SmallCapFits(base: int, cap: int)
    requires 0 < base < TWO63 && 0 < cap <= TWO63 / 2
    ensures Fits(base, cap) && Sound(base, cap)
  {
    BackoffExact(base, cap);
  }

  // ---- When only so many attempts are made ----

  /** The first doubling of `wait` that reaches the cap, or the last one in that many rounds. */
  function PeakIn(wait: int, cap: int, rounds: nat): int
    decreases rounds
  {
    if rounds == 0 || wait >= cap then wait else PeakIn(2 * wait, cap, rounds - 1)
  }

  /** The schedule is asked for attempts 1 to `n` only, and these doublings and jitters have room. */
  predicate FitsUpTo(base: int, cap: int, n: nat) {
    n > 0 ==> PeakIn(base, cap, n - 1) < TWO63 && Wait(base, cap, n) + Wait(base, cap, n) / 5 < TWO63
  }

  ghost predicate SoundUpTo(base: int, cap: int, n: nat) {
    forall attempts: nat, jitter: int ::
      1 <= attempts <= n && 0 <= jitter <= Wait(base, cap, attempts) / 5 ==>
      Schedule(base, cap, attempts, jitter) == Wait(base, cap, attempts) + jitter
  }

  lemma {:induction false} PeakInGrows(wait: int, cap: int, rounds: nat)
    requires wait > 0
    ensures wait <= PeakIn(wait, cap, rounds)
    decreases rounds
  {
    if rounds > 0 && wait < cap {
      PeakInGrows(2 * wait, cap, rounds - 1);
    }
  }

  lemma {:induction false} DoubledWithin(wait: int, cap: int, rounds: nat, r: nat)
    requires 0 < wait && PeakIn(wait, cap, rounds) < TWO63 && r <= rounds
    ensures Min(Doubled(wait, cap, r), cap) == Min(Scaled(wait, r), cap)
    decreases rounds
  {
    if r > 0 && wait < cap {
      PeakInGrows(2 * wait, cap, rounds - 1);
      DoubledWithin(2 * wait, cap, rounds - 1, r - 1);
      ScaledShift(wait, r - 1);
    } else {
      ScaledGrows(wait, 0, r);
    }
  }

  lemma {:induction false} WrapsWithin(wait: int, cap: int, rounds: nat) returns (r: nat)
    requires 0 < wait < TWO63 && 0 < cap < TWO63 && PeakIn(wait, cap, rounds) >= TWO63
    ensures r <= rounds && -TWO63 <= Doubled(wait, cap, r) < 0
    decreases rounds
  {
    if 2 * wait >= TWO63 {
      r := 1;
      assert Doubled(Wrap(2 * wait), cap, 0) == Wrap(2 * wait);
    } else {
      var q := WrapsWithin(2 * wait, cap, rounds - 1);
      r := q + 1;
    }
  }

  lemma ScheduleWithin(base: int, cap: int, n: nat, attempts: nat, jitter: int)
    requires 0 < base && 0 < cap && FitsUpTo(base, cap, n) && 1 <= attempts <= n
    requires 0 <= jitter <= Wait(base, cap, attempts) / 5
    ensures 0 < Wait(base, cap, attempts) <= cap
    ensures Schedule(base, cap, attempts, jitter) == Wait(base, cap, attempts) + jitter
  {
    DoubledWithin(base, cap, n - 1, attempts - 1);
    ScaledGrows(base, 0, attempts - 1);
    WaitMonotone(base, cap, attempts, n);
  }

  /** For attempts 1 to `n` the schedule is as documented exactly when those doublings and jitters fit in 64 bits. */
  lemma BackoffExactUpTo(base: int, cap: int, n: nat)
    requires 0 < base < TWO63 && 0 < cap < TWO63
    ensures SoundUpTo(base, cap, n) <==> FitsUpTo(base, cap, n)
  {
    if FitsUpTo(base, cap, n) {
      forall attempts: nat, jitter: int | 1 <= attempts <= n && 0 <= jitter <= Wait(base, cap, attempts) / 5
        ensures Schedule(base, cap, attempts, jitter) == Wait(base, cap, attempts) + jitter
      {
        ScheduleWithin(base, cap, n, attempts, jitter);
      }
    } else if PeakIn(base, cap, n - 1) >= TWO63 {
      var r := WrapsWithin(base, cap, n - 1);
      ScaledGrows(base, 0, r);
      assert Schedule(base, cap, r + 1, 0) != Wait(base, cap, r + 1) + 0;
    } else {
      DoubledWithin(base, cap, n - 1, n - 1);
      ScaledGrows(base, 0, n - 1);
      assert Schedule(base, cap, n, Wait(base, cap, n) / 5) != Wait(base, cap, n) + Wait(base, cap, n) / 5;
    }
  }

  lemma {:induction false} PeakBoundsPeakIn(wait: int, cap: int, rounds: nat)
    requires 0 < wait
    ensures PeakIn(wait, cap, rounds) <= Peak(wait, cap)
    decreases rounds
  {
    if rounds > 0 && wait < cap {
      PeakBoundsPeakIn(2 * wait, cap, rounds - 1);
    }
  }

  /** What fits for any number of attempts fits for each. */
  lemma FitsThenUpTo(base: int, cap: int, n: nat)
    requires 0 < base && 0 < cap && Fits(base, cap)
    ensures FitsUpTo(base, cap, n)
  {
    if n > 0 {
      PeakBoundsPeakIn(base, cap, n - 1);
    }
  }

  // ---- The draw ----

  /** How many jitters the random source has to choose from; it panics when there is none. Division truncates. */
  function DrawRange(wait: int): int {
    (if wait >= 0 then wait / 5 else -(-wait / 5)) + 1
  }

  /** Where the schedule is sound there is always a jitter to draw. */
  lemma AlwaysDrawable(base: int, cap: int, attempts: nat)
    requires 0 < base && 0 < cap && Fits(base, cap) && attempts >= 1
    ensures DrawRange(Min(Doubled(base, cap, attempts - 1), cap)) > 0
  {
    ScaledGrows(base, 0, attempts - 1);
    DoubledIsExact(base, cap, attempts - 1);
  }

  /** Under a cap above 2^62 the doubling can wrap to a negative wait, and the draw panics. */
  lemma LargeCapOverflows()
    ensures Min(Doubled(TWO63 / 4, TWO63 - 1, 2), TWO63 - 1) == -TWO63
    ensures DrawRange(Min(Doubled(TWO63 / 4, TWO63 - 1, 2), TWO63 - 1)) < 0
  {
  }

  /** The lower bound of the wait never shrinks from one attempt to the next. */
  lemma WaitMonotone(base: int, cap: int, attempts: nat, later: nat)
    requires base > 0 && 1 <= attempts <= later
    ensures Wait(base, cap, attempts) <= Wait(base, cap, later)
  {
    ScaledGrows(base, attempts - 1, later - 1);
  }

  function SumWaits(base: int, cap: int, retries: nat): int {
    if retries == 0 then 0 else SumWaits(base, cap, retries - 1) + Wait(base, cap, retries)
  }

  function SumSchedules(base: int, cap: int, jitters: seq<int>): int {
    if jitters == [] then 0
    else SumSchedules(base, cap, jitters[..|jitters| - 1])
         + Schedule(base, cap, |jitters|, jitters[|jitters| - 1])
  }

  /** The whole time a failing delivery waits lies between the sum of the waits and six fifths of it. */
  lemma {:induction false} TotalWait(base: int, cap: int, jitters: seq<int>)
    requires 0 < base && 0 < cap && Fits(base, cap)
    requires forall k :: 0 <= k < |jitters| ==> 0 <= jitters[k] <= Wait(base, cap, k + 1) / 5
    ensures SumWaits(base, cap, |jitters|) <= SumSchedules(base, cap, jitters)
    ensures 5 * SumSchedules(base, cap, jitters) <= 6 * SumWaits(base, cap, |jitters|)
  {
    if jitters != [] {
      TotalWait(base, cap, jitters[..|jitters| - 1]);
      ScheduleExact(base, cap, |jitters|, jitters[|jitters| - 1]);
    }
  }

  /** The loop itself, on 64-bit durations; `jitter` is what the random source drew. */
  method Compute(base: int, cap: int, attempts: int, jitter: int) returns (wait: int)
    ensures var n := if attempts < 1 then 1 else attempts;
            && wait == Schedule(base, cap, n, jitter)
            && (0 < base && 0 < cap && Fits(base, cap) && 0 <= jitter <= Wait(base, cap, n) / 5 ==>
                  wait == Wait(base, cap, n) + jitter && 0 < wait < TWO63)
  {
    ghost var n := if attempts < 1 then 1 else attempts;
    var w := base;
    var i := 1;
    while i < attempts && w < cap
      invariant 1 <= i <= n
      invariant Doubled(base, cap, n - 1) == Doubled(w, cap, n - i)
    {
      w := Wrap(2 * w);
      i := i + 1;
    }
    wait := Wrap(Min(w, cap) + jitter);
    if 0 < base && 0 < cap && Fits(base, cap) && 0 <= jitter <= Wait(base, cap, n) / 5 {
      ScheduleExact(base, cap, n, jitter);
    }
  }
}
