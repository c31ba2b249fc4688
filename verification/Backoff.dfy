/** The retry schedule of a webhook delivery (internal/webhook/webhook.go). */
module Backoff {
  import opened Prelude

  const MAX_ATTEMPTS := 6
  const DELIVERY_TIMEOUT: Time := 10 * SECOND
  const LEASE_DURATION: Time := 60 * SECOND
  const SCHEDULE: seq<Time> := [1 * SECOND, 5 * SECOND, 30 * SECOND, 300 * SECOND, 3600 * SECOND]

  function NominalBackoff(failedAttempt: int): (d: Time)
    ensures 0 <= d <= 3600 * SECOND
    ensures d == 0 <==> failedAttempt <= 0
  {
    if failedAttempt <= 0 then 0
    else if failedAttempt - 1 >= |SCHEDULE| then SCHEDULE[|SCHEDULE| - 1]
    else SCHEDULE[failedAttempt - 1]
  }

  function Clamp(fraction: real): real {
    if fraction < 0.0 then 0.0 else if fraction > 1.0 then 1.0 else fraction
  }

  /** `math.Round` on a non-negative real: the nearest integer, halves away from zero. */
  function Round(x: real): int
    requires x >= 0.0
  {
    (x + 0.5).Floor
  }

  /** None when the attempt budget is spent, otherwise the delay before the next attempt. */
  function NextDelay(failedAttempt: int, jitter: real): (r: Option<Time>)
    ensures r.None? <==> failedAttempt >= MAX_ATTEMPTS
    ensures r.Some? ==> NominalBackoff(failedAttempt) <= 2 * r.value <= 2 * NominalBackoff(failedAttempt)
  {
    if failedAttempt >= MAX_ATTEMPTS then None
    else
      var nominal := NominalBackoff(failedAttempt);
      if nominal == 0 then Some(0)
      else
        ScaleBounds(nominal, Clamp(jitter));
        Some(Round(nominal as real * (0.5 + 0.5 * Clamp(jitter))))
  }

  /** The schedule in seconds: 1, 5, 30, 300, 3600, and the last one ever after. */
  lemma Schedule(failedAttempt: int)
    requires failedAttempt >= 1
    ensures NominalBackoff(failedAttempt) == SECOND * Seconds(failedAttempt)
  {
  }

  /** The waits the documentation promises, by attempt. */
  ghost function Seconds(failedAttempt: int): int {
    match failedAttempt
    case 1 => 1
    case 2 => 5
    case 3 => 30
    case 4 => 300
    case _ => 3600
  }

  /** A wait of `nominal`, of which the share `jitter` of the second half is slept: to the nanosecond. */
  ghost predicate Jittered(wait: Time, nominal: Time, jitter: real) {
    var share := if jitter <= 0.0 then 0.0 else if jitter >= 1.0 then 1.0 else jitter;
    var exact := (nominal as real + nominal as real * share) / 2.0;
    && exact - 0.5 <= wait as real <= exact + 0.5
    && nominal <= 2 * wait <= 2 * nominal
  }

  /** The delay before the retry after each of the first five failures; there is none after the sixth. */
  lemma DelayIsJittered(failedAttempt: int, jitter: real)
    requires failedAttempt >= 1
    ensures NextDelay(failedAttempt, jitter).None? <==> failedAttempt >= 6
    ensures failedAttempt < 6 ==>
              Jittered(NextDelay(failedAttempt, jitter).value, SECOND * Seconds(failedAttempt), jitter)
  {
    Schedule(failedAttempt);
    var nominal := NominalBackoff(failedAttempt);
    hide NominalBackoff, Seconds;
    if failedAttempt < 6 {
      var n, g := nominal as real, Clamp(jitter);
      assert n * (0.5 + 0.5 * g) == (n + n * g) / 2.0;
      RoundIsNearest(n * (0.5 + 0.5 * g));
    }
  }

  lemma RoundIsNearest(x: real)
    requires x >= 0.0
    ensures x - 0.5 <= Round(x) as real <= x + 0.5
  {
  }

  lemma RoundBounds(x: real, nominal: int)
    requires 0.0 <= x && nominal as real <= x + x && x <= nominal as real
    ensures nominal <= 2 * Round(x) <= 2 * nominal
  {
    var f := Round(x);
    var below := f as real;
    assert below <= x + 0.5 < below + 1.0;
    assert below < (nominal + 1) as real && nominal as real < below + below + 1.0;
    assert below + below + 1.0 == (f + f + 1) as real;
  }

  lemma Share(n: real, g: real)
    requires n >= 0.0 && 0.5 <= g <= 1.0
    ensures n <= n * g + n * g && 0.0 <= n * g <= n
  {
    assert n * (g - 0.5) >= 0.0 && n * (1.0 - g) >= 0.0;
  }

  lemma ScaleBounds(nominal: Time, f: real)
    requires nominal >= 0 && 0.0 <= f <= 1.0
    ensures var x := nominal as real * (0.5 + 0.5 * f);
            0.0 <= x && nominal <= 2 * Round(x) <= 2 * nominal
  {
    Share(nominal as real, 0.5 + 0.5 * f);
    RoundBounds(nominal as real * (0.5 + 0.5 * f), nominal);
  }

  /** Least time between the start of an epoch and its n-th claim. A failed attempt waits at
      least half its nominal delay; an attempt abandoned by a dead worker waits until the tick after its lease. */
  function LeastWait(n: int, leaseLossAllowed: bool): (w: Time)
    ensures w >= 0
    decreases if n < 0 then 0 else n
  {
    if n <= 0 then 0
    else if n >= MAX_ATTEMPTS then LeastWait(MAX_ATTEMPTS - 1, leaseLossAllowed)
    else LeastWait(n - 1, leaseLossAllowed) + LeastGap(n, leaseLossAllowed)
  }

  function LeastGap(n: int, leaseLossAllowed: bool): (g: Time)
    ensures 0 <= g && 2 * g <= NominalBackoff(n)
    ensures leaseLossAllowed ==> g <= LEASE_DURATION + 1
  {
    var half := NominalBackoff(n) / 2;
    if leaseLossAllowed && LEASE_DURATION + 1 < half then LEASE_DURATION + 1 else half
  }

  lemma LeastWaitStep(n: int, b: bool)
    requires n >= 1
    ensures LeastWait(n, b) <= LeastWait(n - 1, b) + LeastGap(n, b)
    ensures LeastWait(n - 1, b) <= LeastWait(n, b)
    ensures n >= MAX_ATTEMPTS - 1 ==> LeastWait(n, b) == LeastWait(MAX_ATTEMPTS - 1, b)
  {
  }

  lemma LeastWaitTotal(b: bool)
    ensures LeastWait(MAX_ATTEMPTS - 1, b) == if b then 138 * SECOND + 2 else 1968 * SECOND
  {
    var w1, w2, w3, w4 := LeastWait(1, b), LeastWait(2, b), LeastWait(3, b), LeastWait(4, b);
    assert w1 == LeastGap(1, b) == SECOND / 2;
    assert w2 == w1 + LeastGap(2, b);
    assert w3 == w2 + LeastGap(3, b);
    assert w4 == w3 + LeastGap(4, b);
  }

  /** Waits scheduled after the first |jitters| failures, one jitter draw per failure. */
  function ScheduledWait(jitters: seq<real>): Time
    requires |jitters| < MAX_ATTEMPTS
  {
    if jitters == [] then 0
    else ScheduledWait(jitters[..|jitters| - 1]) + NextDelay(|jitters|, jitters[|jitters| - 1]).value
  }

  lemma LastWaitSpread(n: int, jitter: real)
    requires 0 < n < MAX_ATTEMPTS
    ensures LeastGap(n, false) <= NextDelay(n, jitter).value <= 2 * LeastGap(n, false)
  {
    assert 2 * LeastGap(n, false) == NominalBackoff(n);
  }

  lemma {:induction false} ScheduledWaitSpread(jitters: seq<real>)
    requires |jitters| < MAX_ATTEMPTS
    ensures LeastWait(|jitters|, false) <= ScheduledWait(jitters) <= 2 * LeastWait(|jitters|, false)
  {
    if jitters != [] {
      var n := |jitters|;
      ScheduledWaitSpread(jitters[..n - 1]);
      LastWaitSpread(n, jitters[n - 1]);
      hide NextDelay, LeastGap, NominalBackoff;
    }
  }

  /** The five waits before a dead letter add up to between 1968 s and 3936 s, whatever the jitter. */
  lemma ScheduledWaitBounds(jitters: seq<real>)
    requires |jitters| == MAX_ATTEMPTS - 1
    ensures 1968 * SECOND <= ScheduledWait(jitters) <= 3936 * SECOND
  {
    ScheduledWaitSpread(jitters);
    LeastWaitTotal(false);
  }
}
