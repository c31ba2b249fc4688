/** The sliding-window limiter: the Lua script of internal/ratelimit/ratelimit.go against the full
    history of admissions. Times are Redis milliseconds. */
module RateLimit {
  import opened Prelude

  type Millis = int

  datatype Reply = Reply(allowed: bool, remaining: int, reset: Millis)

  predicate Ascending(h: seq<Millis>) {
    forall i, j :: 0 <= i < j < |h| ==> h[i] <= h[j]
  }

  /** The admissions in the half-open interval (lo, hi]. */
  function Within(h: seq<Millis>, lo: Millis, hi: Millis): seq<Millis> {
    if h == [] then []
    else
      var earlier, t := Within(h[..|h| - 1], lo, hi), h[|h| - 1];
      if lo < t <= hi then earlier + [t] else earlier
  }

  function Max(a: int, b: int): int { if a < b then b else a }

  /** The script's answer from the entries it kept. */
  function Decide(kept: seq<Millis>, now: Millis, limit: int, w: Millis): Reply {
    var reset := if kept == [] then w else Max(0, w - (now - kept[0]));
    if |kept| < limit then Reply(true, limit - |kept| - 1, reset) else Reply(false, 0, reset)
  }

  /** The answer the full history dictates: the specification the sorted set must agree with. */
  function Answer(h: seq<Millis>, now: Millis, limit: int, w: Millis): Reply {
    Decide(Within(h, now - w, now), now, limit, w)
  }

  function After(h: seq<Millis>, now: Millis, limit: int, w: Millis): seq<Millis> {
    if Answer(h, now, limit, w).allowed then h + [now] else h
  }

  /** A history some run could have produced by `now`. */
  predicate Possible(h: seq<Millis>, now: Millis) {
    Ascending(h) && forall i :: 0 <= i < |h| ==> h[i] <= now
  }

  lemma {:induction false} WithinBounds(h: seq<Millis>, lo: Millis, hi: Millis)
    ensures |Within(h, lo, hi)| <= |h|
    ensures forall i :: 0 <= i < |Within(h, lo, hi)| ==> lo < Within(h, lo, hi)[i] <= hi
    decreases |h|
  {
    if h != [] {
      WithinBounds(h[..|h| - 1], lo, hi);
    }
  }

  lemma {:induction false} WithinConcat(a: seq<Millis>, b: seq<Millis>, lo: Millis, hi: Millis)
    ensures Within(a + b, lo, hi) == Within(a, lo, hi) + Within(b, lo, hi)
    decreases |b|
  {
    if b == [] {
      assert a + b == a;
    } else {
      assert (a + b)[..|a + b| - 1] == a + b[..|b| - 1];
      WithinConcat(a, b[..|b| - 1], lo, hi);
    }
  }

  lemma {:induction false} WithinAll(h: seq<Millis>, lo: Millis, hi: Millis)
    requires forall i :: 0 <= i < |h| ==> lo < h[i] <= hi
    ensures Within(h, lo, hi) == h
    decreases |h|
  {
    if h != [] {
      WithinAll(h[..|h| - 1], lo, hi);
    }
  }

  lemma {:induction false} WithinNone(h: seq<Millis>, lo: Millis, hi: Millis)
    requires forall i :: 0 <= i < |h| ==> !(lo < h[i] <= hi)
    ensures Within(h, lo, hi) == []
    decreases |h|
  {
    if h != [] {
      WithinNone(h[..|h| - 1], lo, hi);
    }
  }

  /** A narrower interval filters the wider one's admissions. */
  lemma {:induction false} WithinNested(h: seq<Millis>, lo: Millis, hi: Millis, lo': Millis, hi': Millis)
    requires lo <= lo' && hi' <= hi
    ensures Within(h, lo', hi') == Within(Within(h, lo, hi), lo', hi')
    decreases |h|
  {
    if h != [] {
      var g, t := h[..|h| - 1], h[|h| - 1];
      WithinNested(g, lo, hi, lo', hi');
      if lo < t <= hi {
        WithinConcat(Within(g, lo, hi), [t], lo', hi');
        assert [t][..0] == [];
      }
    }
  }

  /** Nothing in a possible history lies beyond its present. */
  lemma {:induction false} WithinUpTo(h: seq<Millis>, lo: Millis, hi: Millis, now: Millis)
    requires Possible(h, now) && now <= hi
    ensures Within(h, lo, hi) == Within(h, lo, now)
    decreases |h|
  {
    if h != [] {
      WithinUpTo(h[..|h| - 1], lo, hi, now);
    }
  }

  lemma {:induction false} WithinAscending(h: seq<Millis>, lo: Millis, hi: Millis)
    requires Ascending(h)
    ensures Ascending(Within(h, lo, hi))
    ensures h != [] ==> forall i :: 0 <= i < |Within(h, lo, hi)| ==> Within(h, lo, hi)[i] <= h[|h| - 1]
    decreases |h|
  {
    if h != [] {
      WithinAscending(h[..|h| - 1], lo, hi);
    }
  }

  // ------------------------------------------------------------ the sorted set

  /** How many leading entries ZREMRANGEBYSCORE removes, counting from the `i`-th. */
  function Cut(scores: seq<Millis>, i: nat, cutoff: Millis): (k: nat)
    requires i <= |scores| && forall j :: 0 <= j < i ==> scores[j] <= cutoff
    ensures k <= |scores| && forall j :: 0 <= j < k ==> scores[j] <= cutoff
    ensures k < |scores| ==> scores[k] > cutoff
    decreases |scores| - i
  {
    if i == |scores| || scores[i] > cutoff then i else Cut(scores, i + 1, cutoff)
  }

  /** The set and the entries already gone make up the history; what is gone has left the window;
      the expiry is one window after the last admission. */
  ghost predicate Agrees(gone: seq<Millis>, scores: seq<Millis>, deadline: Option<Millis>, now: Millis, w: Millis) {
    && Possible(gone + scores, now)
    && (forall i :: 0 <= i < |gone| ==> gone[i] <= now - w)
    && (scores != [] ==> deadline == Some(scores[|scores| - 1] + w))
  }

  /** Evicting from what is left of the history leaves exactly the history's window. */
  lemma EvictionIsTheWindow(gone: seq<Millis>, scores: seq<Millis>, cutoff: Millis, now: Millis)
    requires Possible(gone + scores, now) && forall i :: 0 <= i < |gone| ==> gone[i] <= cutoff
    ensures var k := Cut(scores, 0, cutoff);
            && scores[k..] == Within(gone + scores, cutoff, now)
            && (gone + scores[..k]) + scores[k..] == gone + scores
  {
    var k := Cut(scores, 0, cutoff);
    var out, kept := gone + scores[..k], scores[k..];
    assert out + kept == gone + scores;
    SuffixAboveCutoff(scores, k, cutoff, now, gone);
    WithinConcat(out, kept, cutoff, now);
    WithinNone(out, cutoff, now);
    WithinAll(kept, cutoff, now);
  }

  lemma EvictionAgrees(gone: seq<Millis>, scores: seq<Millis>, deadline: Option<Millis>, last: Millis,
                       now: Millis, w: Millis)
    requires Agrees(gone, scores, deadline, last, w) && last <= now
    ensures var k := Cut(scores, 0, now - w); Agrees(gone + scores[..k], scores[k..], deadline, now, w)
  {
    var k := Cut(scores, 0, now - w);
    assert (gone + scores[..k]) + scores[k..] == gone + scores;
  }

  lemma PruneStep(gone: seq<Millis>, scores: seq<Millis>, deadline: Option<Millis>, last: Millis, now: Millis,
                  w: Millis)
    requires Agrees(gone, scores, deadline, last, w) && last <= now
    ensures var k := Cut(scores, 0, now - w);
            && Agrees(gone + scores[..k], scores[k..], deadline, now, w)
            && scores[k..] == Within(gone + scores, now - w, now)
            && (gone + scores[..k]) + scores[k..] == gone + scores
  {
    hide Within;
    EvictionAgrees(gone, scores, deadline, last, now, w);
    EvictionIsTheWindow(gone, scores, now - w, now);
  }

  lemma SuffixAboveCutoff(scores: seq<Millis>, k: nat, cutoff: Millis, now: Millis, gone: seq<Millis>)
    requires k <= |scores| && (k < |scores| ==> scores[k] > cutoff) && Possible(gone + scores, now)
    ensures forall i :: 0 <= i < |scores[k..]| ==> cutoff < scores[k..][i] <= now
  {
    forall i | k <= i < |scores| ensures cutoff < scores[i] <= now {
      var h := gone + scores;
      assert h[|gone| + k] == scores[k] && h[|gone| + i] == scores[i];
    }
  }

  lemma AdmissionAgrees(gone: seq<Millis>, kept: seq<Millis>, deadline: Option<Millis>, now: Millis, w: Millis)
    requires Agrees(gone, kept, deadline, now, w)
    ensures gone + (kept + [now]) == (gone + kept) + [now]
    ensures Agrees(gone, kept + [now], Some(now + w), now, w)
  {
    assert gone + (kept + [now]) == (gone + kept) + [now];
  }

  /** One bucket, as Redis holds it. */
  class Bucket {
    const limit: int
    const window: Millis
    var scores: seq<Millis>
    var deadline: Option<Millis>
    ghost var gone: seq<Millis>

    ghost function History(): seq<Millis>
      reads this
    {
      gone + scores
    }

    ghost predicate Valid(now: Millis)
      reads this
    {
      window >= 0 && Agrees(gone, scores, deadline, now, window)
    }

    constructor (limit: int, window: Millis, now: Millis)
      requires window >= 0
      ensures Valid(now) && History() == [] && this.limit == limit && this.window == window
    {
      this.limit, this.window, scores, deadline, gone := limit, window, [], None, [];
    }

    /** Redis drops the key at some moment once its deadline is reached: nothing the window needs
        is lost. */
    method Expire(now: Millis)
      requires Valid(now) && deadline.Some? && deadline.value <= now
      modifies this
      ensures Valid(now) && scores == [] && History() == old(History())
    {
      assert forall i :: 0 <= i < |scores| ==> scores[i] == (gone + scores)[|gone| + i];
      gone := gone + scores;
      scores, deadline := [], None;
      assert gone + scores == gone;
    }

    /** ZREMRANGEBYSCORE key 0 (now - window). */
    method Prune(last: Millis, now: Millis)
      requires Valid(last) && last <= now
      modifies this`scores, this`gone
      ensures Valid(now) && History() == old(History())
      ensures scores == Within(History(), now - window, now)
    {
      PruneStep(gone, scores, deadline, last, now, window);
      hide Within, Agrees, Possible;
      var k := Cut(scores, 0, now - window);
      gone := gone + scores[..k];
      scores := scores[k..];
    }

    /** ZADD and PEXPIRE. */
    method Admit(now: Millis)
      requires Valid(now)
      modifies this`scores, this`deadline
      ensures Valid(now) && History() == old(History()) + [now]
    {
      AdmissionAgrees(gone, scores, deadline, now, window);
      scores := scores + [now];
      deadline := Some(now + window);
    }

    /** One run of the script. Whatever was evicted or expired before, the reply is the one the
        full history dictates. */
    method Call(last: Millis, now: Millis) returns (r: Reply)
      requires Valid(last) && last <= now
      modifies this
      ensures Valid(now)
      ensures r == Answer(old(History()), now, limit, window)
      ensures History() == After(old(History()), now, limit, window)
    {
      Prune(last, now);
      var count := |scores|;
      var reset := window;
      if count > 0 {
        reset := window - (now - scores[0]);
        if reset < 0 {
          reset := 0;
        }
      }
      if count < limit {
        Admit(now);
        return Reply(true, limit - count - 1, reset);
      }
      return Reply(false, 0, reset);
    }
  }

  // ------------------------------------------------------------ the limit holds

  /** The history after calls at the given times. */
  function HistoryOf(calls: seq<Millis>, limit: int, w: Millis): seq<Millis> {
    if calls == [] then []
    else After(HistoryOf(calls[..|calls| - 1], limit, w), calls[|calls| - 1], limit, w)
  }

  lemma {:induction false} HistoryIsPossible(calls: seq<Millis>, limit: int, w: Millis, now: Millis)
    requires Possible(calls, now)
    ensures Possible(HistoryOf(calls, limit, w), now)
    decreases |calls|
  {
    if calls != [] {
      HistoryIsPossible(calls[..|calls| - 1], limit, w, calls[|calls| - 1]);
    }
  }

  /** The limit as promised: over any run on a non-decreasing clock, every half-open interval of
      window length, wherever it lies, holds at most `limit` admissions. */
  lemma {:induction false} EveryWindowWithinLimit(calls: seq<Millis>, limit: nat, w: Millis, x: Millis)
    requires Ascending(calls)
    ensures |Within(HistoryOf(calls, limit, w), x, x + w)| <= limit
    decreases |calls|
  {
    if calls != [] {
      var earlier, t := calls[..|calls| - 1], calls[|calls| - 1];
      var h := HistoryOf(earlier, limit, w);
      EveryWindowWithinLimit(earlier, limit, w, x);
      HistoryIsPossible(earlier, limit, w, t);
      hide HistoryOf;
      OneMoreAdmission(h, t, limit, w, x);
    }
  }

  lemma OneMoreAdmission(h: seq<Millis>, t: Millis, limit: nat, w: Millis, x: Millis)
    requires Possible(h, t) && |Within(h, x, x + w)| <= limit
    ensures |Within(After(h, t, limit, w), x, x + w)| <= limit
  {
    assert (h + [t])[..|h|] == h;
    if x < t <= x + w {
      WithinUpTo(h, x, x + w, t);
      WithinNested(h, t - w, t, x, t);
      WithinBounds(Within(h, t - w, t), x, t);
    }
  }

  // ------------------------------------------------- reset and remaining are exact

  lemma ResetFromHistory(h: seq<Millis>, now: Millis, limit: nat, w: Millis, later: Millis)
    requires w >= 0 && Possible(h, now) && !Answer(h, now, limit, w).allowed
    requires |Within(h, now - w, now)| <= limit && now <= later
    ensures later < now + Answer(h, now, limit, w).reset ==> !Answer(h, later, limit, w).allowed
    ensures later == now + Answer(h, now, limit, w).reset ==> (Answer(h, later, limit, w).allowed <==> limit > 0)
  {
    hide Within, Decide;
    var kept := Within(h, now - w, now);
    WithinAscending(h, now - w, now);
    WithinBounds(h, now - w, now);
    WithinBounds(kept, later - w, now);
    LaterAnswer(h, now, limit, w, later);
    if kept != [] {
      OldestLeavesFirst(kept, later - w, now);
    }
    ResetCore(kept, Within(kept, later - w, now), now, limit, w, later);
  }

  /** With no admission in between, a later answer depends only on the present window. */
  lemma LaterAnswer(h: seq<Millis>, now: Millis, limit: int, w: Millis, later: Millis)
    requires Possible(h, now) && now <= later
    ensures Answer(h, later, limit, w) == Decide(Within(Within(h, now - w, now), later - w, now), later, limit, w)
  {
    WithinUpTo(h, later - w, later, now);
    WithinNested(h, now - w, now, later - w, now);
  }

  /** `kept` is the window at the refusal, `rest` what remains of it at the later call. */
  lemma ResetCore(kept: seq<Millis>, rest: seq<Millis>, now: Millis, limit: nat, w: Millis, later: Millis)
    requires w >= 0 && !Decide(kept, now, limit, w).allowed && |kept| <= limit && |rest| <= |kept|
    requires kept != [] ==> now - w < kept[0] <= now
    requires kept != [] && later - w < kept[0] ==> rest == kept
    requires kept != [] && kept[0] <= later - w ==> |rest| < |kept|
    ensures later < now + Decide(kept, now, limit, w).reset ==> !Decide(rest, later, limit, w).allowed
    ensures later == now + Decide(kept, now, limit, w).reset
            ==> (Decide(rest, later, limit, w).allowed <==> limit > 0)
  {
  }

  /** Of an ascending list, nothing leaves before the first element does. */
  lemma OldestLeavesFirst(kept: seq<Millis>, cutoff: Millis, now: Millis)
    requires kept != [] && Possible(kept, now)
    ensures cutoff < kept[0] ==> Within(kept, cutoff, now) == kept
    ensures kept[0] <= cutoff ==> |Within(kept, cutoff, now)| < |kept|
  {
    if cutoff < kept[0] {
      WithinAll(kept, cutoff, now);
    } else {
      assert kept == [kept[0]] + kept[1..];
      WithinConcat([kept[0]], kept[1..], cutoff, now);
      WithinNone([kept[0]], cutoff, now);
    }
  }

  lemma ResetNotNegative(h: seq<Millis>, now: Millis, limit: int, w: Millis)
    requires w >= 0
    ensures Answer(h, now, limit, w).reset >= 0
  {
  }

  /** After a refusal with reset `r`, and no admission in between, every earlier call is refused and
      the call at `now + r` is admitted, exactly when the limit allows any call at all. */
  lemma ResetIsExact(calls: seq<Millis>, now: Millis, limit: nat, w: Millis, later: Millis)
    requires w >= 0 && Possible(calls, now) && now <= later
    requires !Answer(HistoryOf(calls, limit, w), now, limit, w).allowed
    ensures var h := HistoryOf(calls, limit, w);
            var reset := Answer(h, now, limit, w).reset;
            && reset >= 0
            && (later < now + reset ==> !Answer(h, later, limit, w).allowed)
            && (later == now + reset ==> (Answer(h, later, limit, w).allowed <==> limit > 0))
  {
    hide HistoryOf, Within, Decide;
    HistoryIsPossible(calls, limit, w, now);
    EveryWindowWithinLimit(calls, limit, w, now - w);
    ResetNotNegative(HistoryOf(calls, limit, w), now, limit, w);
    ResetFromHistory(HistoryOf(calls, limit, w), now, limit, w, later);
  }

  lemma WindowOfAdmission(h: seq<Millis>, now: Millis, w: Millis)
    requires w > 0 && Possible(h, now)
    ensures Possible(h + [now], now)
    ensures Within(h + [now], now - w, now) == Within(h, now - w, now) + [now]
  {
    hide Within;
    WithinConcat(h, [now], now - w, now);
    WithinAll([now], now - w, now);
  }

  /** The reset of an admitted call is exact too: with no admission in between, every call it counts stays
      in the window until `now + reset`, when the first of them leaves. */
  lemma AdmittedResetIsExact(calls: seq<Millis>, now: Millis, limit: int, w: Millis, later: Millis)
    requires w > 0 && Possible(calls, now) && now <= later
    requires Answer(HistoryOf(calls, limit, w), now, limit, w).allowed
    ensures var h := HistoryOf(calls, limit, w) + [now];
            var reset := Answer(HistoryOf(calls, limit, w), now, limit, w).reset;
            && reset > 0
            && (later < now + reset ==> Within(h, later - w, later) == Within(h, now - w, now))
            && (later == now + reset ==> |Within(h, later - w, later)| < |Within(h, now - w, now)|)
  {
    hide HistoryOf, Within;
    var h := HistoryOf(calls, limit, w);
    HistoryIsPossible(calls, limit, w, now);
    WithinBounds(h, now - w, now);
    WindowOfAdmission(h, now, w);
    var kept := Within(h + [now], now - w, now);
    WithinUpTo(h + [now], later - w, later, now);
    WithinNested(h + [now], now - w, now, later - w, now);
    WithinAscending(h + [now], now - w, now);
    WithinBounds(h + [now], now - w, now);
    OldestLeavesFirst(kept, later - w, now);
  }

  function Repeat(h: seq<Millis>, now: Millis, limit: int, w: Millis, n: nat): seq<Millis>
    decreases n
  {
    if n == 0 then h else Repeat(After(h, now, limit, w), now, limit, w, n - 1)
  }

  lemma OneMore(h: seq<Millis>, now: Millis, w: Millis)
    requires w > 0
    ensures |Within(h + [now], now - w, now)| == |Within(h, now - w, now)| + 1
  {
    WithinConcat(h, [now], now - w, now);
    WithinAll([now], now - w, now);
  }

  /** After an admission with `m` remaining, exactly `m` of any further calls at that instant are
      admitted. */
  lemma {:induction false} RemainingIsExact(h: seq<Millis>, now: Millis, limit: int, w: Millis, n: nat)
    requires w > 0
    ensures var room := Max(0, limit - |Within(h, now - w, now)|);
            && (Answer(h, now, limit, w).allowed <==> room > 0)
            && Answer(h, now, limit, w).remaining == (if room > 0 then room - 1 else 0)
            && |Repeat(h, now, limit, w, n)| == |h| + (if n < room then n else room)
    decreases n
  {
    if n > 0 {
      if Answer(h, now, limit, w).allowed {
        OneMore(h, now, w);
        RemainingIsExact(h + [now], now, limit, w, n - 1);
      } else {
        RemainingIsExact(h, now, limit, w, n - 1);
      }
    }
  }

  // -------------------------------------------------------------- the HTTP headers

  /** `int((d + time.Second - 1) / time.Second)` for a non-negative duration, in milliseconds. */
  function RetryAfterSeconds(reset: Millis): int
    requires reset >= 0
  {
    (reset * 1_000_000 + SECOND - 1) / SECOND
  }

  /** With nobody admitted in between, a call that would be admitted stays admissible. */
  lemma RoomOnlyGrows(h: seq<Millis>, now: Millis, later: Millis, limit: int, w: Millis)
    requires Possible(h, now) && now <= later && Answer(h, now, limit, w).allowed
    ensures Answer(h, later, limit, w).allowed
  {
    LaterAnswer(h, now, limit, w, later);
    WithinBounds(Within(h, now - w, now), later - w, now);
  }

  lemma WaitIsTight(reset: Millis)
    requires reset >= 0
    ensures reset <= 1000 * RetryAfterSeconds(reset) < reset + 1000
  {
  }

  /** Retry-After is never early and less than a second late; so a refused client that waits that
      long, with nobody else admitted, is admitted. */
  lemma RetryAfterIsTight(calls: seq<Millis>, now: Millis, limit: nat, w: Millis)
    requires w >= 0 && limit > 0 && Possible(calls, now)
    requires !Answer(HistoryOf(calls, limit, w), now, limit, w).allowed
    ensures var h := HistoryOf(calls, limit, w);
            var reset := Answer(h, now, limit, w).reset;
            var wait := 1000 * RetryAfterSeconds(reset);
            && reset <= wait < reset + 1000
            && Answer(h, now + wait, limit, w).allowed
  {
    hide HistoryOf, Answer;
    var h := HistoryOf(calls, limit, w);
    var reset := Answer(h, now, limit, w).reset;
    HistoryIsPossible(calls, limit, w, now);
    ResetNotNegative(h, now, limit, w);
    ResetIsExact(calls, now, limit, w, now + reset);
    WaitIsTight(reset);
    assert Possible(h, now + reset);
    RoomOnlyGrows(h, now + reset, now + 1000 * RetryAfterSeconds(reset), limit, w);
  }
}
