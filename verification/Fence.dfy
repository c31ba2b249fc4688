/** How long an attempt number alone identifies a claim (internal/webhook/store.go). A replay makes
    attempt numbers come back, but not soon: the old epoch has to die first and the new one has to
    reach the same number. */
module Fence {
  import opened Prelude
  import opened Backoff
  import opened Outbox

  /** The least time from a claim to the next one that carries its number: 138 s and two clock ticks. */
  const REISSUE: Time := 138 * SECOND + 2

  // ---------------------------------------------------- the schedule across replays

  /** In the epoch `e` the row keeps its schedule from `t0` on; in any later one, the schedule that
      starts when `e` can first have died. */
  predicate AcrossEpochs(r: Row, now: Time, e: int, t0: Time) {
    && r.replays >= e
    && OnSchedule(r, now, if r.replays == e then t0 else t0 + LeastWait(MAX_ATTEMPTS - 1, true), true)
  }

  lemma ReplayStartsLater(r: Row, now: Time, t0: Time)
    requires r.status.Dead? && OnSchedule(r, now, t0, true)
    ensures OnSchedule(Replayed(r, now), now, t0 + LeastWait(MAX_ATTEMPTS - 1, true), true)
    ensures OnSchedule(Replayed(r, now), now, t0, true)
  {
  }

  lemma StepAcrossEpochs(id: Id, r: Row, now: Time, s: Step, e: int, t0: Time)
    requires Sane(r) && AcrossEpochs(r, now, e, t0) && SettlesOnClock(id, now, s)
    ensures AcrossEpochs(RowStep(id, r, now, s), Later(now, s), e, t0)
  {
    hide OnSchedule, LeastWait, Claimed, Settled, Sane;
    var base := if r.replays == e then t0 else t0 + LeastWait(MAX_ATTEMPTS - 1, true);
    if s.Replay? && id == s.id && r.message.tenant == s.tenant && r.status.Dead? {
      ReplayStartsLater(r, now, base);
    } else {
      ReplayOnly(id, r, now, s);
      StepKeepsSchedule(id, r, now, s, base, true);
    }
  }

  lemma ReplayOnly(id: Id, r: Row, now: Time, s: Step)
    requires !(s.Replay? && id == s.id && r.message.tenant == s.tenant && r.status.Dead?)
    ensures RowStep(id, r, now, s).replays == r.replays
  {
  }

  lemma {:induction false} RunAcrossEpochs(id: Id, r: Row, now: Time, steps: seq<Step>, e: int, t0: Time)
    requires Sane(r) && AcrossEpochs(r, now, e, t0) && OneClock(id, now, steps)
    ensures AcrossEpochs(RowRun(id, r, now, steps), ClockRun(now, steps), e, t0)
    decreases |steps|
  {
    if steps != [] {
      hide AcrossEpochs, RowStep, Sane;
      StepAcrossEpochs(id, r, now, steps[0], e, t0);
      StepKeepsSane(id, r, now, steps[0]);
      RunAcrossEpochs(id, RowStep(id, r, now, steps[0]), Later(now, steps[0]), steps[1..], e, t0);
    }
  }

  /** For that long from its claim, replays included, an attempt number fences alone: a settle that carries
      it writes the row iff the row is still the one the claim wrote and its lease is live. */
  lemma NumberIsUniqueForAWhile(id: Id, mine: Row, now: Time, steps: seq<Step>)
    requires Sane(mine) && mine.status.Delivering? && mine.lease == Some(now + LEASE_DURATION)
    requires OneClock(id, now, steps) && ClockRun(now, steps) < now + REISSUE
    ensures var end, t := RowRun(id, mine, now, steps), ClockRun(now, steps);
            SettleMatches(end, mine.attempts, t) <==> end == mine && t < now + LEASE_DURATION
  {
    var t0 := now - LeastWait(mine.attempts - 1, true);
    assert AcrossEpochs(mine, now, mine.replays, t0);
    RunAcrossEpochs(id, mine, now, steps, mine.replays, t0);
    LeastWaitTotal(true);
    hide LeastWait;
    FenceIdentifiesRow(id, mine, now, steps);
  }

  // --------------------------------------------------------- and for no longer

  lemma {:induction false} OneClockAppend(id: Id, now: Time, a: seq<Step>, s: Step)
    requires OneClock(id, now, a) && SettlesOnClock(id, ClockRun(now, a), s)
    ensures OneClock(id, now, a + [s])
    decreases |a|
  {
    if a == [] {
      assert [] + [s] == [s] && [s][1..] == [];
    } else {
      assert (a + [s])[1..] == a[1..] + [s];
      OneClockAppend(id, Later(now, a[0]), a[1..], s);
    }
  }

  /** Row 0 after a run from the claim `mine` at time 0, all on one clock. */
  ghost predicate Leads(mine: Row, steps: seq<Step>, r: Row, now: Time) {
    r == RowRun(0, mine, 0, steps) && now == ClockRun(0, steps) && OneClock(0, 0, steps)
  }

  lemma Then(mine: Row, steps: seq<Step>, r: Row, now: Time, s: Step) returns (longer: seq<Step>)
    requires Leads(mine, steps, r, now) && SettlesOnClock(0, now, s)
    ensures Leads(mine, longer, RowStep(0, r, now, s), Later(now, s))
  {
    longer := steps + [s];
    RowRunAppend(0, mine, 0, steps, [s]);
    OneClockAppend(0, 0, steps, s);
    assert [s][1..] == [];
  }

  lemma ShortestDelay(n: int)
    requires 1 <= n <= 3
    ensures NextDelay(n, 0.0) == Some(NominalBackoff(n) / 2)
  {
    var half := NominalBackoff(n) / 2;
    assert NominalBackoff(n) as real * (0.5 + 0.5 * 0.0) == half as real;
    assert (half as real + 0.5).Floor == half;
  }

  /** A failure with the shortest jitter, and the next claim as soon as it is due. */
  lemma FailAndClaim(mine: Row, steps: seq<Step>, r: Row, now: Time) returns (longer: seq<Step>, next: Row)
    requires Leads(mine, steps, r, now) && SettleMatches(r, r.attempts, now) && 1 <= r.attempts <= 3
    ensures var later := now + NominalBackoff(r.attempts) / 2;
            && Leads(mine, longer, next, later) && SettleMatches(next, next.attempts, later)
            && next.lease == Some(later + LEASE_DURATION) && next.attempts == r.attempts + 1
            && next.replays == r.replays && next.message == r.message
  {
    hide Leads;
    ShortestDelay(r.attempts);
    hide NextDelay, NominalBackoff;
    var wait := NominalBackoff(r.attempts) / 2;
    var s := Settle(0, r.attempts, Response(500), 0.0, now);
    longer := Then(mine, steps, r, now, s);
    next := RowStep(0, r, now, s);
    longer := Then(mine, longer, next, now, Tick(wait));
    longer := Then(mine, longer, next, now + wait, Claim({0}));
    next := RowStep(0, next, now + wait, Claim({0}));
  }

  /** A holder that dies, and the next claim on the tick after its lease. */
  lemma LapseAndClaim(mine: Row, steps: seq<Step>, r: Row, now: Time) returns (longer: seq<Step>, next: Row)
    requires Leads(mine, steps, r, now) && r.status.Delivering? && r.lease == Some(now + LEASE_DURATION)
    ensures var later := now + LEASE_DURATION + 1;
            && Leads(mine, longer, next, later) && SettleMatches(next, next.attempts, later)
            && next.lease == Some(later + LEASE_DURATION) && next.attempts == r.attempts + 1
            && next.replays == r.replays && next.message == r.message
  {
    hide Leads;
    longer := Then(mine, steps, r, now, Tick(LEASE_DURATION + 1));
    longer := Then(mine, longer, r, now + LEASE_DURATION + 1, Claim({0}));
    next := RowStep(0, r, now + LEASE_DURATION + 1, Claim({0}));
  }

  /** The fastest way back to a number: three failures with the shortest jitter, two lapsed leases, the
      failure that dead-letters, a replay, and a claim. Then the old holder's settle matches a row
      that is not its own. */
  lemma NumberComesBack(m: Message) returns (steps: seq<Step>, end: Row)
    ensures Leads(Claimed(NewRow(m, 0), 0), steps, end, REISSUE)
    ensures end != Claimed(NewRow(m, 0), 0) && SettleMatches(end, 1, REISSUE)
  {
    hide Leads;
    var mine := Claimed(NewRow(m, 0), 0);
    assert Leads(mine, [], mine, 0) by {
      StartLeads(mine);
    }
    steps, end := FailAndClaim(mine, [], mine, 0);
    steps, end := FailAndClaim(mine, steps, end, SECOND / 2);
    steps, end := FailAndClaim(mine, steps, end, 3 * SECOND);
    steps, end := LapseAndClaim(mine, steps, end, 18 * SECOND);
    steps, end := LapseAndClaim(mine, steps, end, 78 * SECOND + 1);
    assert end.attempts == 6 && end.replays == 0 && end.message == m;
    var last := Settle(0, 6, Response(500), 0.0, REISSUE);
    steps := Then(mine, steps, end, REISSUE, last);
    end := RowStep(0, end, REISSUE, last);
    steps := Then(mine, steps, end, REISSUE, Replay(m.tenant, 0));
    end := RowStep(0, end, REISSUE, Replay(m.tenant, 0));
    steps := Then(mine, steps, end, REISSUE, Claim({0}));
    end := RowStep(0, end, REISSUE, Claim({0}));
  }

  lemma StartLeads(mine: Row)
    ensures Leads(mine, [], mine, 0)
  {
  }

  /** Whatever is claimed, and whatever one-clock run of less than `t` follows: a settle under the
      claim's number matches only the claim's own row. */
  ghost predicate FencesFor(t: Time) {
    forall id, mine, now, steps :: Covered(id, mine, now, steps, t) ==> MatchesOnlyItsOwn(id, mine, now, steps)
  }

  predicate Covered(id: Id, mine: Row, now: Time, steps: seq<Step>, t: Time) {
    && Sane(mine) && mine.status.Delivering? && mine.lease == Some(now + LEASE_DURATION)
    && OneClock(id, now, steps) && ClockRun(now, steps) < now + t
  }

  predicate MatchesOnlyItsOwn(id: Id, mine: Row, now: Time, steps: seq<Step>) {
    var end := RowRun(id, mine, now, steps);
    SettleMatches(end, mine.attempts, ClockRun(now, steps)) ==> end == mine
  }

  /** How long an attempt number fences alone, exactly. */
  lemma FencesForIff(t: Time)
    ensures FencesFor(t) <==> t <= REISSUE
  {
    if t <= REISSUE {
      forall id, mine, now, steps | Covered(id, mine, now, steps, t) ensures MatchesOnlyItsOwn(id, mine, now, steps) {
        NumberIsUniqueForAWhile(id, mine, now, steps);
      }
    } else {
      var m := Message(0, 0, InvoicePaid, 0, "", Option.None);
      var steps, end := NumberComesBack(m);
      var mine := Claimed(NewRow(m, 0), 0);
      assert Covered(0, mine, 0, steps, t) && !MatchesOnlyItsOwn(0, mine, 0, steps);
    }
  }

  // ------------------------------------------------------------ positions in a run

  ghost function At(start: Db, steps: seq<Step>, k: nat): Db
    requires k <= |steps|
  {
    Run(start, steps[..k])
  }

  /** The step is a claim that hands out the row under this attempt number. */
  predicate HandsOut(db: Db, step: Step, id: Id, attempt: int) {
    step.Claim? && id in step.picks && id in db.rows && Claimable(db.rows[id], db.now)
    && db.rows[id].attempts + 1 == attempt
  }

  ghost predicate SettlesOnClockAt(start: Db, steps: seq<Step>, id: Id, k: nat)
    requires k < |steps|
  {
    SettlesOnClock(id, At(start, steps, k).now, steps[k])
  }

  /** Every settle of the row in the run reads the database's clock. */
  ghost predicate OnClock(start: Db, steps: seq<Step>, id: Id) {
    forall k :: 0 <= k < |steps| ==> SettlesOnClockAt(start, steps, id, k)
  }

  predicate SaneDb(db: Db) { forall id :: id in db.rows ==> Sane(db.rows[id]) }

  lemma NextAt(start: Db, steps: seq<Step>, k: nat)
    requires k < |steps|
    ensures At(start, steps, k + 1) == Apply(At(start, steps, k), steps[k])
  {
    hide Apply;
    assert steps[..k + 1] == steps[..k] + [steps[k]];
    RunAppend(start, steps[..k], [steps[k]]);
    assert [steps[k]][1..] == [];
  }

  lemma Between(start: Db, steps: seq<Step>, a: nat, b: nat, id: Id)
    requires a <= b <= |steps| && id in At(start, steps, a).rows
    ensures var db, end := At(start, steps, a), At(start, steps, b);
            && id in end.rows && end.now == ClockRun(db.now, steps[a..b])
            && end.rows[id] == RowRun(id, db.rows[id], db.now, steps[a..b])
  {
    hide Apply;
    assert steps[..b] == steps[..a] + steps[a..b];
    RunAppend(start, steps[..a], steps[a..b]);
    RunIsRowwise(At(start, steps, a), steps[a..b], id);
  }

  lemma {:induction false} OneClockBetween(start: Db, steps: seq<Step>, a: nat, b: nat, id: Id)
    requires a <= b <= |steps| && OnClock(start, steps, id)
    ensures OneClock(id, At(start, steps, a).now, steps[a..b])
    decreases b - a
  {
    if a < b {
      OneClockBetween(start, steps, a + 1, b, id);
      NextAt(start, steps, a);
      assert SettlesOnClockAt(start, steps, id, a);
      assert steps[a..b][1..] == steps[a + 1..b];
    }
  }

  lemma SaneAt(start: Db, steps: seq<Step>, k: nat, id: Id)
    requires SaneDb(start) && k <= |steps| && id in At(start, steps, k).rows
    ensures Sane(At(start, steps, k).rows[id])
  {
    ReachableRowsAreSane(start, steps[..k]);
  }

  function ClaimedAt(db: Db, id: Id): Row
    requires id in db.rows
  {
    Claimed(db.rows[id], db.now)
  }

  lemma AfterClaim(start: Db, steps: seq<Step>, j: nat, id: Id, attempt: int)
    requires j < |steps| && HandsOut(At(start, steps, j), steps[j], id, attempt)
    ensures var db, next := At(start, steps, j), At(start, steps, j + 1);
            id in next.rows && next.rows[id] == ClaimedAt(db, id) && next.now == db.now
  {
    NextAt(start, steps, j);
  }

  lemma ClaimedIsSane(r: Row, now: Time)
    requires Sane(r) && Claimable(r, now)
    ensures Sane(Claimed(r, now)) && Below(FenceOf(r), FenceOf(Claimed(r, now)))
  {
  }

  /** The fence at a position: within that time of the claim at `j`, a settle under its number writes the
      row iff the row is that claim's own and its lease is live. */
  lemma FenceHolds(start: Db, steps: seq<Step>, j: nat, k: nat, id: Id, attempt: int)
    requires SaneDb(start) && OnClock(start, steps, id) && j < k <= |steps|
    requires HandsOut(At(start, steps, j), steps[j], id, attempt)
    requires At(start, steps, k).now < At(start, steps, j).now + REISSUE
    ensures var db, end := At(start, steps, j), At(start, steps, k);
            && id in end.rows
            && (SettleMatches(end.rows[id], attempt, end.now)
                <==> end.rows[id] == ClaimedAt(db, id) && end.now < db.now + LEASE_DURATION)
  {
    hide At, OnClock, Sane, Claimable, SettleMatches;
    var db := At(start, steps, j);
    SaneAt(start, steps, j, id);
    ClaimedIsSane(db.rows[id], db.now);
    AfterClaim(start, steps, j, id, attempt);
    Between(start, steps, j + 1, k, id);
    OneClockBetween(start, steps, j + 1, k, id);
    NumberIsUniqueForAWhile(id, ClaimedAt(db, id), db.now, steps[j + 1..k]);
  }

  // ----------------------------------------------------------------- the lease

  /** The settle at `m` is made by the holder of another claim than the one at `c`, within REISSUE of
      that claim. */
  ghost predicate ByAnother(start: Db, steps: seq<Step>, c: nat, id: Id, m: nat)
    requires m < |steps|
  {
    steps[m].Settle? && steps[m].id == id ==>
      exists j :: 0 <= j < m && j != c && HandsOut(At(start, steps, j), steps[j], id, steps[m].attempt)
                  && At(start, steps, m).now < At(start, steps, j).now + REISSUE
  }

  /** After the claim at `c`, the row is settled only by prompt holders of other claims: what every
      worker does that settles within `REISSUE` of its claim, as a serial batch of at most 13 deliveries
      of 10 s does. */
  ghost predicate OthersArePrompt(start: Db, steps: seq<Step>, c: nat, id: Id) {
    forall m :: c < m < |steps| ==> ByAnother(start, steps, c, id, m)
  }

  lemma ClockOnlyGrows(start: Db, steps: seq<Step>, a: nat, b: nat)
    requires a <= b <= |steps|
    ensures At(start, steps, a).now <= At(start, steps, b).now
    decreases b - a
  {
    if a < b {
      NextAt(start, steps, a);
      ClockOnlyGrows(start, steps, a + 1, b);
    }
  }

  /** A claim made before the one at `c` is not the one whose row it wrote. */
  lemma EarlierClaimIsLower(start: Db, steps: seq<Step>, j: nat, c: nat, id: Id, number: int, attempt: int)
    requires SaneDb(start) && j < c < |steps|
    requires HandsOut(At(start, steps, j), steps[j], id, number)
    requires HandsOut(At(start, steps, c), steps[c], id, attempt)
    ensures ClaimedAt(At(start, steps, j), id) != ClaimedAt(At(start, steps, c), id)
  {
    hide At, Sane, Claimable, Claimed;
    var db, mine := At(start, steps, j), At(start, steps, c);
    AfterClaim(start, steps, j, id, number);
    Between(start, steps, j + 1, c, id);
    FenceNeverFalls(id, ClaimedAt(db, id), db.now, steps[j + 1..c]);
    SaneAt(start, steps, c, id);
    ClaimedIsSane(mine.rows[id], mine.now);
  }

  lemma LeasedRowResists(id: Id, r: Row, now: Time, s: Step)
    requires r.status.Delivering? && r.lease.Some? && now <= r.lease.value
    requires s.Settle? && s.id == id ==> !SettleMatches(r, s.attempt, now)
    ensures RowStep(id, r, now, s) == r
  {
  }

  /** While its lease lasts, a claimed row stays exactly as the claim left it, against every
      interleaving in which the others are prompt: replays and holders from before them included. */
  lemma {:induction false} LeaseHolds(start: Db, steps: seq<Step>, c: nat, id: Id, attempt: int, k: nat)
    requires SaneDb(start) && OnClock(start, steps, id) && OthersArePrompt(start, steps, c, id)
    requires c < k <= |steps| && HandsOut(At(start, steps, c), steps[c], id, attempt)
    requires At(start, steps, k).now <= At(start, steps, c).now + LEASE_DURATION
    ensures id in At(start, steps, k).rows
            && At(start, steps, k).rows[id] == ClaimedAt(At(start, steps, c), id)
    decreases k
  {
    hide At, OnClock, SaneDb;
    AfterClaim(start, steps, c, id, attempt);
    if k > c + 1 {
      var m := k - 1;
      ClockOnlyGrows(start, steps, m, k);
      LeaseHolds(start, steps, c, id, attempt, m);
      var db, mine := At(start, steps, m), ClaimedAt(At(start, steps, c), id);
      if steps[m].Settle? && steps[m].id == id && SettleMatches(mine, steps[m].attempt, db.now) {
        assert ByAnother(start, steps, c, id, m);
        var j :| 0 <= j < m && j != c && HandsOut(At(start, steps, j), steps[j], id, steps[m].attempt)
                 && db.now < At(start, steps, j).now + REISSUE;
        FenceHolds(start, steps, j, m, id, steps[m].attempt);
        if j < c {
          EarlierClaimIsLower(start, steps, j, c, id, steps[m].attempt, attempt);
        } else {
          ClockOnlyGrows(start, steps, j, k);
          LeaseHolds(start, steps, c, id, attempt, j);
        }
        assert false;
      }
      NextAt(start, steps, m);
      LeasedRowResists(id, mine, db.now, steps[m]);
    }
  }
}
