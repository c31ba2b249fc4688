/** The webhook outbox as a state machine over its rows (internal/webhook/store.go).

    Each SQL statement is one atomic step on one database clock. Every statement acts on rows
    one by one, so a step is a function on a row (RowStep) and a run of the table is, row by
    row, a run of RowStep. */
module Outbox {
  import opened Prelude
  import opened Backoff

  type Id = nat

  datatype Status = Pending | Delivering | Delivered | Dead

  /** The closed catalogue of event names, and every other string. */
  datatype Event = InvoiceCreated | InvoiceIssued | InvoicePaid | InvoiceVoided | Unlisted(name: string)

  /** The columns no statement ever writes after the insert. */
  datatype Message = Message(tenant: Id, endpoint: Id, event: Event, eventId: Id, payload: string,
                             traceparent: Option<string>)

  datatype Row = Row(message: Message, status: Status, attempts: int, replays: int, nextAt: Time,
                     lease: Option<Time>, lastError: Option<Outcome>, lastStatus: Option<int>,
                     deliveredAt: Option<Time>)

  datatype Outcome = Response(code: int) | TransportError(msg: string)

  predicate Succeeded(res: Outcome) {
    res.Response? && 200 <= res.code < 300
  }

  function NewRow(m: Message, now: Time): Row {
    Row(m, Pending, 0, 0, now, None, None, None, None)
  }

  predicate Claimable(r: Row, now: Time) {
    || (r.status.Pending? && r.nextAt <= now)
    || (r.status.Delivering? && r.lease.Some? && r.lease.value < now)
  }

  function Claimed(r: Row, now: Time): Row {
    r.(status := Delivering, lease := Some(now + LEASE_DURATION), attempts := r.attempts + 1)
  }

  predicate SettleMatches(r: Row, attempt: int, now: Time) {
    r.status.Delivering? && r.lease.Some? && r.lease.value > now && r.attempts == attempt
  }

  /** The column's CHECK: a status code below 100 or above 599 makes the UPDATE fail. */
  predicate Storable(res: Outcome) {
    res.Response? ==> 100 <= res.code <= 599
  }

  const MAX_PAYLOAD_BYTES := 65536

  function StatusCode(res: Outcome): Option<int> {
    if res.Response? then Some(res.code) else None
  }

  /** What a matching settle writes. `appNow` is the worker's clock, `now` the database's. */
  function Settled(r: Row, attempt: int, res: Outcome, jitter: real, appNow: Time, now: Time): Row {
    var base := r.(lease := None, lastStatus := StatusCode(res),
                   lastError := if Succeeded(res) then None else Some(res));
    if Succeeded(res) then
      base.(status := Delivered, nextAt := appNow, deliveredAt := Some(now))
    else
      match NextDelay(attempt, jitter)
      case None => base.(status := Dead, nextAt := appNow)
      case Some(delay) => base.(status := Pending, nextAt := appNow + delay)
  }

  function Replayed(r: Row, now: Time): Row {
    r.(status := Pending, attempts := 0, replays := r.replays + 1, nextAt := now, lease := None)
  }

  /** One committed statement. A worker that dies simply takes no further step. */
  datatype Step =
    | Tick(d: nat)
    | Enqueue(added: map<Id, Message>)
    | Claim(picks: set<Id>)
    | Settle(id: Id, attempt: int, res: Outcome, jitter: real, appNow: Time)
    | Replay(tenant: Id, id: Id)

  function RowStep(id: Id, r: Row, now: Time, s: Step): Row {
    match s
    case Tick(_) => r
    case Enqueue(_) => r
    case Claim(picks) => if id in picks && Claimable(r, now) then Claimed(r, now) else r
    case Settle(target, attempt, res, jitter, appNow) =>
      if id == target && attempt > 0 && SettleMatches(r, attempt, now) && Storable(res)
      then Settled(r, attempt, res, jitter, appNow, now) else r
    case Replay(tenant, target) =>
      if id == target && r.message.tenant == tenant && r.status.Dead? then Replayed(r, now) else r
  }

  function Later(now: Time, s: Step): Time {
    if s.Tick? then now + s.d else now
  }

  function RowRun(id: Id, r: Row, now: Time, steps: seq<Step>): Row
    decreases |steps|
  {
    if steps == [] then r else RowRun(id, RowStep(id, r, now, steps[0]), Later(now, steps[0]), steps[1..])
  }

  function ClockRun(now: Time, steps: seq<Step>): (t: Time)
    ensures t >= now
    decreases |steps|
  {
    if steps == [] then now else ClockRun(Later(now, steps[0]), steps[1..])
  }

  datatype Db = Db(rows: map<Id, Row>, now: Time)

  function Inserted(rows: map<Id, Row>, added: map<Id, Message>, now: Time): map<Id, Row> {
    map id | id in added.Keys - rows.Keys :: NewRow(added[id], now)
  }

  function Apply(db: Db, s: Step): Db {
    var stepped := map id | id in db.rows :: RowStep(id, db.rows[id], db.now, s);
    Db(if s.Enqueue? then Inserted(db.rows, s.added, db.now) + stepped else stepped, Later(db.now, s))
  }

  function Run(db: Db, steps: seq<Step>): Db
    decreases |steps|
  {
    if steps == [] then db else Run(Apply(db, steps[0]), steps[1..])
  }

  /** A run of the table is, row by row, a run of each row: no row is lost, none interferes. */
  lemma {:induction false} RunIsRowwise(db: Db, steps: seq<Step>, id: Id)
    requires id in db.rows
    ensures Run(db, steps).now == ClockRun(db.now, steps)
    ensures id in Run(db, steps).rows
    ensures Run(db, steps).rows[id] == RowRun(id, db.rows[id], db.now, steps)
    decreases |steps|
  {
    if steps != [] {
      RunIsRowwise(Apply(db, steps[0]), steps[1..], id);
    }
  }

  lemma {:induction false} RunAppend(db: Db, a: seq<Step>, b: seq<Step>)
    ensures Run(db, a + b) == Run(Run(db, a), b)
    decreases |a|
  {
    hide Apply;
    if a == [] {
      assert a + b == b;
    } else {
      assert (a + b)[1..] == a[1..] + b;
      RunAppend(Apply(db, a[0]), a[1..], b);
    }
  }

  lemma {:induction false} RowRunAppend(id: Id, r: Row, now: Time, a: seq<Step>, b: seq<Step>)
    ensures ClockRun(now, a + b) == ClockRun(ClockRun(now, a), b)
    ensures RowRun(id, r, now, a + b) == RowRun(id, RowRun(id, r, now, a), ClockRun(now, a), b)
    decreases |a|
  {
    if a == [] {
      assert a + b == b;
    } else {
      assert (a + b)[1..] == a[1..] + b;
      RowRunAppend(id, RowStep(id, r, now, a[0]), Later(now, a[0]), a[1..], b);
    }
  }

  // ---------------------------------------------------------------- the fence

  /** The fencing token a claim hands out: the attempt number within a replay epoch. */
  datatype Fence = Fence(epoch: int, attempt: int)

  function FenceOf(r: Row): Fence { Fence(r.replays, r.attempts) }

  predicate Below(f: Fence, g: Fence) {
    f.epoch < g.epoch || (f.epoch == g.epoch && f.attempt < g.attempt)
  }

  predicate AtMost(f: Fence, g: Fence) { f == g || Below(f, g) }

  lemma {:induction false} FenceNeverFalls(id: Id, r: Row, now: Time, steps: seq<Step>)
    ensures AtMost(FenceOf(r), FenceOf(RowRun(id, r, now, steps)))
    decreases |steps|
  {
    if steps != [] {
      FenceNeverFalls(id, RowStep(id, r, now, steps[0]), Later(now, steps[0]), steps[1..]);
    }
  }

  /** Only a claim makes a row delivering, and every claim raises the fence. */
  lemma {:induction false} DeliveringAgainMeansHigherFence(id: Id, r: Row, now: Time, steps: seq<Step>)
    requires !r.status.Delivering?
    ensures RowRun(id, r, now, steps).status.Delivering?
            ==> Below(FenceOf(r), FenceOf(RowRun(id, r, now, steps)))
    decreases |steps|
  {
    if steps != [] {
      var r1, now1 := RowStep(id, r, now, steps[0]), Later(now, steps[0]);
      if r1.status.Delivering? {
        FenceNeverFalls(id, r1, now1, steps[1..]);
      } else {
        DeliveringAgainMeansHigherFence(id, r1, now1, steps[1..]);
      }
    }
  }

  /** A delivering row with an unchanged fence is the very row the claim wrote. */
  lemma {:induction false} FenceIdentifiesRow(id: Id, r: Row, now: Time, steps: seq<Step>)
    requires r.status.Delivering?
    ensures var end := RowRun(id, r, now, steps);
            end.status.Delivering? && FenceOf(end) == FenceOf(r) ==> end == r
    decreases |steps|
  {
    if steps != [] {
      var r1, now1 := RowStep(id, r, now, steps[0]), Later(now, steps[0]);
      if r1 == r {
        FenceIdentifiesRow(id, r, now1, steps[1..]);
      } else if r1.status.Delivering? {
        FenceNeverFalls(id, r1, now1, steps[1..]);
      } else {
        DeliveringAgainMeansHigherFence(id, r1, now1, steps[1..]);
      }
    }
  }

  /** The fencing theorem. Whatever happens to the table after a claim, a settle carrying that
      claim's attempt number writes the row exactly when the row is still the one the claim
      wrote and its lease is live, provided the row was not replayed since. The replay count
      decides: a settle that matches is writing its own claim's row iff the count is unchanged. */
  lemma SettleHitsOwnClaim(db: Db, picks: set<Id>, id: Id, steps: seq<Step>)
    requires id in db.rows && id in picks && Claimable(db.rows[id], db.now)
    ensures var mine := Claimed(db.rows[id], db.now);
            var end := Run(Apply(db, Claim(picks)), steps);
            && id in end.rows
            && (end.rows[id].replays == mine.replays ==>
                  (SettleMatches(end.rows[id], mine.attempts, end.now)
                   <==> end.rows[id] == mine && end.now < db.now + LEASE_DURATION))
            && (SettleMatches(end.rows[id], mine.attempts, end.now) ==>
                  (end.rows[id] == mine <==> end.rows[id].replays == mine.replays))
  {
    var start := Apply(db, Claim(picks));
    RunIsRowwise(start, steps, id);
    FenceIdentifiesRow(id, start.rows[id], start.now, steps);
  }

  /** At this instant the claim with fence `f` owns the row. */
  predicate Owns(f: Fence, r: Row, now: Time) {
    FenceOf(r) == f && SettleMatches(r, f.attempt, now)
  }

  /** Two claims of one row never own it together: a later claim outranks every earlier one for
      good, and it was only possible because the earlier one had settled or let its lease lapse. */
  lemma OneOwnerAtATime(id: Id, first: Row, now: Time, between: seq<Step>, after: seq<Step>)
    requires first.status.Delivering? && first.lease.Some?
    requires Claimable(RowRun(id, first, now, between), ClockRun(now, between))
    ensures var t := ClockRun(now, between);
            var r := RowRun(id, first, now, between);
            var second := Claimed(r, t);
            && Below(FenceOf(first), FenceOf(second))
            && (r != first || first.lease.value < t)
            && !Owns(FenceOf(first), r, t)
            && !Owns(FenceOf(first), RowRun(id, second, t, after), ClockRun(t, after))
  {
    FenceNeverFalls(id, first, now, between);
    var t := ClockRun(now, between);
    FenceNeverFalls(id, Claimed(RowRun(id, first, now, between), t), t, after);
  }

  const LAPSE: seq<Step> := [Tick(61 * SECOND), Claim({0})]

  /** One dead worker: the lease lapses and the row is claimed again. */
  lemma LapseStep(r: Row, now: Time)
    requires r.status.Delivering? && r.lease.Some? && r.lease.value <= now + LEASE_DURATION
    ensures ClockRun(now, LAPSE) == now + 61 * SECOND
    ensures RowRun(0, r, now, LAPSE) == Claimed(r, now + 61 * SECOND)
  {
    assert LAPSE[1..] == [Claim({0})];
    assert [Claim({0})][1..] == [];
    assert RowRun(0, r, now + 61 * SECOND, [Claim({0})]) == Claimed(r, now + 61 * SECOND);
  }

  /** Without the replay hypothesis the fence fails: the attempt number is reissued, so a worker
      from before the replay settles a row that belongs to a claim made after it. */
  lemma ReplayReissuesTheAttemptNumber(m: Message) returns (mine: Row, steps: seq<Step>)
    ensures mine == Claimed(NewRow(m, 0), 0)
    ensures var end := RowRun(0, mine, 0, steps);
            SettleMatches(end, mine.attempts, ClockRun(0, steps)) && end.replays == 1 && end != mine
  {
    mine := Claimed(NewRow(m, 0), 0);
    var r, now := mine, 0;
    steps := [];
    for i := 0 to 5
      invariant r == RowRun(0, mine, 0, steps) && now == ClockRun(0, steps)
      invariant r.status.Delivering? && r.lease == Some(now + LEASE_DURATION)
      invariant r.attempts == i + 1 && r.replays == 0 && r.message == m
    {
      LapseStep(r, now);
      RowRunAppend(0, mine, 0, steps, LAPSE);
      steps := steps + LAPSE;
      r, now := Claimed(r, now + 61 * SECOND), now + 61 * SECOND;
    }
    var tail := [Settle(0, 6, Response(500), 0.0, now), Replay(m.tenant, 0), Claim({0})];
    var dead := RowStep(0, r, now, tail[0]);
    var again := RowStep(0, dead, now, tail[1]);
    assert tail[1..] == [tail[1], tail[2]] && tail[1..][1..] == [tail[2]] && [tail[2]][1..] == [];
    assert RowRun(0, again, now, [tail[2]]) == Claimed(again, now);
    assert RowRun(0, dead, now, tail[1..]) == Claimed(again, now);
    assert RowRun(0, r, now, tail) == Claimed(again, now);
    assert ClockRun(now, tail) == ClockRun(now, tail[1..]) == ClockRun(now, [tail[2]]) == now;
    RowRunAppend(0, mine, 0, steps, tail);
    steps := steps + tail;
  }

  // ------------------------------------------------------------ the lifecycle

  /** What every row of a reachable table satisfies. */
  predicate Sane(r: Row) {
    && r.attempts >= 0 && r.replays >= 0
    && (r.status.Pending? ==> r.attempts < MAX_ATTEMPTS)
    && (r.status.Dead? ==> r.attempts >= MAX_ATTEMPTS)
    && (r.status.Delivering? ==> r.attempts >= 1)
    && (r.status.Delivering? <==> r.lease.Some?)
    && (r.status.Delivered? <==> r.deliveredAt.Some?)
  }

  lemma StepKeepsSane(id: Id, r: Row, now: Time, s: Step)
    requires Sane(r)
    ensures Sane(RowStep(id, r, now, s))
  {
  }

  lemma NewRowIsSane(m: Message, now: Time)
    ensures Sane(NewRow(m, now))
  {
  }

  lemma {:induction false} ReachableRowsAreSane(db: Db, steps: seq<Step>)
    requires forall id :: id in db.rows ==> Sane(db.rows[id])
    ensures forall id :: id in Run(db, steps).rows ==> Sane(Run(db, steps).rows[id])
    decreases |steps|
  {
    hide RowStep, Sane;
    if steps != [] {
      forall id | id in Apply(db, steps[0]).rows ensures Sane(Apply(db, steps[0]).rows[id]) {
        if id in db.rows {
          StepKeepsSane(id, db.rows[id], db.now, steps[0]);
        } else {
          NewRowIsSane(steps[0].added[id], db.now);
        }
      }
      ReachableRowsAreSane(Apply(db, steps[0]), steps[1..]);
    }
  }

  /** The message of a row is frozen at the enqueue, and a delivered row is frozen altogether. */
  lemma {:induction false} DeliveredIsFinal(id: Id, r: Row, now: Time, steps: seq<Step>)
    ensures RowRun(id, r, now, steps).message == r.message
    ensures r.status.Delivered? ==> RowRun(id, r, now, steps) == r
    decreases |steps|
  {
    if steps != [] {
      DeliveredIsFinal(id, RowStep(id, r, now, steps[0]), Later(now, steps[0]), steps[1..]);
    }
  }

  /** A settle writes the row iff it matches and its status code can be stored. */
  lemma SettleWritesIff(db: Db, s: Step)
    requires s.Settle? && s.id in db.rows
    ensures Apply(db, s).rows[s.id] != db.rows[s.id]
            <==> s.attempt > 0 && SettleMatches(db.rows[s.id], s.attempt, db.now) && Storable(s.res)
  {
  }

  /** The receiver of the row has only ever answered with codes that cannot be stored. */
  predicate OnlyUnstorable(id: Id, steps: seq<Step>) {
    forall i :: 0 <= i < |steps| && steps[i].Settle? && steps[i].id == id ==> !Storable(steps[i].res)
  }

  predicate Unfinished(r: Row) { r.status.Pending? || r.status.Delivering? }

  /** A row that gets only such answers never ends, neither delivered nor dead, over any run: it is
      claimed again whenever its lease lapses, and its attempts count the claims without limit. */
  lemma {:induction false} UnstorableNeverEnds(id: Id, r: Row, now: Time, steps: seq<Step>)
    requires Sane(r) && Unfinished(r) && OnlyUnstorable(id, steps)
    ensures var end := RowRun(id, r, now, steps);
            Unfinished(end) && end.replays == r.replays && end.attempts == r.attempts + ClaimsOf(id, r, now, steps)
    decreases |steps|
  {
    if steps != [] {
      StepKeepsSane(id, r, now, steps[0]);
      assert OnlyUnstorable(id, steps[1..]) by {
        assert forall i :: 0 <= i < |steps[1..]| ==> steps[1..][i] == steps[i + 1];
      }
      UnstorableNeverEnds(id, RowStep(id, r, now, steps[0]), Later(now, steps[0]), steps[1..]);
    }
  }

  /** The holder's settle of an answer 999, and the next claim once the lease has lapsed. */
  function Refused(attempt: int, now: Time): seq<Step> {
    [Settle(0, attempt, Response(999), 0.0, now), Tick(61 * SECOND), Claim({0})]
  }

  lemma RefusedStep(r: Row, now: Time)
    requires r.status.Delivering? && r.lease.Some? && r.lease.value <= now + LEASE_DURATION
    ensures ClockRun(now, Refused(r.attempts, now)) == now + 61 * SECOND
    ensures RowRun(0, r, now, Refused(r.attempts, now)) == Claimed(r, now + 61 * SECOND)
  {
    var steps := Refused(r.attempts, now);
    LapseStep(r, now);
    assert steps[1..] == LAPSE;
    assert RowStep(0, r, now, steps[0]) == r;
  }

  /** So no number of attempts ends it: for every n there is a run of answers after which the row is
      being delivered for the n-th time. */
  lemma AttemptsWithoutEnd(m: Message, n: nat) returns (steps: seq<Step>)
    requires n >= 1
    ensures OnlyUnstorable(0, steps)
    ensures var end := RowRun(0, NewRow(m, 0), 0, steps); end.status.Delivering? && end.attempts == n
  {
    var r, now := Claimed(NewRow(m, 0), 0), 0;
    steps := [Claim({0})];
    assert RowRun(0, NewRow(m, 0), 0, steps) == r && ClockRun(0, steps) == 0 by {
      assert steps[1..] == [];
    }
    for i := 1 to n
      invariant OnlyUnstorable(0, steps)
      invariant r == RowRun(0, NewRow(m, 0), 0, steps) && now == ClockRun(0, steps)
      invariant r.status.Delivering? && r.lease == Some(now + LEASE_DURATION) && r.attempts == i
    {
      RefusedStep(r, now);
      RowRunAppend(0, NewRow(m, 0), 0, steps, Refused(i, now));
      steps := steps + Refused(i, now);
      r, now := Claimed(r, now + 61 * SECOND), now + 61 * SECOND;
    }
  }

  /** The first instant from which an unfinished row can be claimed. */
  function WakeTime(r: Row): Time
    requires r.status.Pending? || (r.status.Delivering? && r.lease.Some?)
  {
    if r.status.Pending? then r.nextAt else r.lease.value + 1
  }

  /** Delayed, never lost: an unfinished row that nobody touches is claimable from its wake time
      on, and not before; a finished row never is. */
  lemma UnfinishedIsClaimable(r: Row, now: Time)
    requires Sane(r)
    ensures Claimable(r, now)
            <==> (r.status.Pending? || r.status.Delivering?) && WakeTime(r) <= now
  {
  }

  function ClaimsOf(id: Id, r: Row, now: Time, steps: seq<Step>): nat
    decreases |steps|
  {
    if steps == [] then 0
    else (if steps[0].Claim? && id in steps[0].picks && Claimable(r, now) then 1 else 0)
         + ClaimsOf(id, RowStep(id, r, now, steps[0]), Later(now, steps[0]), steps[1..])
  }

  /** The step claims the row from a holder whose lease lapsed unsettled. */
  predicate TakesLapsed(id: Id, r: Row, now: Time, s: Step) {
    s.Claim? && id in s.picks && Claimable(r, now) && r.status.Delivering?
  }

  predicate NoLeaseLost(id: Id, r: Row, now: Time, steps: seq<Step>)
    decreases |steps|
  {
    steps != [] ==>
      && !TakesLapsed(id, r, now, steps[0])
      && NoLeaseLost(id, RowStep(id, r, now, steps[0]), Later(now, steps[0]), steps[1..])
  }

  /** Within an epoch the attempt counter counts the claims exactly; if every claim settles in
      time, `6 - attempts` is a termination measure and no epoch takes more than six. */
  lemma {:induction false} AttemptsCountClaims(id: Id, r: Row, now: Time, steps: seq<Step>)
    requires Sane(r)
    requires RowRun(id, r, now, steps).replays == r.replays
    ensures RowRun(id, r, now, steps).attempts == r.attempts + ClaimsOf(id, r, now, steps)
    ensures NoLeaseLost(id, r, now, steps) && r.attempts <= MAX_ATTEMPTS
            ==> r.attempts + ClaimsOf(id, r, now, steps) <= MAX_ATTEMPTS
    decreases |steps|
  {
    if steps != [] {
      var r1, now1 := RowStep(id, r, now, steps[0]), Later(now, steps[0]);
      FenceNeverFalls(id, r1, now1, steps[1..]);
      AttemptsCountClaims(id, r1, now1, steps[1..]);
    }
  }

  predicate SettlesOnClock(id: Id, now: Time, s: Step) {
    s.Settle? && s.id == id ==> s.appNow == now
  }

  /** Each settle of the row reads the time off the database's clock. */
  predicate OneClock(id: Id, now: Time, steps: seq<Step>)
    decreases |steps|
  {
    steps != [] ==>
      && SettlesOnClock(id, now, steps[0])
      && OneClock(id, Later(now, steps[0]), steps[1..])
  }

  /** The row is no further along its schedule than the time since `t0` allows. */
  predicate OnSchedule(r: Row, now: Time, t0: Time, lossy: bool) {
    && (r.status.Pending? ==> r.nextAt >= t0 + LeastWait(r.attempts, lossy))
    && (r.status.Delivering? ==>
          && now >= t0 + LeastWait(r.attempts - 1, lossy)
          && r.lease.Some? && r.lease.value >= t0 + LeastWait(r.attempts - 1, lossy) + LEASE_DURATION)
    && (r.status.Dead? ==> now >= t0 + LeastWait(MAX_ATTEMPTS - 1, lossy))
  }

  lemma ClaimKeepsSchedule(r: Row, now: Time, t0: Time, lossy: bool)
    requires Sane(r) && OnSchedule(r, now, t0, lossy) && Claimable(r, now)
    requires lossy || r.status.Pending?
    ensures OnSchedule(Claimed(r, now), now, t0, lossy)
  {
    if r.status.Delivering? {
      LeastWaitStep(r.attempts, lossy);
    }
  }

  lemma SettleKeepsSchedule(r: Row, res: Outcome, jitter: real, now: Time, t0: Time, lossy: bool)
    requires Sane(r) && OnSchedule(r, now, t0, lossy) && r.status.Delivering?
    ensures OnSchedule(Settled(r, r.attempts, res, jitter, now, now), now, t0, lossy)
  {
    hide LeastWait, LeastGap, NextDelay, NominalBackoff;
    var n := r.attempts;
    if !Succeeded(res) {
      LeastWaitStep(n, lossy);
      if n >= MAX_ATTEMPTS {
        LeastWaitStep(n - 1, lossy);
      } else {
        assert LeastGap(n, lossy) <= NextDelay(n, jitter).value;
      }
    }
  }

  lemma StepKeepsSchedule(id: Id, r: Row, now: Time, s: Step, t0: Time, lossy: bool)
    requires Sane(r) && OnSchedule(r, now, t0, lossy)
    requires SettlesOnClock(id, now, s)
    requires lossy || !TakesLapsed(id, r, now, s)
    requires RowStep(id, r, now, s).replays == r.replays
    ensures OnSchedule(RowStep(id, r, now, s), Later(now, s), t0, lossy)
  {
    match s
    case Claim(picks) =>
      if id in picks && Claimable(r, now) {
        ClaimKeepsSchedule(r, now, t0, lossy);
      }
    case Settle(target, attempt, res, jitter, _) =>
      if id == target && SettleMatches(r, attempt, now) && Storable(res) {
        SettleKeepsSchedule(r, res, jitter, now, t0, lossy);
      }
    case _ =>
  }

  lemma {:induction false} RunKeepsSchedule(id: Id, r: Row, now: Time, steps: seq<Step>, t0: Time, lossy: bool)
    requires Sane(r) && OnSchedule(r, now, t0, lossy)
    requires OneClock(id, now, steps)
    requires lossy || NoLeaseLost(id, r, now, steps)
    requires RowRun(id, r, now, steps).replays == r.replays
    ensures OnSchedule(RowRun(id, r, now, steps), ClockRun(now, steps), t0, lossy)
    decreases |steps|
  {
    if steps != [] {
      var s := steps[0];
      var r1, now1 := RowStep(id, r, now, s), Later(now, s);
      FenceNeverFalls(id, r1, now1, steps[1..]);
      StepKeepsSchedule(id, r, now, s, t0, lossy);
      StepKeepsSane(id, r, now, s);
      RunKeepsSchedule(id, r1, now1, steps[1..], t0, lossy);
    }
  }

  /** No delivery dies early. On one clock, a row whose epoch opened at `t0` (by its enqueue or by
      a replay) is not dead before `t0 + 138 s` and two ticks however many workers crash, and not before
      `t0 + 1968 s` if every claim settles within its lease. */
  lemma DeathIsNotEarly(id: Id, r: Row, t0: Time, steps: seq<Step>)
    requires Sane(r) && r.status.Pending? && r.attempts == 0 && r.nextAt == t0
    requires OneClock(id, t0, steps)
    requires RowRun(id, r, t0, steps).replays == r.replays
    requires RowRun(id, r, t0, steps).status.Dead?
    ensures ClockRun(t0, steps) >= t0 + 138 * SECOND + 2
    ensures NoLeaseLost(id, r, t0, steps) ==> ClockRun(t0, steps) >= t0 + 1968 * SECOND
  {
    RunKeepsSchedule(id, r, t0, steps, t0, true);
    LeastWaitTotal(true);
    if NoLeaseLost(id, r, t0, steps) {
      RunKeepsSchedule(id, r, t0, steps, t0, false);
      LeastWaitTotal(false);
    }
  }
}
