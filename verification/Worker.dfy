/** The outbox worker: one poll delivers a claimed batch serially under the leases it took at the
    start (internal/webhook/worker.go). */
module Worker {
  import opened Prelude
  import opened Backoff
  import opened Outbox
  import opened OutboxStore
  import opened Fence

  /** One HTTP attempt: what it returned, and what the rest of the system did while it ran. */
  datatype Delivery = Delivery(res: Outcome, jitter: real, appNow: Time, meanwhile: seq<Step>)

  function Duration(d: Delivery): Time { ClockRun(0, d.meanwhile) }

  lemma {:induction false} ClockShift(now: Time, d: Time, steps: seq<Step>)
    ensures ClockRun(now + d, steps) == ClockRun(now, steps) + d
    decreases |steps|
  {
    if steps != [] {
      ClockShift(Later(now, steps[0]), d, steps[1..]);
    }
  }

  lemma {:induction false} RunClock(db: Db, steps: seq<Step>)
    ensures Run(db, steps).now == ClockRun(db.now, steps)
    decreases |steps|
  {
    if steps != [] {
      RunClock(Apply(db, steps[0]), steps[1..]);
    }
  }

  predicate Settled(r: SettleResult) { r.Recorded? || r.DeadLettered? }

  // ------------------------------------------------------------- the trace of a poll

  function SettleOf(due: Due, d: Delivery): Step { Step.Settle(due.id, due.attempt, d.res, d.jitter, d.appNow) }

  /** Everything committed up to the start of delivery `i`: what came before the poll, its claim, and
      for each earlier item what others did meanwhile and the item's settle. */
  function Trace(past: seq<Step>, batch: seq<Due>, deliver: nat -> Delivery, i: nat): seq<Step>
    requires i <= |batch|
    decreases i, 0
  {
    if i == 0 then past + [Step.Claim(IdsOf(batch))]
    else UpToSettle(past, batch, deliver, i - 1) + [SettleOf(batch[i - 1], deliver(i - 1))]
  }

  /** The same up to the settle of item `i`. */
  function UpToSettle(past: seq<Step>, batch: seq<Due>, deliver: nat -> Delivery, i: nat): seq<Step>
    requires i < |batch|
    decreases i, 1
  {
    Trace(past, batch, deliver, i) + deliver(i).meanwhile
  }

  /** The time the first `n` deliveries take. */
  function Elapsed(deliver: nat -> Delivery, n: nat): Time {
    if n == 0 then 0 else Elapsed(deliver, n - 1) + Duration(deliver(n - 1))
  }

  /** The time from the claim to the settle of item `i`. */
  function Taken(deliver: nat -> Delivery, i: nat): Time { Elapsed(deliver, i + 1) }

  lemma {:induction false} TraceExtendsClaim(past: seq<Step>, batch: seq<Due>, deliver: nat -> Delivery, i: nat)
    requires i <= |batch|
    ensures past + [Step.Claim(IdsOf(batch))] <= Trace(past, batch, deliver, i)
    decreases i
  {
    if i > 0 {
      TraceExtendsClaim(past, batch, deliver, i - 1);
    }
  }

  lemma {:induction false} TraceClock(start: Db, past: seq<Step>, batch: seq<Due>, deliver: nat -> Delivery, i: nat)
    requires i <= |batch|
    ensures Run(start, Trace(past, batch, deliver, i)).now == Run(start, past).now + Elapsed(deliver, i)
    ensures i < |batch| ==>
              Run(start, UpToSettle(past, batch, deliver, i)).now == Run(start, past).now + Elapsed(deliver, i + 1)
    decreases i
  {
    hide Apply;
    if i == 0 {
      RunAppend(start, past, [Step.Claim(IdsOf(batch))]);
      RunClock(Run(start, past), [Step.Claim(IdsOf(batch))]);
    } else {
      var before, last := UpToSettle(past, batch, deliver, i - 1), [SettleOf(batch[i - 1], deliver(i - 1))];
      TraceClock(start, past, batch, deliver, i - 1);
      RunAppend(start, before, last);
      RunClock(Run(start, before), last);
    }
    if i < |batch| {
      var trace := Trace(past, batch, deliver, i);
      RunAppend(start, trace, deliver(i).meanwhile);
      RunClock(Run(start, trace), deliver(i).meanwhile);
      ClockShift(0, Run(start, trace).now, deliver(i).meanwhile);
    }
  }

  // ------------------------------------------------------------- one item of a batch

  /** Whether item `i` still owns its row when it settles. */
  ghost predicate OwnsAtSettle(start: Db, past: seq<Step>, batch: seq<Due>, deliver: nat -> Delivery, i: nat)
    requires i < |batch|
  {
    var db := Run(start, UpToSettle(past, batch, deliver, i));
    batch[i].id in db.rows && SettleMatches(db.rows[batch[i].id], batch[i].attempt, db.now)
  }

  /** What a worker learns from its settle: it is recorded iff it still owns the row and the status can
      be stored; owning the row alone, it fails and the row keeps its lease. */
  ghost predicate Answers(start: Db, past: seq<Step>, batch: seq<Due>, deliver: nat -> Delivery, i: nat,
                          r: SettleResult)
    requires i < |batch|
  {
    var owns, storable := OwnsAtSettle(start, past, batch, deliver, i), Storable(deliver(i).res);
    && (Settled(r) <==> owns && storable) && (r.Failed? <==> owns && !storable) && (r.LeaseLost? <==> !owns)
    && Wrote(Run(start, UpToSettle(past, batch, deliver, i)), Run(start, Trace(past, batch, deliver, i + 1)),
             batch[i], deliver(i), r)
  }

  /** What the settle leaves: the row as the receiver's answer dictates, or nothing new at all. */
  ghost predicate Wrote(before: Db, after: Db, due: Due, d: Delivery, r: SettleResult) {
    if Settled(r) then
      && due.id in before.rows && due.id in after.rows && after.rows == before.rows[due.id := after.rows[due.id]]
      && Reflects(before.rows[due.id], after.rows[due.id], due.attempt, d.res, d.jitter, d.appNow, before.now)
    else after.rows == before.rows
  }

  /** Item `i` settles within its lease iff the deliveries up to its own took less than the lease: on one
      clock, while others settle within REISSUE of their own claims, and as long as its own time stays
      below REISSUE. (That a lease that lapsed is lost needs nothing of the others.) */
  lemma ItemOwnsIff(start: Db, past: seq<Step>, batch: seq<Due>, deliver: nat -> Delivery, i: nat)
    requires SaneDb(start) && i < |batch|
    requires HandsOut(Run(start, past), Step.Claim(IdsOf(batch)), batch[i].id, batch[i].attempt)
    requires OnClock(start, UpToSettle(past, batch, deliver, i), batch[i].id)
    requires Taken(deliver, i) < REISSUE
    ensures Taken(deliver, i) >= LEASE_DURATION ==> !OwnsAtSettle(start, past, batch, deliver, i)
    ensures Taken(deliver, i) < LEASE_DURATION
            && OthersArePrompt(start, UpToSettle(past, batch, deliver, i), |past|, batch[i].id)
            ==> OwnsAtSettle(start, past, batch, deliver, i)
  {
    hide OnClock, OthersArePrompt, SettleMatches, Trace, Elapsed, Run, HandsOut;
    var steps, c := UpToSettle(past, batch, deliver, i), |past|;
    var id, attempt := batch[i].id, batch[i].attempt;
    TraceExtendsClaim(past, batch, deliver, i);
    TraceClock(start, past, batch, deliver, i);
    assert steps[..c] == past && steps[c] == Step.Claim(IdsOf(batch)) && steps[..|steps|] == steps;
    FenceHolds(start, steps, c, |steps|, id, attempt);
    if Taken(deliver, i) < LEASE_DURATION && OthersArePrompt(start, steps, c, id) {
      LeaseHolds(start, steps, c, id, attempt, |steps|);
    }
  }

  /** The result that the times of the batch dictate. */
  ghost predicate AsTimed(start: Db, past: seq<Step>, batch: seq<Due>, deliver: nat -> Delivery, i: nat,
                          r: SettleResult)
    requires i < |batch|
  {
    var steps := UpToSettle(past, batch, deliver, i);
    OnClock(start, steps, batch[i].id) && Taken(deliver, i) < REISSUE ==>
      && (Taken(deliver, i) >= LEASE_DURATION ==> r.LeaseLost?)
      && (Taken(deliver, i) < LEASE_DURATION && OthersArePrompt(start, steps, |past|, batch[i].id) ==>
            if Storable(deliver(i).res) then Settled(r) else r.Failed?)
  }

  lemma ItemIsAsTimed(start: Db, past: seq<Step>, batch: seq<Due>, deliver: nat -> Delivery, i: nat, r: SettleResult)
    requires SaneDb(start) && i < |batch| && Fresh(start, past, batch)
    requires Answers(start, past, batch, deliver, i, r)
    ensures AsTimed(start, past, batch, deliver, i, r)
  {
    hide OnClock, OthersArePrompt, OwnsAtSettle, Taken, UpToSettle, Fresh, SaneDb, Settled;
    AttemptIsPositive(start, past, batch, i);
    if OnClock(start, UpToSettle(past, batch, deliver, i), batch[i].id) && Taken(deliver, i) < REISSUE {
      ItemOwnsIff(start, past, batch, deliver, i);
    }
  }

  /** One poll, against every interleaving: `start` and `past` are any state and any run that led to the
      table it finds. Item by item, what its settle answers depends on whether it still owns its row
      (Answers), which the times of the batch decide (AsTimed). */
  method Poll(store: Store, batchSize: int, locked: set<Id>, deliver: nat -> Delivery, ghost start: Db,
              ghost past: seq<Step>)
    returns (batch: seq<Due>, results: seq<SettleResult>)
    requires SaneDb(start) && store.Table() == Run(start, past)
    modifies store
    ensures |results| == |batch| && store.Table() == Run(start, Trace(past, batch, deliver, |batch|))
    ensures Fresh(start, past, batch)
    ensures forall i :: 0 <= i < |batch| ==> Answers(start, past, batch, deliver, i, results[i])
    ensures |batch| <= if batchSize <= 0 then 10 else batchSize
    ensures var found := Run(start, past);
            forall id :: id in found.rows && id !in locked && IsDue(found.rows[id], found.now) && id !in IdsOf(batch)
              ==> |batch| == if batchSize <= 0 then 10 else batchSize
    ensures forall i :: 0 <= i < |batch| ==> AsTimed(start, past, batch, deliver, i, results[i])
  {
    batch := store.Claim(batchSize, locked);
    ClaimIsFresh(start, past, batch);
    RunAppend(start, past, [Step.Claim(IdsOf(batch))]);
    assert [Step.Claim(IdsOf(batch))][1..] == [];
    assert store.Table() == Run(start, Trace(past, batch, deliver, 0));
    hide Apply, Run, Answers, AsTimed, DueSet, Fresh, Claimed, Claimable, SaneDb, IdsOf, Trace, Settled, IsDue, Leased,
         WakesFirst;
    results := DeliverAll(store, batch, deliver, start, past);
    forall i | 0 <= i < |batch| ensures AsTimed(start, past, batch, deliver, i, results[i]) {
      ItemIsAsTimed(start, past, batch, deliver, i, results[i]);
    }
  }

  /** The loop over a claimed batch. */
  method DeliverAll(store: Store, batch: seq<Due>, deliver: nat -> Delivery, ghost start: Db, ghost past: seq<Step>)
    returns (results: seq<SettleResult>)
    requires SaneDb(start) && Fresh(start, past, batch)
    requires store.Table() == Run(start, Trace(past, batch, deliver, 0))
    modifies store
    ensures |results| == |batch| && store.Table() == Run(start, Trace(past, batch, deliver, |batch|))
    ensures forall i :: 0 <= i < |batch| ==> Answers(start, past, batch, deliver, i, results[i])
  {
    hide Run, Answers, Fresh, SaneDb, Trace;
    results := [];
    for i := 0 to |batch|
      invariant |results| == i && store.Table() == Run(start, Trace(past, batch, deliver, i))
      invariant forall j :: 0 <= j < i ==> Answers(start, past, batch, deliver, j, results[j])
    {
      AttemptIsPositive(start, past, batch, i);
      var r := Attempt(store, batch, i, deliver, start, past);
      results := results + [r];
    }
  }

  /** Deliver once and settle. */
  method Attempt(store: Store, batch: seq<Due>, i: nat, deliver: nat -> Delivery, ghost start: Db,
                 ghost past: seq<Step>) returns (r: SettleResult)
    requires i < |batch| && batch[i].attempt > 0
    requires store.Table() == Run(start, Trace(past, batch, deliver, i))
    modifies store
    ensures store.Table() == Run(start, Trace(past, batch, deliver, i + 1))
    ensures Answers(start, past, batch, deliver, i, r)
  {
    var d := deliver(i);
    hide Apply;
    RunAppend(start, Trace(past, batch, deliver, i), d.meanwhile);
    RunAppend(start, UpToSettle(past, batch, deliver, i), [SettleOf(batch[i], d)]);
    assert [SettleOf(batch[i], d)][1..] == [];
    store.Others(d.meanwhile);
    r := store.Settle(batch[i], d.res, d.jitter, d.appNow);
  }

  predicate NoneTwice(batch: seq<Due>) {
    forall i, j :: 0 <= i < j < |batch| ==> batch[i].id != batch[j].id
  }

  /** Each item of the batch was handed out by the claim, to this worker alone. */
  ghost predicate Fresh(start: Db, past: seq<Step>, batch: seq<Due>) {
    && (forall i :: 0 <= i < |batch| ==>
          HandsOut(Run(start, past), Step.Claim(IdsOf(batch)), batch[i].id, batch[i].attempt))
    && NoneTwice(batch)
  }

  lemma ClaimIsFresh(start: Db, past: seq<Step>, batch: seq<Due>)
    requires IdsOf(batch) <= DueSet(Run(start, past).rows, Run(start, past).now, {})
    requires forall i :: 0 <= i < |batch| ==> batch[i].id in Run(start, past).rows
                                              && batch[i].attempt == Run(start, past).rows[batch[i].id].attempts + 1
    requires NoneTwice(batch)
    ensures Fresh(start, past, batch)
  {
    forall i | 0 <= i < |batch|
      ensures HandsOut(Run(start, past), Step.Claim(IdsOf(batch)), batch[i].id, batch[i].attempt)
    {
      assert batch[i].id in IdsOf(batch);
    }
  }

  lemma AttemptIsPositive(start: Db, past: seq<Step>, batch: seq<Due>, i: nat)
    requires SaneDb(start) && Fresh(start, past, batch) && i < |batch|
    ensures batch[i].attempt > 0
    ensures HandsOut(Run(start, past), Step.Claim(IdsOf(batch)), batch[i].id, batch[i].attempt)
  {
    assert HandsOut(Run(start, past), Step.Claim(IdsOf(batch)), batch[i].id, batch[i].attempt);
    ReachableRowsAreSane(start, past);
  }

  // ------------------------------------------------------------- how large a batch

  /** The first `n` deliveries keep to the timeout. */
  predicate Timely(deliver: nat -> Delivery, n: nat) {
    forall i :: 0 <= i < n ==> Duration(deliver(i)) <= DELIVERY_TIMEOUT
  }

  predicate InTime(deliver: nat -> Delivery, n: nat) {
    forall i :: 0 <= i < n ==> Taken(deliver, i) < LEASE_DURATION
  }

  lemma {:induction false} TimelyElapsed(deliver: nat -> Delivery, n: nat)
    requires Timely(deliver, n)
    ensures 0 <= Elapsed(deliver, n) <= n * DELIVERY_TIMEOUT
    decreases n
  {
    if n > 0 {
      TimelyElapsed(deliver, n - 1);
    }
  }

  /** A delivery that takes all of its timeout, while nobody else does anything. */
  const SLOW: Delivery := Delivery(Response(200), 0.0, 0, [Tick(DELIVERY_TIMEOUT)])

  function Slow(): nat -> Delivery { _ => SLOW }

  lemma SlowTakesTheTimeout()
    ensures Duration(SLOW) == DELIVERY_TIMEOUT
  {
    var m := SLOW.meanwhile;
    assert m[1..] == [] && m[0] == Tick(DELIVERY_TIMEOUT);
    assert ClockRun(DELIVERY_TIMEOUT, m[1..]) == DELIVERY_TIMEOUT;
  }

  lemma {:induction false} SlowElapsed(n: nat)
    ensures Elapsed(Slow(), n) == n * DELIVERY_TIMEOUT
    decreases n
  {
    SlowTakesTheTimeout();
    if n > 0 {
      SlowElapsed(n - 1);
    }
  }

  /** Five is the largest safe batch: whatever timely deliveries a batch of n meets, all of its items
      stay within the lease iff n <= 5. */
  lemma FiveIsTheLargestSafeBatch(n: nat)
    ensures (forall deliver: nat -> Delivery :: Timely(deliver, n) ==> InTime(deliver, n)) <==> n <= 5
  {
    if n <= 5 {
      forall deliver: nat -> Delivery | Timely(deliver, n) ensures InTime(deliver, n) {
        forall i | 0 <= i < n ensures Taken(deliver, i) < LEASE_DURATION {
          TimelyElapsed(deliver, i + 1);
        }
      }
    } else {
      var slow: nat -> Delivery := Slow();
      SlowTakesTheTimeout();
      SlowElapsed(6);
      assert Timely(slow, n) && Taken(slow, 5) >= LEASE_DURATION;
    }
  }

  /** On an otherwise idle outbox only the worker itself settles, each row once. */
  lemma {:induction false} OnlyOwnSettles(batch: seq<Due>, i: nat, k: nat)
    requires i < |batch| && k < |UpToSettle([], batch, Slow(), i)|
    ensures var s := UpToSettle([], batch, Slow(), i)[k];
            s.Settle? ==> exists j :: 0 <= j < i && batch[j].id == s.id
    decreases i
  {
    if i > 0 {
      var before := UpToSettle([], batch, Slow(), i - 1);
      if k < |before| {
        OnlyOwnSettles(batch, i - 1, k);
        assert UpToSettle([], batch, Slow(), i)[k] == before[k];
      } else if k == |before| {
        assert UpToSettle([], batch, Slow(), i)[k] == SettleOf(batch[i - 1], SLOW);
        assert batch[i - 1].id == SettleOf(batch[i - 1], SLOW).id;
      }
    }
  }

  lemma SlowItem(start: Db, batch: seq<Due>, i: nat, r: SettleResult)
    requires i < |batch| <= 13 && NoneTwice(batch)
    requires AsTimed(start, [], batch, Slow(), i, r)
    ensures i < 5 ==> Settled(r)
    ensures i >= 5 ==> r.LeaseLost?
  {
    assert Storable(Slow()(i).res);
    hide OnClock, OthersArePrompt, Settled, UpToSettle, Slow, NoneTwice, Taken;
    SlowTimes(i);
    SlowIsQuiet(start, batch, i);
  }

  lemma SlowTimes(i: nat)
    requires i <= 12
    ensures i < 5 ==> Taken(Slow(), i) < LEASE_DURATION
    ensures i >= 5 ==> LEASE_DURATION <= Taken(Slow(), i) < REISSUE
  {
    SlowElapsed(i + 1);
    hide Elapsed, Slow;
    assert DELIVERY_TIMEOUT == 10_000_000_000 && LEASE_DURATION == 60_000_000_000 && REISSUE == 138_000_000_002;
  }

  lemma SlowIsQuiet(start: Db, batch: seq<Due>, i: nat)
    requires i < |batch| && NoneTwice(batch)
    ensures var steps := UpToSettle([], batch, Slow(), i);
            OnClock(start, steps, batch[i].id) && OthersArePrompt(start, steps, 0, batch[i].id)
  {
    hide UpToSettle, At, SettlesOnClockAt, ByAnother, HandsOut;
    var steps, id := UpToSettle([], batch, Slow(), i), batch[i].id;
    forall k | 0 <= k < |steps|
      ensures SettlesOnClockAt(start, steps, id, k) && ByAnother(start, steps, 0, id, k)
    {
      OnlyOwnSettles(batch, i, k);
      NotItsSettle(start, steps, id, k);
    }
  }

  lemma NotItsSettle(start: Db, steps: seq<Step>, id: Id, k: nat)
    requires k < |steps| && !(steps[k].Settle? && steps[k].id == id)
    ensures SettlesOnClockAt(start, steps, id, k) && ByAnother(start, steps, 0, id, k)
  {
  }

  /** The default batch, each delivery taking its full timeout on an otherwise idle outbox: the first
      five items settle, and the others find their leases lost. */
  method SlowPoll(store: Store, batchSize: int) returns (batch: seq<Due>, results: seq<SettleResult>)
    requires SaneDb(store.Table()) && batchSize <= 13
    modifies store
    ensures |results| == |batch|
    ensures forall i :: 0 <= i < |batch| && i < 5 ==> Settled(results[i])
    ensures forall i :: 5 <= i < |batch| ==> results[i].LeaseLost?
  {
    ghost var start := store.Table();
    assert Run(start, []) == start;
    hide Run, AsTimed, SaneDb, Answers, Settled;
    batch, results := Poll(store, batchSize, {}, Slow(), start, []);
    forall i | 0 <= i < |batch|
      ensures (i < 5 ==> Settled(results[i])) && (i >= 5 ==> results[i].LeaseLost?)
    {
      SlowItem(start, batch, i, results[i]);
    }
  }
}
