/** The outbox repository: the statements of internal/webhook/store.go as methods on the rows they
    update, each proved to be the step of the same name in Outbox. */
module OutboxStore {
  import opened Prelude
  import opened Backoff
  import opened Outbox

  /** A claimed delivery as the worker receives it. */
  datatype Due = Due(id: Id, message: Message, attempt: int)

  datatype Endpoint = Endpoint(tenant: Id, active: bool, events: set<Event>)

  datatype EnqueueResult = Enqueued(count: nat) | UnknownEvent | PayloadTooLarge
  datatype SettleResult = Recorded | DeadLettered | LeaseLost | NoAttempt | Failed
  datatype ReplayResult = Requeued(row: Row) | NotFound | NotDead(status: Status)

  /** The order of the claim query: (next_at, id). */
  predicate Before(rows: map<Id, Row>, a: Id, b: Id)
    requires a in rows && b in rows
  {
    rows[a].nextAt < rows[b].nextAt || (rows[a].nextAt == rows[b].nextAt && a <= b)
  }

  /** The same on all ids. */
  function Wakes(rows: map<Id, Row>): (Id, Id) -> bool {
    (a, b) => a in rows && b in rows && Before(rows, a, b)
  }

  lemma Earliest(rows: map<Id, Row>, ids: set<Id>) returns (m: Id)
    requires ids != {} && ids <= rows.Keys
    ensures m in ids && forall o :: o in ids ==> Before(rows, m, o)
  {
    WakesOrders(rows, ids);
    m := First(Wakes(rows), ids);
    hide Before;
    forall o | o in ids ensures Before(rows, m, o) {
      assert Wakes(rows)(m, o);
    }
  }

  lemma WakesOrders(rows: map<Id, Row>, ids: set<Id>)
    requires ids <= rows.Keys
    ensures Orders(Wakes(rows), ids)
  {
  }

  function IdsOf(out: seq<Due>): set<Id> {
    set i | 0 <= i < |out| :: out[i].id
  }

  function Subscribed(endpoints: map<Id, Endpoint>, tenant: Id, event: Event): set<Id> {
    set e | e in endpoints && endpoints[e].tenant == tenant && endpoints[e].active && event in endpoints[e].events
  }

  /** Generated ids are distinct. */
  ghost predicate Injective(newIds: map<Id, Id>) {
    forall e, f :: e in newIds && f in newIds && newIds[e] == newIds[f] ==> e == f
  }

  /** The rows of one `INSERT ... SELECT`: a copy of the event for each target endpoint. */
  function FanOut(targets: set<Id>, newIds: map<Id, Id>, m: Message): (rows: map<Id, Message>)
    requires targets <= newIds.Keys
    requires Injective(newIds)
    ensures |rows| == |targets|
    ensures forall e :: e in targets ==> newIds[e] in rows && rows[newIds[e]] == m.(endpoint := e)
    ensures forall i :: i in rows ==> exists e :: e in targets && newIds[e] == i
  {
    var rows := map e | e in targets :: newIds[e] := m.(endpoint := e);
    ImageSize(targets, newIds);
    assert rows.Keys == set e | e in targets :: newIds[e];
    rows
  }

  lemma {:induction false} ImageSize(targets: set<Id>, newIds: map<Id, Id>)
    requires targets <= newIds.Keys
    requires Injective(newIds)
    ensures |set e | e in targets :: newIds[e]| == |targets|
  {
    if targets != {} {
      var x :| x in targets;
      ImageSize(targets - {x}, newIds);
      assert (set e | e in targets :: newIds[e]) == (set e | e in targets - {x} :: newIds[e]) + {newIds[x]};
    }
  }

  function NewRows(added: map<Id, Message>, now: Time): map<Id, Row> { map id | id in added :: NewRow(added[id], now) }

  lemma InsertStep(db: Db, added: map<Id, Message>)
    requires added.Keys !! db.rows.Keys
    ensures Apply(db, Step.Enqueue(added))
            == Db(db.rows + NewRows(added, db.now), db.now)
    ensures added == map[] ==> Apply(db, Step.Enqueue(added)) == db
  {
  }

  predicate Distinct(ids: seq<Id>) {
    forall i, j :: 0 <= i < j < |ids| ==> ids[i] != ids[j]
  }

  ghost function DueSet(rows: map<Id, Row>, now: Time, locked: set<Id>): set<Id> {
    set id | id in rows && id !in locked && Claimable(rows[id], now)
  }

  /** The subquery of Claim: up to `n` due unlocked rows, the earliest ones, in order of wake-up. */
  method OldestDue(rows: map<Id, Row>, now: Time, n: int, locked: set<Id>) returns (picked: seq<Id>)
    requires n > 0
    ensures Distinct(picked)
    ensures forall i :: 0 <= i < |picked| ==> picked[i] in DueSet(rows, now, locked)
    ensures |picked| == if |DueSet(rows, now, locked)| < n then |DueSet(rows, now, locked)| else n
    ensures forall i, b :: 0 <= i < |picked| && b in DueSet(rows, now, locked) && b !in picked ==>
              Before(rows, picked[i], b)
    ensures forall i, j :: 0 <= i < j < |picked| ==> Before(rows, picked[i], picked[j])
  {
    var due := set id | id in rows && id !in locked && Claimable(rows[id], now);
    var left := due;
    picked := [];
    while |picked| < n && left != {}
      invariant left <= due <= rows.Keys && |picked| + |left| == |due| && |picked| <= n
      invariant forall i :: 0 <= i < |picked| ==> picked[i] in due - left
      invariant forall id :: id in due - left ==> id in picked
      invariant Distinct(picked)
      invariant forall a, b :: a in due - left && b in left ==> Before(rows, a, b)
      invariant forall i, j :: 0 <= i < j < |picked| ==> Before(rows, picked[i], picked[j])
      decreases |left|
    {
      ghost var first := Earliest(rows, left);
      var m :| m in left && forall o :: o in left ==> Before(rows, m, o);
      picked := picked + [m];
      left := left - {m};
    }
  }

  /** Waiting and due, or held under a lapsed lease. */
  ghost predicate IsDue(r: Row, now: Time) {
    (r.status.Pending? && r.nextAt <= now) || (r.status.Delivering? && r.lease.Some? && r.lease.value < now)
  }

  /** A due row handed out: under a lease of a minute, as its next attempt. */
  ghost predicate Leased(was: Row, row: Row, now: Time) {
    && IsDue(was, now)
    && row == was.(status := Delivering, lease := Some(now + 60 * SECOND), attempts := was.attempts + 1)
  }

  ghost predicate WakesFirst(rows: map<Id, Row>, a: Id, b: Id) {
    && a in rows && b in rows
    && (rows[a].nextAt < rows[b].nextAt || (rows[a].nextAt == rows[b].nextAt && a < b))
  }

  lemma ClaimLeases(r: Row, now: Time)
    ensures Claimable(r, now) <==> IsDue(r, now)
    ensures IsDue(r, now) ==> Leased(r, Claimed(r, now), now)
  {
  }

  lemma BeforeWakesFirst(rows: map<Id, Row>, a: Id, b: Id)
    requires a in rows && b in rows && Before(rows, a, b) && a != b
    ensures WakesFirst(rows, a, b)
  {
  }

  /** What the picked rows were, and the ones left out. */
  lemma ClaimIsFair(before: map<Id, Row>, rows: map<Id, Row>, now: Time, locked: set<Id>, out: seq<Due>, n: int)
    requires IdsOf(out) <= DueSet(before, now, locked) && rows.Keys == before.Keys
    requires |out| == if |DueSet(before, now, locked)| < n then |DueSet(before, now, locked)| else n
    requires forall i, j :: 0 <= i < j < |out| ==> out[i].id != out[j].id
    requires forall a, b :: a in IdsOf(out) && b in DueSet(before, now, locked) - IdsOf(out) ==> Before(before, a, b)
    requires forall i :: 0 <= i < |out| ==>
               out[i].id in before && rows[out[i].id] == Claimed(before[out[i].id], now)
    ensures forall i :: 0 <= i < |out| ==> Leased(before[out[i].id], rows[out[i].id], now)
    ensures forall id :: id in before && id !in IdsOf(out) && id !in locked && IsDue(before[id], now) ==>
              |out| == n && forall i :: 0 <= i < |out| ==> WakesFirst(before, out[i].id, id)
  {
    hide Before, WakesFirst, Leased;
    forall i | 0 <= i < |out| ensures Leased(before[out[i].id], rows[out[i].id], now) {
      assert out[i].id in IdsOf(out);
      ClaimLeases(before[out[i].id], now);
    }
    forall id | id in before && id !in IdsOf(out) && id !in locked && IsDue(before[id], now)
      ensures |out| == n && forall i :: 0 <= i < |out| ==> WakesFirst(before, out[i].id, id)
    {
      ClaimLeases(before[id], now);
      assert id in DueSet(before, now, locked);
      CountOf(out);
      Leaves(IdsOf(out), DueSet(before, now, locked), id);
      forall i | 0 <= i < |out| ensures WakesFirst(before, out[i].id, id) {
        assert out[i].id in IdsOf(out);
        BeforeWakesFirst(before, out[i].id, id);
      }
    }
  }

  lemma Leaves(a: set<Id>, b: set<Id>, x: Id)
    requires a <= b && x in b && x !in a
    ensures |a| < |b|
  {
    assert b == a + (b - a) && x in b - a;
  }

  lemma {:induction false} CountOf(out: seq<Due>)
    requires forall i, j :: 0 <= i < j < |out| ==> out[i].id != out[j].id
    ensures |IdsOf(out)| == |out|
    decreases |out|
  {
    if out != [] {
      var n := |out| - 1;
      CountOf(out[..n]);
      assert IdsOf(out) == IdsOf(out[..n]) + {out[n].id} && out[n].id !in IdsOf(out[..n]);
    }
  }

  /** The event queued once for each active endpoint of its tenant that subscribed to it, ready to send;
      nothing else changes. */
  ghost predicate FannedOut(before: map<Id, Row>, after: map<Id, Row>, endpoints: map<Id, Endpoint>,
                            newIds: map<Id, Id>, m: Message, now: Time)
    requires newIds.Keys == endpoints.Keys
  {
    && (forall id :: id in before ==> id in after && after[id] == before[id])
    && (forall id :: id in after && id !in before ==> exists e :: e in endpoints && newIds[e] == id)
    && (forall e :: e in endpoints ==> Served(after, newIds[e], e, endpoints[e], m, now))
  }

  /** Endpoint `e` has a new pending copy of the event iff it is an active subscriber of the tenant. */
  ghost predicate Served(after: map<Id, Row>, newId: Id, e: Id, endpoint: Endpoint, m: Message, now: Time) {
    && (newId in after <==> endpoint.tenant == m.tenant && endpoint.active && m.event in endpoint.events)
    && (newId in after ==> after[newId] == Row(m.(endpoint := e), Pending, 0, 0, now, None, None, None, None))
  }

  lemma TargetsAreServed(rows: map<Id, Row>, targets: set<Id>, newIds: map<Id, Id>, e: Id, endpoint: Endpoint,
                         m: Message, now: Time)
    requires targets <= newIds.Keys && Injective(newIds) && e in newIds && newIds[e] !in rows
    requires e in targets <==> endpoint.tenant == m.tenant && endpoint.active && m.event in endpoint.events
    ensures var added := FanOut(targets, newIds, m);
            Served(rows + NewRows(added, now), newIds[e], e, endpoint, m, now)
  {
    var added := FanOut(targets, newIds, m);
    hide FanOut;
    if newIds[e] in added {
      var f :| f in targets && newIds[f] == newIds[e];
      assert f == e;
    }
  }

  lemma AddedRows(rows: map<Id, Row>, endpoints: map<Id, Endpoint>, newIds: map<Id, Id>, m: Message, now: Time)
    requires newIds.Keys == endpoints.Keys && Injective(newIds) && forall e :: e in newIds ==> newIds[e] !in rows
    ensures var added := FanOut(Subscribed(endpoints, m.tenant, m.event), newIds, m);
            FannedOut(rows, rows + NewRows(added, now), endpoints, newIds, m, now)
  {
    hide Served, FanOut, NewRow, Injective;
    var targets := Subscribed(endpoints, m.tenant, m.event);
    var added := FanOut(targets, newIds, m);
    var after := rows + NewRows(added, now);
    forall e | e in endpoints ensures Served(after, newIds[e], e, endpoints[e], m, now) {
      TargetsAreServed(rows, targets, newIds, e, endpoints[e], m, now);
    }
    FanOutIsNew(rows, targets, newIds, m);
  }

  lemma FanOutIsNew(rows: map<Id, Row>, targets: set<Id>, newIds: map<Id, Id>, m: Message)
    requires targets <= newIds.Keys && Injective(newIds) && forall e :: e in newIds ==> newIds[e] !in rows
    ensures FanOut(targets, newIds, m).Keys !! rows.Keys
  {
  }

  lemma UnionCount(a: map<Id, Row>, b: map<Id, Row>)
    requires a.Keys !! b.Keys
    ensures |a + b| == |a| + |b|
  {
    assert (a + b).Keys == a.Keys + b.Keys;
    assert |a + b| == |(a + b).Keys| && |a| == |a.Keys| && |b| == |b.Keys|;
  }

  lemma AddedCount(rows: map<Id, Row>, added: map<Id, Message>, now: Time)
    requires added.Keys !! rows.Keys
    ensures |rows + NewRows(added, now)| == |rows| + |added|
  {
    hide NewRow;
    assert NewRows(added, now).Keys == added.Keys;
    assert |NewRows(added, now)| == |NewRows(added, now).Keys| && |added| == |added.Keys|;
    UnionCount(rows, NewRows(added, now));
  }

  lemma ClaimStep(db: Db, picks: set<Id>, rows: map<Id, Row>)
    requires picks <= DueSet(db.rows, db.now, {}) && rows.Keys == db.rows.Keys
    requires forall id :: id in rows ==> rows[id] == if id in picks then Claimed(db.rows[id], db.now) else db.rows[id]
    ensures Apply(db, Step.Claim(picks)) == Db(rows, db.now)
  {
    hide Claimed, Claimable;
    var t := Apply(db, Step.Claim(picks));
    assert forall id :: id in t.rows ==> t.rows[id] == rows[id];
  }

  /** What a recorded attempt makes of its row: a 2xx answer delivers it for good; any other answer, or none,
      schedules the next attempt, or ends the row after the sixth. */
  ghost predicate Reflects(was: Row, row: Row, attempt: int, res: Outcome, jitter: real, appNow: Time, now: Time) {
    var delivered := res.Response? && 200 <= res.code <= 299;
    && row.message == was.message && row.attempts == was.attempts && row.replays == was.replays && row.lease.None?
    && row.lastStatus == (if res.Response? then Some(res.code) else None)
    && row.lastError == (if delivered then None else Some(res))
    && row.deliveredAt == (if delivered then Some(now) else was.deliveredAt)
    && (row.status.Delivered? <==> delivered)
    && (row.status.Dead? <==> !delivered && attempt >= 6)
    && if !delivered && attempt < 6
       then row.status.Pending? && Jittered(row.nextAt - appNow, SECOND * Seconds(attempt), jitter)
       else row.nextAt == appNow
  }

  lemma SettledReflects(r: Row, attempt: int, res: Outcome, jitter: real, appNow: Time, now: Time)
    requires attempt > 0
    ensures Reflects(r, Settled(r, attempt, res, jitter, appNow, now), attempt, res, jitter, appNow, now)
  {
    DelayIsJittered(attempt, jitter);
    hide NextDelay, Jittered, Seconds;
  }

  class Store {
    var rows: map<Id, Row>
    var endpoints: map<Id, Endpoint>
    var now: Time

    ghost function Table(): Db
      reads this
    {
      Db(rows, now)
    }

    constructor (now: Time)
      ensures Table() == Db(map[], now) && endpoints == map[]
    {
      rows, endpoints, this.now := map[], map[], now;
    }

    /** Whatever other connections commit between two statements of this one. */
    method Others(steps: seq<Step>)
      modifies this`rows, this`now
      ensures Table() == Run(old(Table()), steps)
    {
      var db := Run(Db(rows, now), steps);
      rows, now := db.rows, db.now;
    }

    /** The INSERT itself, with the columns' defaults. */
    method Insert(added: map<Id, Message>)
      requires added.Keys !! rows.Keys
      modifies this`rows
      ensures Table() == Apply(old(Table()), Step.Enqueue(added))
      ensures rows == old(rows) + NewRows(added, now)
      ensures added == map[] ==> rows == old(rows)
    {
      InsertStep(Table(), added);
      rows := rows + NewRows(added, now);
    }

    /** Fan-out inside the caller's transaction: one row for each active subscribed endpoint of the
        tenant, and for no other. `newIds` are the ids the database generates. */
    method Enqueue(tenant: Id, event: Event, eventId: Id, payload: string, trace: Option<string>,
                   newIds: map<Id, Id>) returns (r: EnqueueResult, added: map<Id, Message>)
      requires newIds.Keys == endpoints.Keys
      requires forall e :: e in newIds ==> newIds[e] !in rows
      requires Injective(newIds)
      modifies this`rows
      ensures r.UnknownEvent? <==> event.Unlisted?
      ensures r.PayloadTooLarge? <==> !event.Unlisted? && |payload| > 65536
      ensures !r.Enqueued? ==> rows == old(rows)
      ensures r.Enqueued? ==>
                && r.count == |rows| - |old(rows)|
                && FannedOut(old(rows), rows, endpoints, newIds,
                             Message(tenant, 0, event, eventId, payload, trace), now)
      ensures Table() == Apply(old(Table()), Step.Enqueue(added))
      ensures !r.Enqueued? ==> added == map[]
      ensures r.Enqueued? ==>
                && added == FanOut(Subscribed(endpoints, tenant, event), newIds,
                                   Message(tenant, 0, event, eventId, payload, trace))
                && r.count == |Subscribed(endpoints, tenant, event)|
    {
      hide Outbox.Apply, Injective, FanOut, FannedOut, NewRows;
      added := map[];
      if event.Unlisted? {
        r := UnknownEvent;
      } else if |payload| > MAX_PAYLOAD_BYTES {
        r := PayloadTooLarge;
      } else {
        var targets := Subscribed(endpoints, tenant, event);
        var m := Message(tenant, 0, event, eventId, payload, trace);
        added := FanOut(targets, newIds, m);
        AddedRows(rows, endpoints, newIds, m, now);
        FanOutIsNew(rows, targets, newIds, m);
        AddedCount(rows, added, now);
        r := Enqueued(|added|);
      }
      Insert(added);
    }

    /** Leases the oldest due rows no other transaction has locked, at most `batchSize` of them. */
    method Claim(batchSize: int, locked: set<Id>) returns (out: seq<Due>)
      modifies this`rows
      ensures Table() == Apply(old(Table()), Step.Claim(IdsOf(out)))
      ensures var n := if batchSize <= 0 then 10 else batchSize;
              var due := DueSet(old(rows), now, locked);
              && |out| == (if |due| < n then |due| else n)
              && IdsOf(out) <= due
              && (forall a, b :: a in IdsOf(out) && b in due - IdsOf(out) ==> Before(old(rows), a, b))
      ensures rows.Keys == old(rows).Keys && |out| <= if batchSize <= 0 then 10 else batchSize
      ensures forall id :: id in old(rows) && id !in IdsOf(out) ==>
                && rows[id] == old(rows)[id]
                && (id !in locked && IsDue(old(rows)[id], now) ==>
                      && |out| == (if batchSize <= 0 then 10 else batchSize)
                      && forall i :: 0 <= i < |out| ==> WakesFirst(old(rows), out[i].id, id))
      ensures forall i, j :: 0 <= i < j < |out| ==> out[i].id != out[j].id
      ensures forall i :: 0 <= i < |out| ==>
                && out[i].id in old(rows) && out[i].id !in locked
                && Leased(old(rows)[out[i].id], rows[out[i].id], now)
                && out[i].message == rows[out[i].id].message && out[i].attempt == rows[out[i].id].attempts
    {
      hide Before, Claimed, Outbox.Apply;
      var n := if batchSize <= 0 then 10 else batchSize;
      ghost var before := rows;
      var picked := OldestDue(rows, now, n, locked);
      out := LeaseRows(picked);
      assert forall id :: id in IdsOf(out) <==> id in picked;
      ClaimStep(Db(before, now), IdsOf(out), rows);
      ClaimIsFair(before, rows, now, locked, out, n);
    }

    /** The UPDATE over the picked rows, and the rows it returns. */
    method LeaseRows(picked: seq<Id>) returns (out: seq<Due>)
      requires Distinct(picked) && forall i :: 0 <= i < |picked| ==> picked[i] in rows
      modifies this`rows
      ensures |out| == |picked| && rows.Keys == old(rows).Keys
      ensures forall i :: 0 <= i < |picked| ==>
                out[i].id == picked[i] && picked[i] in rows
                && out[i].message == rows[picked[i]].message && out[i].attempt == rows[picked[i]].attempts
      ensures forall id :: id in rows ==>
                rows[id] == if id in picked then Claimed(old(rows)[id], now) else old(rows)[id]
    {
      ghost var before := rows;
      out := [];
      for k := 0 to |picked|
        invariant |out| == k && rows.Keys == before.Keys
        invariant forall i :: 0 <= i < k ==>
                    out[i] == Due(picked[i], before[picked[i]].message, before[picked[i]].attempts + 1)
        invariant forall id :: id in before ==>
                    rows[id] == if id in picked[..k] then Claimed(before[id], now) else before[id]
      {
        var r := Claimed(rows[picked[k]], now);
        rows := rows[picked[k] := r];
        out := out + [Due(picked[k], r.message, r.attempts)];
      }
      assert picked[..|picked|] == picked;
    }

    /** Records an attempt's outcome, if the worker still owns the row and the status can be stored. */
    method Settle(d: Due, res: Outcome, jitter: real, appNow: Time) returns (r: SettleResult)
      modifies this`rows
      ensures Table() == Apply(old(Table()), Step.Settle(d.id, d.attempt, res, jitter, appNow))
      ensures r.NoAttempt? <==> d.attempt <= 0
      ensures var owns := d.attempt > 0 && d.id in old(rows) && SettleMatches(old(rows)[d.id], d.attempt, now);
              && (r.LeaseLost? <==> d.attempt > 0 && !owns)
              && (r.Failed? <==> owns && !Storable(res))
              && (r.Recorded? || r.DeadLettered? <==> owns && Storable(res))
      ensures var owned := d.attempt > 0 && d.id in old(rows) && old(rows)[d.id].status.Delivering?
                           && old(rows)[d.id].lease.Some? && old(rows)[d.id].lease.value > now
                           && old(rows)[d.id].attempts == d.attempt;
              var storable := res.Response? ==> 100 <= res.code <= 599;
              && (r.Recorded? || r.DeadLettered? <==> owned && storable)
              && (r.Failed? <==> owned && !storable)
      ensures !r.Recorded? && !r.DeadLettered? ==> rows == old(rows)
      ensures r.Recorded? || r.DeadLettered? ==>
                && d.id in rows && rows == old(rows)[d.id := rows[d.id]]
                && Reflects(old(rows)[d.id], rows[d.id], d.attempt, res, jitter, appNow, now)
                && (r.DeadLettered? <==> rows[d.id].status.Dead?)
    {
      ghost var step := Step.Settle(d.id, d.attempt, res, jitter, appNow);
      if d.attempt <= 0 {
        assert Table() == Apply(old(Table()), step);
        return NoAttempt;
      }
      if d.id in rows {
        SettledReflects(rows[d.id], d.attempt, res, jitter, appNow, now);
      }
      hide Reflects, Jittered, Seconds;
      var status, nextAt, dead := Delivered, appNow, false;
      if !Succeeded(res) {
        var delay := NextDelay(d.attempt, jitter);
        if delay.None? {
          status, dead := Dead, true;
        } else {
          status, nextAt := Pending, appNow + delay.value;
        }
      }
      if d.id !in rows || !SettleMatches(rows[d.id], d.attempt, now) {
        assert Table() == Apply(old(Table()), step);
        return LeaseLost;
      }
      if !Storable(res) {
        assert Table() == Apply(old(Table()), step);
        return Failed;
      }
      var row := rows[d.id];
      if status == Delivered {
        row := row.(status := Delivered, deliveredAt := Some(now), lease := None, nextAt := nextAt,
                    lastError := None, lastStatus := StatusCode(res));
      } else {
        row := row.(status := status, lease := None, nextAt := nextAt, lastError := Some(res),
                    lastStatus := StatusCode(res));
      }
      rows := rows[d.id := row];
      assert Table() == Apply(old(Table()), step);
      r := if dead then DeadLettered else Recorded;
    }

    /** Requeues a dead delivery of the tenant. When it is not dead, a later read, after `late`, says
        why; so a delivery that died in between is answered as not found. */
    method Replay(tenant: Id, id: Id, late: seq<Step>) returns (r: ReplayResult)
      modifies this`rows, this`now
      ensures var was := old(Table());
              var requeued := Step.Replay(tenant, id);
              Table() == if r.Requeued? then Apply(was, requeued) else Run(Apply(was, requeued), late)
      ensures r.Requeued? <==> Visible(old(Table()), tenant, id) && old(rows)[id].status.Dead?
      ensures r.Requeued? ==>
                && rows == old(rows)[id := rows[id]] && now == old(now)
                && rows[id] == old(rows)[id].(status := Pending, attempts := 0, replays := old(rows)[id].replays + 1,
                                              nextAt := now, lease := None)
      ensures r.Requeued? ==> r.row == rows[id] && r.row.status.Pending? && r.row.attempts == 0
                              && r.row.replays == old(rows)[id].replays + 1 && r.row.nextAt == now
                              && r.row.message == old(rows)[id].message
      ensures r.NotDead? <==> !r.Requeued? && Visible(Table(), tenant, id) && !rows[id].status.Dead?
      ensures r.NotDead? ==> r.status == rows[id].status
      ensures Visible(old(Table()), tenant, id) ==>
                && Visible(Table(), tenant, id)
                && (r.NotFound? <==> !old(rows)[id].status.Dead? && rows[id].status.Dead?)
    {
      ghost var was, requeued := Table(), Step.Replay(tenant, id);
      if id in rows && rows[id].message.tenant == tenant && rows[id].status == Dead {
        var row := rows[id].(status := Pending, attempts := 0, replays := rows[id].replays + 1,
                             nextAt := now, lease := None);
        rows := rows[id := row];
        assert Table() == Apply(was, requeued);
        return Requeued(row);
      }
      assert Table() == Apply(was, requeued);
      VisibleStays(Table(), late, tenant, id);
      hide Apply, Run;
      Others(late);
      r := if id !in rows || rows[id].message.tenant != tenant then NotFound
           else if rows[id].status != Dead then NotDead(rows[id].status) else NotFound;
    }
  }

  predicate Visible(db: Db, tenant: Id, id: Id) { id in db.rows && db.rows[id].message.tenant == tenant }

  lemma VisibleStays(db: Db, steps: seq<Step>, tenant: Id, id: Id)
    ensures Visible(db, tenant, id) ==> Visible(Run(db, steps), tenant, id)
  {
    if Visible(db, tenant, id) {
      RunIsRowwise(db, steps, id);
      DeliveredIsFinal(id, db.rows[id], db.now, steps);
    }
  }

  /** The answer the source calls unreachable: a delivery in its last attempt dies between the two
      statements of a replay. */
  lemma DeadIsNotFound(m: Message) returns (db: Db, late: seq<Step>)
    ensures Visible(db, m.tenant, 0) && Sane(db.rows[0]) && !db.rows[0].status.Dead?
    ensures var end := Run(Apply(db, Step.Replay(m.tenant, 0)), late);
            Visible(end, m.tenant, 0) && end.rows[0].status.Dead?
  {
    var row := NewRow(m, 0).(status := Delivering, attempts := MAX_ATTEMPTS, lease := Some(LEASE_DURATION));
    db := Db(map[0 := row], 0);
    var s := Step.Settle(0, MAX_ATTEMPTS, Response(500), 0.0, 0);
    late := [s];
    assert late[1..] == [];
    assert Apply(db, Step.Replay(m.tenant, 0)) == db;
    assert Run(db, late) == Apply(db, s);
  }
}
