/** Begin, Complete and the HTTP middleware over one idempotency key, as the multi-statement
    procedures they are (internal/idempotency/store.go, internal/httpx/idempotency.go). */
module KeySlot {
  import opened Prelude
  import opened Capture
  import opened Idempotency

  datatype Replay = Replay(status: int, headers: Headers, body: seq<Byte>)

  datatype BeginResult =
    | Proceed
    | Replayed(record: Replay)
    | InProgress
    | FingerprintMismatch
    | NotReplayable

  function ReplayOf(st: Stored): Replay {
    Replay(st.status, DecodeHeaders(st.headers), st.body)
  }

  /** What a committed read tells a request that did not get the key. None: try a take-over. */
  function Classify(p: Policy, r: Rec, fp: string, now: Time): Option<BeginResult> {
    if r.fp != fp then Some(FingerprintMismatch)
    else if r.done.Some? then
      Some(if r.done.value.replayable then Replayed(ReplayOf(r.done.value)) else NotReplayable)
    else if Stale(p, r, now) then None
    else Some(InProgress)
  }

  predicate PastRetention(rec: Option<Rec>, now: Time) {
    rec.Some? && rec.value.done.Some? && rec.value.expiresAt <= now
  }

  predicate Abandoned(p: Policy, rec: Option<Rec>, now: Time) {
    rec.Some? && rec.value.done.None? && rec.value.createdAt < now - p.lease
  }

  /** Nobody else commits anything. */
  ghost predicate Quiet(env: nat -> seq<Step>) { forall k :: env(k) == [] }

  /** What a finished row tells a request, and any row one with another fingerprint. */
  ghost predicate Told(r: Rec, fp: string, out: BeginResult) {
    && (out.FingerprintMismatch? <==> r.fp != fp)
    && (r.fp == fp ==>
          && r.done.Some?
          && var st := r.done.value;
             if st.replayable then out == Replayed(Replay(st.status, DecodeHeaders(st.headers), st.body))
             else out.NotReplayable?)
  }

  /** What a request that is alone with the key must be answered, read off the row. */
  ghost predicate AnsweredAlone(p: Policy, rec: Option<Rec>, fp: string, now: Time, out: BeginResult) {
    if rec.None? || PastRetention(rec, now) then out.Proceed?
    else if rec.value.fp != fp then out.FingerprintMismatch?
    else if Abandoned(p, rec, now) then out.Proceed?
    else if rec.value.done.None? then out.InProgress?
    else Told(rec.value, fp, out)
  }

  /** The row as a request finds it when it tries to claim, at its insert, its delete and its second
      insert; `env(k)` is what others commit before its k-th statement. */
  function AtInsert(p: Policy, s: State, env: nat -> seq<Step>, from: nat): State { Run(p, s, env(from)) }

  function AtDelete(p: Policy, s: State, env: nat -> seq<Step>, from: nat): State {
    Run(p, AtInsert(p, s, env, from), env(from + 1))
  }

  function AtReinsert(p: Policy, s: State, env: nat -> seq<Step>, from: nat): State {
    Run(p, AtDelete(p, s, env, from).(rec := None), env(from + 2))
  }

  /** The key is free to claim: no row, or one past its retention and, once that is gone, none again. */
  predicate Free(p: Policy, s: State, env: nat -> seq<Step>, from: nat) {
    || AtInsert(p, s, env, from).rec.None?
    || (PastRetention(AtDelete(p, s, env, from).rec, AtDelete(p, s, env, from).now)
        && AtReinsert(p, s, env, from).rec.None?)
  }

  /** No step of the run is taken by request `c`. */
  predicate Avoids(c: Caller, steps: seq<Step>) {
    forall i :: 0 <= i < |steps| ==>
      match steps[i]
      case Insert(d, _) => d != c
      case TakeOver(d, _) => d != c
      case Complete(d, _) => d != c
      case Die(d) => d != c
      case _ => true
  }

  lemma {:induction false} OthersLeaveCallerAlone(p: Policy, s: State, c: Caller, steps: seq<Step>)
    requires Avoids(c, steps)
    ensures c in Run(p, s, steps).live <==> c in s.live
    decreases |steps|
  {
    if steps != [] {
      OthersLeaveCallerAlone(p, Apply(p, s, steps[0]), c, steps[1..]);
    }
  }

  class Slot {
    const p: Policy
    var rec: Option<Rec>
    var claimant: Caller
    var live: map<Caller, Time>
    var now: Time

    function View(): State
      reads this
    {
      State(rec, claimant, live, now)
    }

    constructor (p: Policy, now: Time)
      ensures this.p == p && View() == Init(now)
    {
      this.p, rec, claimant, live, this.now := p, None, 0, map[], now;
    }

    method Set(s: State)
      modifies this
      ensures View() == s
    {
      rec, claimant, live, now := s.rec, s.claimant, s.live, s.now;
    }

    /** Whatever other requests and the sweeper commit meanwhile. */
    method Others(steps: seq<Step>)
      modifies this
      ensures View() == Run(p, old(View()), steps)
    {
      Set(Run(p, View(), steps));
    }

    /** INSERT ... ON CONFLICT DO NOTHING. */
    method InsertRow(c: Caller, fp: string) returns (claimed: bool)
      requires c !in live
      modifies this
      ensures View() == Run(p, old(View()), [Step.Insert(c, fp)])
      ensures claimed <==> c in live
      ensures claimed <==> old(rec).None?
      ensures now == old(now) && rec == if claimed then Some(Rec(fp, now, now + p.retention, None)) else old(rec)
    {
      OneStep(p, View(), Step.Insert(c, fp));
      claimed := rec.None?;
      if claimed {
        rec, claimant, live := Some(Rec(fp, now, now + p.retention, None)), c, live[c := now];
      }
    }

    /** DELETE of a completed row whose retention has passed. */
    method ClearExpired() returns (cleared: bool)
      modifies this
      ensures View() == Run(p, old(View()), [Step.ClearExpired])
      ensures cleared <==> PastRetention(old(rec), now)
      ensures View() == if cleared then old(View()).(rec := None) else old(View())
    {
      OneStep(p, View(), Step.ClearExpired);
      cleared := rec.Some? && rec.value.done.Some? && rec.value.expiresAt <= now;
      if cleared {
        rec := None;
      }
    }

    /** UPDATE guarded by "still in progress and still stale". */
    method TakeOver(c: Caller, fp: string) returns (took: bool)
      requires c !in live
      modifies this
      ensures View() == Run(p, old(View()), [Step.TakeOver(c, fp)])
      ensures took <==> c in live
      ensures took <==> Abandoned(p, old(rec), now)
      ensures now == old(now) && rec == if took then Some(Rec(fp, now, now + p.retention, None)) else old(rec)
    {
      OneStep(p, View(), Step.TakeOver(c, fp));
      took := rec.Some? && Stale(p, rec.value, now);
      if took {
        rec, claimant, live := Some(rec.value.(fp := fp, createdAt := now, expiresAt := now + p.retention)),
                               c, live[c := now];
      }
    }

    /** UPDATE guarded by "still in progress" and nothing else. */
    method CompleteRow(c: Caller, res: Response) returns (recorded: bool)
      requires c in live
      modifies this
      ensures View() == Run(p, old(View()), [Step.Complete(c, res)])
      ensures recorded <==> old(rec).Some? && old(rec).value.done.None?
      ensures recorded ==>
                && rec.Some? && rec.value.done.Some? && rec.value == old(rec).value.(done := rec.value.done)
                && var st := rec.value.done.value;
                   && st.status == res.status && st.headers == EncodeHeaders(res.headers) && st.at == now
                   && st.replayable == !res.overflow && st.body == if res.overflow then [] else res.body
      ensures !recorded ==> rec == old(rec)
    {
      OneStep(p, View(), Step.Complete(c, res));
      recorded := rec.Some? && rec.value.done.None?;
      live := live - {c};
      if recorded {
        rec := Some(rec.value.(done := Some(Record(res, now))));
      }
    }

    /** tryClaim: the insert, retried once after clearing an expired completed row. `env(k)` is
        what everyone else commits before this request's k-th statement. It claims exactly when the
        key is free at its statements, and otherwise leaves nothing of its own. */
    method TryClaim(c: Caller, fp: string, env: nat -> seq<Step>, from: nat)
      returns (claimed: bool, next: nat, ghost trace: seq<Step>)
      requires c !in live && forall k :: Avoids(c, env(k))
      modifies this
      ensures View() == Run(p, old(View()), trace)
      ensures Step.Insert(c, fp) in trace
      ensures claimed <==> c in live
      ensures claimed <==> Free(p, old(View()), env, from)
      ensures claimed ==>
                var s := AtInsert(p, old(View()), env, from);
                && rec == Some(Rec(fp, now, now + p.retention, None))
                && now == if s.rec.None? then s.now else AtReinsert(p, old(View()), env, from).now
      ensures !claimed ==>
                var s := AtDelete(p, old(View()), env, from);
                View() == if PastRetention(s.rec, s.now) then AtReinsert(p, old(View()), env, from) else s
    {
      hide Apply, Run, Avoids;
      trace, next, claimed := [], from, false;
      ghost var start := View();
      RunNothing(p, start);
      for attempt := 0 to 2
        invariant View() == Run(p, start, trace) && c !in live && !claimed
        invariant if attempt == 0 then trace == [] && next == from else Step.Insert(c, fp) in trace
        invariant attempt == 1 ==>
                    var s := AtDelete(p, start, env, from);
                    && next == from + 2 && AtInsert(p, start, env, from).rec.Some? && PastRetention(s.rec, s.now)
                    && View() == s.(rec := None)
        invariant attempt == 2 ==>
                    var s := AtDelete(p, start, env, from);
                    && !Free(p, start, env, from) && PastRetention(s.rec, s.now)
                    && View() == AtReinsert(p, start, env, from)
      {
        Statement(p, start, trace, env(next), Step.Insert(c, fp), c);
        Others(env(next));
        ghost var was := View();
        trace, next := trace + (env(next) + [Step.Insert(c, fp)]), next + 1;
        claimed := InsertRow(c, fp);
        if claimed {
          return;
        }
        MissedInsert(p, was, c, fp);
        if attempt == 0 {
          Statement(p, start, trace, env(next), Step.ClearExpired, c);
          Others(env(next));
          trace, next := trace + (env(next) + [Step.ClearExpired]), next + 1;
          var cleared := ClearExpired();
          if !cleared {
            return;
          }
        }
      }
    }

    /** Begin, against any interleaving of other requests. It proceeds exactly when one of its own
        statements won the key. Otherwise its answer is what a committed read of the row says, or
        the concurrent-duplicate answer after losing a race. Alone with the key, its answer is
        dictated by the row. `seen` is the point of the run at which it read. */
    method Begin(c: Caller, fp: string, env: nat -> seq<Step>)
      returns (out: BeginResult, ghost trace: seq<Step>, ghost seen: nat)
      requires c !in live && forall k :: Avoids(c, env(k))
      modifies this
      ensures View() == Run(p, old(View()), trace)
      ensures Step.Insert(c, fp) in trace && seen <= |trace|
      ensures out.Proceed? <==> c in live
      ensures Free(p, old(View()), env, 0) ==> out.Proceed?
      ensures out.Proceed? ==> rec == Some(Rec(fp, now, now + p.retention, None))
      ensures out.Replayed? || out.NotReplayable? || out.FingerprintMismatch? ==>
                var t := Run(p, old(View()), trace[..seen]);
                t.rec.Some? && Told(t.rec.value, fp, out)
      ensures out.InProgress? ==> InProgressBecause(p, old(View()), c, fp, trace, seen)
      ensures Quiet(env) ==> AnsweredAlone(p, old(rec), fp, old(now), out) && now == old(now)
      ensures Quiet(env) && !out.Proceed? ==> rec == old(rec)
    {
      hide Apply, Run, Avoids, Classify, Told, AnsweredAlone, Free, Lost, LiveClaim;
      trace, seen := [], 0;
      ghost var start := View();
      RunNothing(p, start);
      var next := 0;
      for attempt := 0 to 2
        invariant View() == Run(p, start, trace) && c !in live && seen <= |trace|
        invariant if attempt == 0 then trace == [] && next == 0
                  else !Quiet(env) && !Free(p, start, env, 0) && rec.None? && Step.Insert(c, fp) in trace
        invariant attempt == 1 ==> seen == |trace|
        invariant attempt == 2 ==> Run(p, start, trace[..seen]).rec.None? && Step.Insert(c, fp) in trace[seen..]
      {
        ghost var before, part, read := trace, [], 0;
        var settled;
        settled, next, part, read := Round(c, fp, env, next);
        trace := before + part;
        ReadWithin(p, start, before, part, read, c, fp);
        if settled.Some? {
          return settled.value, trace, |before| + read;
        }
        seen := if attempt == 0 then |trace| else |before|;
        assert trace[..|trace|] == trace && trace[|before|..] == part;
      }
      out := InProgress;
    }

    /** One attempt of Begin: the claim, and when that fails what the row says. None when the row has
        gone by the time it is read, which is after `read` of the steps. */
    method Round(c: Caller, fp: string, env: nat -> seq<Step>, from: nat)
      returns (out: Option<BeginResult>, next: nat, ghost trace: seq<Step>, ghost read: nat)
      requires c !in live && forall k :: Avoids(c, env(k))
      modifies this
      ensures View() == Run(p, old(View()), trace) && Step.Insert(c, fp) in trace && read <= |trace|
      ensures out.None? ==> rec.None? && !Free(p, old(View()), env, from)
      ensures out == Some(Proceed) <==> c in live
      ensures out == Some(Proceed) ==> rec == Some(Rec(fp, now, now + p.retention, None))
      ensures Free(p, old(View()), env, from) ==> out == Some(Proceed)
      ensures var t := Run(p, old(View()), trace[..read]);
              out.Some? && !out.value.Proceed? ==>
                && t.rec.Some?
                && (out.value.InProgress? ==>
                      LiveClaim(p, t, fp) || Lost(p, old(View()), t, c, fp, trace))
                && (!out.value.InProgress? ==> Told(t.rec.value, fp, out.value))
      ensures Quiet(env) ==>
                out.Some? && AnsweredAlone(p, old(rec), fp, old(now), out.value) && now == old(now)
      ensures Quiet(env) && !out.value.Proceed? ==> rec == old(rec)
    {
      hide Apply, Run, Avoids, Classify, Told, AnsweredAlone, Free, Lost, LiveClaim, AtInsert, AtDelete, AtReinsert;
      ghost var start := View();
      AloneAnswers(p, start, fp, env, from);
      var claimed;
      claimed, next, trace := TryClaim(c, fp, env, from);
      read := 0;
      if claimed {
        return Some(Proceed), next, trace, read;
      }
      ghost var before, part := trace, [];
      read := |before| + |env(next)|;
      assert forall rest :: env(next) <= rest ==> rest[..|env(next)|] == env(next);
      out, next, part := ReadAndTakeOver(c, fp, env, next);
      trace := before + part;
      ReadWithin(p, start, before, part, read - |before|, c, fp);
    }

    /** What Begin does after a failed claim: it reads the row and, when it finds an abandoned claim of
        the same request, tries to take it over. None when the row has gone. */
    method ReadAndTakeOver(c: Caller, fp: string, env: nat -> seq<Step>, from: nat)
      returns (out: Option<BeginResult>, next: nat, ghost trace: seq<Step>)
      requires c !in live && forall k :: Avoids(c, env(k))
      modifies this
      ensures View() == Run(p, old(View()), trace) && env(from) <= trace
      ensures var read := Run(p, old(View()), env(from));
              && (out.None? <==> read.rec.None?)
              && (out.None? ==> trace == env(from) && c !in live && next == from + 1)
              && (out.Some? ==>
                    && (out.value.Proceed? || out.value.InProgress? || Told(read.rec.value, fp, out.value))
                    && (out.value.InProgress? ==>
                          LiveClaim(p, read, fp) || Lost(p, old(View()), read, c, fp, trace))
                    && (Quiet(env) && !PastRetention(read.rec, read.now) ==>
                          AnsweredAlone(p, read.rec, fp, read.now, out.value)))
      ensures out == Some(Proceed) <==> c in live
      ensures out == Some(Proceed) ==> rec == Some(Rec(fp, now, now + p.retention, None))
      ensures Quiet(env) ==> now == old(now) && (out != Some(Proceed) ==> rec == old(rec))
    {
      hide Apply, Run, Avoids, Classify, Told, AnsweredAlone;
      ghost var start := View();
      RunNothing(p, start);
      Statement(p, start, [], env(from), Step.TakeOver(c, fp), c);
      Others(env(from));
      trace, next := env(from), from + 1;
      assert [] + trace == trace;
      if rec.None? {
        return None, next, trace;
      }
      ghost var read := View();
      ReadDecides(p, rec, fp, now);
      out := Classify(p, rec.value, fp, now);
      if out.Some? {
        return;
      }
      Statement(p, start, trace, env(next), Step.TakeOver(c, fp), c);
      Others(env(next));
      ghost var before := trace + env(next);
      trace := before + [Step.TakeOver(c, fp)];
      assert trace[..|trace| - 1] == before;
      var took := TakeOver(c, fp);
      out := Some(if took then Proceed else InProgress);
    }
  }

  /** The state shows a live claim of the same request. */
  predicate LiveClaim(p: Policy, s: State, fp: string) {
    s.rec.Some? && s.rec.value.fp == fp && s.rec.value.done.None? && !Abandoned(p, s.rec, s.now)
  }

  /** It showed an abandoned one, and at the request's take-over, the end of the run, it no longer was. */
  ghost predicate Lost(p: Policy, start: State, read: State, c: Caller, fp: string, trace: seq<Step>) {
    && Abandoned(p, read.rec, read.now) && read.rec.value.fp == fp
    && trace != [] && trace[|trace| - 1] == Step.TakeOver(c, fp)
    && var t := Run(p, start, trace[..|trace| - 1]); !Abandoned(p, t.rec, t.now)
  }

  /** Why a request is told of a concurrent duplicate: it read a live claim of the same request, or it
      lost the take-over it attempted, or the row it failed to insert over was gone when it read, twice. */
  ghost predicate InProgressBecause(p: Policy, s: State, c: Caller, fp: string, trace: seq<Step>, seen: nat)
    requires seen <= |trace|
  {
    var read, end := Run(p, s, trace[..seen]), Run(p, s, trace);
    || LiveClaim(p, read, fp) || Lost(p, s, read, c, fp, trace)
    || (read.rec.None? && end.rec.None? && Step.Insert(c, fp) in trace[seen..])
  }

  /** The run of one part of a request's statements within the whole: `read` steps into the part. */
  lemma ReadWithin(p: Policy, start: State, before: seq<Step>, part: seq<Step>, read: nat, c: Caller, fp: string)
    requires read <= |part|
    ensures Run(p, start, before + part) == Run(p, Run(p, start, before), part)
    ensures Run(p, start, (before + part)[..|before| + read]) == Run(p, Run(p, start, before), part[..read])
    ensures forall t :: Lost(p, Run(p, start, before), t, c, fp, part) ==> Lost(p, start, t, c, fp, before + part)
  {
    hide Run, Apply, Abandoned;
    RunAppend(p, start, before, part);
    assert (before + part)[..|before| + read] == before + part[..read];
    RunAppend(p, start, before, part[..read]);
    if part != [] {
      RunAppend(p, start, before, part[..|part| - 1]);
      assert (before + part)[..|before + part| - 1] == before + part[..|part| - 1];
    }
  }

  lemma RunNothing(p: Policy, s: State)
    ensures Run(p, s, []) == s
  {
  }

  /** One statement of request `c`, after what others commit before it. */
  lemma Statement(p: Policy, start: State, trace: seq<Step>, before: seq<Step>, step: Step, c: Caller)
    requires Avoids(c, before)
    ensures Run(p, start, trace + before) == Run(p, Run(p, start, trace), before)
    ensures Run(p, start, trace + (before + [step])) == Run(p, Run(p, Run(p, start, trace), before), [step])
    ensures Run(p, start, (trace + before) + [step]) == Run(p, Run(p, Run(p, start, trace), before), [step])
    ensures c in Run(p, Run(p, start, trace), before).live <==> c in Run(p, start, trace).live
    ensures before == [] ==> Run(p, Run(p, start, trace), before) == Run(p, start, trace)
  {
    hide Apply, Avoids;
    OthersLeaveCallerAlone(p, Run(p, start, trace), c, before);
    RunAppend(p, start, trace, before);
    RunAppend(p, start, trace + before, [step]);
    assert (trace + before) + [step] == trace + (before + [step]);
  }

  lemma AloneAnswers(p: Policy, s: State, fp: string, env: nat -> seq<Step>, from: nat)
    ensures Quiet(env) ==>
              && (Free(p, s, env, from) <==> s.rec.None? || PastRetention(s.rec, s.now))
              && AtInsert(p, s, env, from) == AtDelete(p, s, env, from) == s && AtReinsert(p, s, env, from).now == s.now
              && (Free(p, s, env, from) ==> AnsweredAlone(p, s.rec, fp, s.now, Proceed))
  {
  }

  /** What a read means, spelled out. */
  lemma ReadDecides(p: Policy, rec: Option<Rec>, fp: string, now: Time)
    requires rec.Some?
    ensures var v := Classify(p, rec.value, fp, now);
            && (v.None? <==> rec.value.fp == fp && Abandoned(p, rec, now))
            && (v == Some(InProgress) <==> rec.value.fp == fp && rec.value.done.None? && !Abandoned(p, rec, now))
            && v != Some(Proceed) && (v.Some? && !v.value.InProgress? ==> Told(rec.value, fp, v.value))
            && (!PastRetention(rec, now) ==>
                  AnsweredAlone(p, rec, fp, now, if v.Some? then v.value else Proceed))
  {
  }

  /** An insert over a row changes nothing. */
  lemma MissedInsert(p: Policy, s: State, c: Caller, fp: string)
    requires s.rec.Some?
    ensures Run(p, s, [Step.Insert(c, fp)]) == s
  {
    OneStep(p, s, Step.Insert(c, fp));
  }

  lemma OneStep(p: Policy, s: State, step: Step)
    ensures Run(p, s, [step]) == Apply(p, s, step)
  {
    assert [step][1..] == [];
  }

  // ------------------------------------------------------------- the middleware

  /** What a handler does with its response writer. */
  datatype Op = Head(code: int) | Chunk(bytes: seq<Byte>)

  function BytesOf(ops: seq<Op>): seq<Byte> {
    if ops == [] then []
    else
      var last := ops[|ops| - 1];
      BytesOf(ops[..|ops| - 1]) + (if last.Chunk? then last.bytes else [])
  }

  /** The status the client sees: the first WriteHeader, unless a body byte went out before it. */
  function StatusOf(ops: seq<Op>): int {
    if ops != [] && ops[0].Head? then ops[0].code else 200
  }

  /** Runs the handler behind the recorder. */
  method RunHandler(headers: Headers, ops: seq<Op>) returns (res: Response)
    ensures res.status == StatusOf(ops) && res.headers == headers
    ensures res.overflow <==> |BytesOf(ops)| > MAX_STORED_BODY
    ensures !res.overflow ==> res.body == BytesOf(ops)
  {
    var client := new Client(headers);
    var rec := new Recorder(client);
    for i := 0 to |ops|
      invariant rec.Valid() && rec.client == client && client.headers == headers
      invariant fresh(client) && fresh(rec)
      invariant client.sent == BytesOf(ops[..i])
      invariant rec.wroteHeader <==> i > 0
      invariant rec.status == if i > 0 then StatusOf(ops) else 200
    {
      assert ops[..i + 1][..i] == ops[..i];
      match ops[i]
      case Head(code) => rec.WriteHeader(code);
      case Chunk(bytes) => rec.Write(bytes);
    }
    assert ops[..|ops|] == ops;
    res := rec.Captured();
  }

  datatype Answer = Ran(response: Response, recorded: bool) | Panicked | Refused(reason: BeginResult)

  /** One protected request: Begin, then the handler, then Complete inline. A panicking handler
      skips the recording, so the key stays in progress until its lease runs out. */
  method Serve(slot: Slot, c: Caller, fp: string, headers: Headers, ops: seq<Op>, panics: bool,
               env: nat -> seq<Step>, during: seq<Step>)
    returns (answer: Answer, ghost trace: seq<Step>)
    requires c !in slot.live && Avoids(c, during) && forall k :: Avoids(c, env(k))
    modifies slot
    ensures slot.View() == Run(slot.p, old(slot.View()), trace) && c !in slot.live
    ensures Step.Insert(c, fp) in trace
    ensures answer.Refused? ==> !answer.reason.Proceed?
    ensures !answer.Refused? ==> (answer.Panicked? <==> panics)
    ensures Free(slot.p, old(slot.View()), env, 0) ==> !answer.Refused?
    ensures Quiet(env) ==>
              AnsweredAlone(slot.p, old(slot.rec), fp, old(slot.now),
                            if answer.Refused? then answer.reason else Proceed)
    ensures Quiet(env) && during == [] && answer.Ran? ==> answer.recorded
    ensures answer.Ran? ==>
              && trace != [] && trace[|trace| - 1] == Step.Complete(c, answer.response)
              && var t := Run(slot.p, old(slot.View()), trace[..|trace| - 1]);
                 answer.recorded <==> t.rec.Some? && t.rec.value.done.None?
    ensures answer.Ran? ==>
              && answer.response.headers == headers && answer.response.status == StatusOf(ops)
              && (answer.response.overflow <==> |BytesOf(ops)| > MAX_STORED_BODY)
              && (!answer.response.overflow ==> answer.response.body == BytesOf(ops))
    ensures answer.Ran? && answer.recorded ==>
              slot.rec.Some? && slot.rec.value.done == Some(Record(answer.response, slot.now))
  {
    hide Apply, Run, Avoids, Told, AnsweredAlone, Free;
    ghost var start, seen := slot.View(), 0;
    var out;
    out, trace, seen := slot.Begin(c, fp, env);
    if out != Proceed {
      return Refused(out), trace;
    }
    var res := RunHandler(headers, ops);
    Statement(slot.p, start, trace, during, Die(c), c);
    Statement(slot.p, start, trace, during, Step.Complete(c, res), c);
    slot.Others(during);
    trace := trace + during;
    if panics {
      OneStep(slot.p, slot.View(), Die(c));
      Stops(slot.p, slot.View(), c);
      slot.Others([Die(c)]);
      return Panicked, trace + [Die(c)];
    }
    ghost var before := trace;
    trace := before + [Step.Complete(c, res)];
    assert trace[..|trace| - 1] == before;
    OneStep(slot.p, slot.View(), Step.Complete(c, res));
    Stops(slot.p, slot.View(), c);
    var recorded := slot.CompleteRow(c, res);
    answer := Ran(res, recorded);
  }

  /** A request that completes or dies runs no longer. */
  lemma Stops(p: Policy, s: State, c: Caller)
    ensures c !in Apply(p, s, Die(c)).live && forall res :: c !in Apply(p, s, Complete(c, res)).live
  {
  }

  /** End to end: once a handler's response is recorded, every later read of the key by a request
      with the same fingerprint, up to the row's expiry and against any interleaving, replays the
      status and exactly the bytes that handler wrote, or refuses iff there were over 64 KiB. */
  lemma ReplayIsFaithful(p: Policy, s: State, c: Caller, res: Response, ops: seq<Op>, steps: seq<Step>)
    requires CompleteHits(s, Complete(c, res))
    requires res.status == StatusOf(ops) && (res.overflow <==> |BytesOf(ops)| > MAX_STORED_BODY)
    requires !res.overflow ==> res.body == BytesOf(ops)
    requires Run(p, Apply(p, s, Complete(c, res)), steps).now < s.rec.value.expiresAt
    ensures var end := Run(p, Apply(p, s, Complete(c, res)), steps);
            && end.rec.Some?
            && Classify(p, end.rec.value, s.rec.value.fp, end.now) == Some(
                 if |BytesOf(ops)| > MAX_STORED_BODY then NotReplayable
                 else Replayed(Replay(StatusOf(ops), DecodeHeaders(EncodeHeaders(res.headers)), BytesOf(ops))))
  {
    CompletedIsStable(p, Apply(p, s, Complete(c, res)), steps);
  }
}
