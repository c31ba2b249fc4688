/** The claim protocol of one idempotency key (internal/idempotency/store.go).

    (tenant, key) is the primary key, so every statement reads and writes one row; this module
    follows that row and the requests told to run their handler. Each statement is its own
    committed transaction, and a run interleaves the statements of any number of requests. */
module Idempotency {
  import opened Prelude
  import opened Capture

  /** One HTTP request; two requests never share an identity. */
  type Caller = nat

  datatype Policy = Policy(retention: Time, lease: Time)

  /** The response columns Complete writes. */
  datatype Stored = Stored(status: int, headers: Headers, body: seq<Byte>, replayable: bool, at: Time)

  /** The row: in progress until `done` is set. */
  datatype Rec = Rec(fp: string, createdAt: Time, expiresAt: Time, done: Option<Stored>)

  /** The row, the request whose claim wrote it last, and the requests now running a handler with
      the time each was told to proceed. */
  datatype State = State(rec: Option<Rec>, claimant: Caller, live: map<Caller, Time>, now: Time)

  function Init(now: Time): State { State(None, 0, map[], now) }

  predicate Stale(p: Policy, r: Rec, now: Time) {
    r.done.None? && r.createdAt < now - p.lease
  }

  predicate Expired(r: Rec, now: Time) { r.expiresAt <= now }

  /** What Complete stores: an overflowed body is dropped, never truncated. */
  function Record(res: Response, now: Time): Stored {
    Stored(res.status, EncodeHeaders(res.headers), if res.overflow then [] else res.body, !res.overflow, now)
  }

  datatype Step =
    | Tick(d: nat)
    | Insert(c: Caller, fp: string)
    | ClearExpired
    | TakeOver(c: Caller, fp: string)
    | Complete(c: Caller, res: Response)
    | Sweep
    | Die(c: Caller)

  predicate InsertWins(s: State, step: Step) {
    step.Insert? && s.rec.None? && step.c !in s.live
  }

  predicate TakeOverWins(p: Policy, s: State, step: Step) {
    step.TakeOver? && s.rec.Some? && Stale(p, s.rec.value, s.now) && step.c !in s.live
  }

  predicate CompleteHits(s: State, step: Step) {
    step.Complete? && step.c in s.live && s.rec.Some? && s.rec.value.done.None?
  }

  predicate Deletes(p: Policy, s: State, step: Step) {
    s.rec.Some? &&
    ( || (step.ClearExpired? && s.rec.value.done.Some? && Expired(s.rec.value, s.now))
      || (step.Sweep? && (Expired(s.rec.value, s.now) || Stale(p, s.rec.value, s.now))))
  }

  function Claimed(p: Policy, s: State, c: Caller, fp: string): State {
    s.(rec := Some(Rec(fp, s.now, s.now + p.retention, None)), claimant := c, live := s.live[c := s.now])
  }

  function Apply(p: Policy, s: State, step: Step): State {
    match step
    case Tick(d) => s.(now := s.now + d)
    case Insert(c, fp) => if InsertWins(s, step) then Claimed(p, s, c, fp) else s
    case TakeOver(c, fp) => if TakeOverWins(p, s, step) then Claimed(p, s, c, fp) else s
    case Complete(c, res) =>
      var t := s.(live := s.live - {c});
      if CompleteHits(s, step) then t.(rec := Some(s.rec.value.(done := Some(Record(res, s.now))))) else t
    case Die(c) => s.(live := s.live - {c})
    case _ => if Deletes(p, s, step) then s.(rec := None) else s
  }

  function Run(p: Policy, s: State, steps: seq<Step>): State
    decreases |steps|
  {
    if steps == [] then s else Run(p, Apply(p, s, steps[0]), steps[1..])
  }

  lemma {:induction false} RunAppend(p: Policy, s: State, a: seq<Step>, b: seq<Step>)
    ensures Run(p, s, a + b) == Run(p, Run(p, s, a), b)
    decreases |a|
  {
    if a == [] {
      assert a + b == b;
    } else {
      assert (a + b)[1..] == a[1..] + b;
      RunAppend(p, Apply(p, s, a[0]), a[1..], b);
    }
  }

  // ------------------------------------------- without any assumption on timing

  datatype Tally = Tally(inserts: nat, takes: nat, completes: nat, deletes: nat)

  function Count(b: bool): nat { if b then 1 else 0 }

  function Tallied(p: Policy, s: State, steps: seq<Step>): Tally
    decreases |steps|
  {
    if steps == [] then Tally(0, 0, 0, 0)
    else
      var t := Tallied(p, Apply(p, s, steps[0]), steps[1..]);
      Tally(Count(InsertWins(s, steps[0])) + t.inserts, Count(TakeOverWins(p, s, steps[0])) + t.takes,
            Count(CompleteHits(s, steps[0])) + t.completes, Count(Deletes(p, s, steps[0])) + t.deletes)
  }

  /** The sweeper removes a row iff it is past its retention, completed or not, or its claim outlived the
      lease without completing; it stops no handler. */
  lemma SweepRemovesIff(p: Policy, s: State)
    ensures Apply(p, s, Sweep).rec == None
            <==> s.rec.Some? ==> s.rec.value.expiresAt <= s.now
                                 || (s.rec.value.done.None? && s.rec.value.createdAt + p.lease < s.now)
    ensures Apply(p, s, Sweep) == s.(rec := Apply(p, s, Sweep).rec)
    ensures Apply(p, s, Sweep).rec in {None, s.rec}
  {
  }

  /** One generation of the row, from any moment it exists until it is deleted. Nobody else inserts;
      at most one Complete succeeds; take-overs are more than a lease apart, so racing ones have one
      winner per lease period; once completed the record never changes. */
  lemma {:induction false} OneGeneration(p: Policy, s: State, steps: seq<Step>)
    requires p.lease >= 0 && s.rec.Some? && s.rec.value.createdAt <= s.now
    requires Tallied(p, s, steps).deletes == 0
    ensures var end, t := Run(p, s, steps), Tallied(p, s, steps);
            && end.rec.Some? && t.inserts == 0
            && t.completes == Count(s.rec.value.done.None? && end.rec.value.done.Some?)
            && t.takes * (p.lease + 1) <= end.rec.value.createdAt - s.rec.value.createdAt
            && end.rec.value.createdAt <= end.now
            && (s.rec.value.done.Some? ==> end.rec == s.rec && t.takes == 0)
    decreases |steps|
  {
    if steps != [] {
      var s1 := Apply(p, s, steps[0]);
      OneGeneration(p, s1, steps[1..]);
      var k := Tallied(p, s1, steps[1..]).takes;
      assert (k + 1) * (p.lease + 1) == k * (p.lease + 1) + (p.lease + 1);
    }
  }

  /** The handler runs of a generation: one for the insert that opened it and one for each
      successful take-over, at most one per lease period of the time it lasted. */
  lemma HandlerRunsPerGeneration(p: Policy, s: State, c: Caller, fp: string, steps: seq<Step>)
    requires p.lease >= 0 && InsertWins(s, Insert(c, fp))
    requires Tallied(p, s, [Insert(c, fp)] + steps).deletes == 0
    ensures var all := [Insert(c, fp)] + steps;
            var t := Tallied(p, s, all);
            && t.inserts == 1 && t.completes <= 1
            && (t.inserts + t.takes - 1) * (p.lease + 1) <= Run(p, s, all).now - s.now
  {
    var all := [Insert(c, fp)] + steps;
    assert all[1..] == steps;
    OneGeneration(p, Apply(p, s, all[0]), steps);
  }

  /** No second effect before the retention ends: from a completion until `expiresAt`, whatever any
      request or sweep does, the record stays byte for byte and no handler is told to run. */
  lemma {:induction false} CompletedIsStable(p: Policy, s: State, steps: seq<Step>)
    requires s.rec.Some? && s.rec.value.done.Some?
    requires Run(p, s, steps).now < s.rec.value.expiresAt
    ensures Run(p, s, steps).rec == s.rec
    ensures var t := Tallied(p, s, steps); t.inserts == t.takes == t.completes == t.deletes == 0
    decreases |steps|
  {
    if steps != [] {
      TimeOnlyGrows(p, s, steps);
      CompletedIsStable(p, Apply(p, s, steps[0]), steps[1..]);
    }
  }

  lemma {:induction false} TimeOnlyGrows(p: Policy, s: State, steps: seq<Step>)
    ensures s.now <= Run(p, s, steps).now
    decreases |steps|
  {
    if steps != [] {
      TimeOnlyGrows(p, Apply(p, s, steps[0]), steps[1..]);
    }
  }

  // ---------------------------------------------- mutual exclusion of handlers

  /** Every request running a handler is still within `bound` of its claim. */
  predicate Prompt(bound: Time, s: State) {
    forall c :: c in s.live ==> s.now <= s.live[c] + bound
  }

  /** The run's timing assumption: whoever is told to proceed dies or completes within `bound`. */
  predicate AlwaysPrompt(p: Policy, bound: Time, s: State, steps: seq<Step>)
    decreases |steps|
  {
    Prompt(bound, s) && (steps != [] ==> AlwaysPrompt(p, bound, Apply(p, s, steps[0]), steps[1..]))
  }

  /** A running request owns the row: it is in progress and was written by that request's claim.
      In particular two requests never run together, and each one's Complete will hit. */
  predicate Exclusive(p: Policy, s: State) {
    forall c :: c in s.live ==>
      && s.claimant == c && s.rec.Some? && s.rec.value.done.None?
      && s.rec.value.createdAt == s.live[c] && s.rec.value.expiresAt == s.live[c] + p.retention
  }

  lemma {:induction false} PromptRunsAreExclusive(p: Policy, bound: Time, s: State, steps: seq<Step>)
    requires bound <= p.lease && bound < p.retention && Exclusive(p, s) && AlwaysPrompt(p, bound, s, steps)
    ensures Exclusive(p, Run(p, s, steps))
    ensures forall i {:trigger steps[i]} :: 0 <= i < |steps| && steps[i].Complete? ==>
              var t := Run(p, s, steps[..i]);
              steps[i].c in t.live ==> CompleteHits(t, steps[i]) && t.claimant == steps[i].c
    decreases |steps|
  {
    if steps != [] {
      var s1 := Apply(p, s, steps[0]);
      PromptRunsAreExclusive(p, bound, s1, steps[1..]);
      forall i {:trigger steps[i]} | 0 <= i < |steps| && steps[i].Complete?
        ensures var t := Run(p, s, steps[..i]);
                steps[i].c in t.live ==> CompleteHits(t, steps[i]) && t.claimant == steps[i].c
      {
        if i > 0 {
          assert steps[1..][i - 1] == steps[i];
          assert steps[..i][1..] == steps[1..][..i - 1];
        }
      }
    }
  }

  /** Two requests for one key, the second inserting as soon as the first one's row has expired and been swept. */
  function EarlySweep(p: Policy): seq<Step>
    requires p.retention >= 0
  {
    [Insert(1, ""), Tick(p.retention), Sweep, Insert(2, "")]
  }

  lemma PromptStep(p: Policy, bound: Time, s: State, t: State, step: Step, rest: seq<Step>)
    requires Apply(p, s, step) == t && AlwaysPrompt(p, bound, t, rest) && Prompt(bound, s)
    ensures AlwaysPrompt(p, bound, s, [step] + rest) && Run(p, s, [step] + rest) == Run(p, t, rest)
  {
    assert ([step] + rest)[1..] == rest;
  }

  lemma EarlySweepRun(p: Policy, bound: Time)
    requires 0 < p.retention <= bound
    ensures AlwaysPrompt(p, bound, Init(0), EarlySweep(p))
    ensures !Exclusive(p, Run(p, Init(0), EarlySweep(p)))
  {
    var e := EarlySweep(p);
    var s1 := Claimed(p, Init(0), 1, "");
    var s2 := s1.(now := p.retention);
    var s3 := s2.(rec := None);
    var s4 := Claimed(p, s3, 2, "");
    PromptStep(p, bound, s3, s4, e[3], []);
    PromptStep(p, bound, s2, s3, e[2], [e[3]]);
    PromptStep(p, bound, s1, s2, e[1], [e[2], e[3]]);
    PromptStep(p, bound, Init(0), s1, e[0], [e[1], e[2], e[3]]);
    assert e == [e[0]] + [e[1], e[2], e[3]];
    assert [e[1], e[2], e[3]] == [e[1]] + [e[2], e[3]] && [e[2], e[3]] == [e[2]] + [e[3]];
    assert [e[3]] == [e[3]] + [];
    assert 1 in s4.live && 2 in s4.live;
  }

  /** Two requests for one key, the second taking over as soon as the first one's lease has run out. */
  function EarlyTakeOver(p: Policy): seq<Step>
    requires p.lease >= 0
  {
    [Insert(1, ""), Tick(p.lease + 1), TakeOver(2, "")]
  }

  lemma EarlyTakeOverRun(p: Policy, bound: Time)
    requires 0 < p.lease < bound
    ensures AlwaysPrompt(p, bound, Init(0), EarlyTakeOver(p))
    ensures !Exclusive(p, Run(p, Init(0), EarlyTakeOver(p)))
  {
    var e := EarlyTakeOver(p);
    var s1 := Claimed(p, Init(0), 1, "");
    var s2 := s1.(now := p.lease + 1);
    var s3 := Claimed(p, s2, 2, "");
    PromptStep(p, bound, s2, s3, e[2], []);
    PromptStep(p, bound, s1, s2, e[1], [e[2]]);
    PromptStep(p, bound, Init(0), s1, e[0], [e[1], e[2]]);
    assert e == [e[0]] + [e[1], e[2]] && [e[1], e[2]] == [e[1]] + [e[2]] && [e[2]] == [e[2]] + [];
    assert 1 in s3.live && 2 in s3.live;
  }

  /** Handlers of one key exclude each other on every run whose handlers finish within `bound` exactly
      when the bound is at most the lease and below the retention. The constructor relates none of
      the three. */
  lemma ExclusionIff(p: Policy, bound: Time)
    requires p.retention > 0 && p.lease > 0
    ensures (forall steps :: AlwaysPrompt(p, bound, Init(0), steps) ==> Exclusive(p, Run(p, Init(0), steps)))
            <==> bound <= p.lease && bound < p.retention
  {
    if bound > p.lease {
      EarlyTakeOverRun(p, bound);
    } else if bound >= p.retention {
      EarlySweepRun(p, bound);
    } else {
      forall steps | AlwaysPrompt(p, bound, Init(0), steps) ensures Exclusive(p, Run(p, Init(0), steps)) {
        PromptRunsAreExclusive(p, bound, Init(0), steps);
      }
    }
  }

  /** Complete carries no claim token: a handler that outlived its lease records its response in
      the row of the request that took over, and that request's own Complete then misses. */
  lemma LateHandlerCompletesAnothersClaim(p: Policy, late: Response, mine: Response)
    returns (s: State, steps: seq<Step>)
    requires p.lease >= 0 && p.retention > 0
    ensures s == Run(p, Init(0), steps) && s.rec.Some? && s.claimant == 2 && 2 in s.live
    ensures s.rec.value.done == Some(Record(late, s.now))
    ensures !CompleteHits(s, Complete(2, mine))
  {
    steps := [Insert(1, ""), Tick(p.lease + 1), TakeOver(2, ""), Complete(1, late)];
    var s1 := Claimed(p, Init(0), 1, "");
    var s2 := s1.(now := p.lease + 1);
    var s3 := Claimed(p, s2, 2, "");
    s := Apply(p, s3, steps[3]);
    assert steps[1..][1..][1..] == [steps[3]] && [steps[3]][1..] == [];
    assert Run(p, s3, [steps[3]]) == s;
    assert Run(p, s2, steps[1..][1..]) == s;
    assert Run(p, s1, steps[1..]) == s;
  }
}
