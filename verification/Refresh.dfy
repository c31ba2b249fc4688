/** Refresh-token families as a state machine (internal/authn/refresh.go).

    A rotation is one transaction under READ COMMITTED: it looks the token up, then checks the
    family, then claims, inserts and links. Other transactions commit between these, so each is a
    step of its own; the last three statements write together at the commit. */
module Refresh {
  import opened Prelude

  type Hash = nat
  type FamilyId = nat
  type UserId = nat
  type Request = nat

  datatype Token = Token(family: FamilyId, user: UserId, expiresAt: Time, consumedAt: Option<Time>,
                         replacedBy: Option<Hash>)

  datatype Family = Family(user: UserId, revokedAt: Option<Time>)

  /** Where a rotation stands. `at` is its transaction's now(). */
  datatype Flight =
    | Looked(hash: Hash, at: Time, token: Token)
    | Ready(hash: Hash, at: Time)
    | Replayed(hash: Hash, at: Time, family: FamilyId)

  datatype State = State(families: map<FamilyId, Family>, tokens: map<Hash, Token>,
                         flights: map<Request, Flight>, grace: Time, now: Time)

  function Init(grace: Time, now: Time): State { State(map[], map[], map[], grace, now) }

  datatype Step =
    | Tick(d: nat)
    | StartSession(family: FamilyId, user: UserId, hash: Hash, expiresAt: Time)
    | LookUp(req: Request, hash: Hash)
    | CheckFamily(req: Request, appNow: Time)
    | Commit(req: Request, newHash: Hash, newExpiry: Time)
    | RevokeReplayed(req: Request)
    | Revoke(targets: set<FamilyId>)
    | Abandon(req: Request)

  /** consumed_at lies outside the grace window, as the database computed it at the lookup. */
  predicate OutsideGrace(consumedAt: Time, at: Time, grace: Time) { at - consumedAt > grace }

  datatype Verdict = Go | Revoked | Expired | RetryRace | Reuse

  /** The switch between the two reads and the claim, in the order of the source. */
  function Judge(s: State, f: Flight, appNow: Time): Verdict
    requires f.Looked?
  {
    if f.token.family in s.families && s.families[f.token.family].revokedAt.Some? then Revoked
    else if f.token.expiresAt <= appNow then Expired
    else if f.token.consumedAt.None? then Go
    else if OutsideGrace(f.token.consumedAt.value, f.at, s.grace) then Reuse
    else RetryRace
  }

  function RevokeAll(families: map<FamilyId, Family>, targets: set<FamilyId>, now: Time): map<FamilyId, Family> {
    map f | f in families ::
      if f in targets && families[f].revokedAt.None? then families[f].(revokedAt := Some(now)) else families[f]
  }

  /** The claim matches the token and the successor's hash is free (it is the primary key). */
  predicate Wins(s: State, step: Step) {
    && step.Commit? && step.req in s.flights && s.flights[step.req].Ready?
    && s.flights[step.req].hash in s.tokens
    && s.tokens[s.flights[step.req].hash].consumedAt.None?
    && step.newHash !in s.tokens
  }

  /** Claim, insert, link. */
  function Rotated(tokens: map<Hash, Token>, h: Hash, at: Time, newHash: Hash, newExpiry: Time): map<Hash, Token>
    requires h in tokens
  {
    var t := tokens[h];
    tokens[newHash := Token(t.family, t.user, newExpiry, None, None)]
          [h := t.(consumedAt := Some(at), replacedBy := Some(newHash))]
  }

  function Apply(s: State, step: Step): State {
    match step
    case Tick(d) => s.(now := s.now + d)
    case StartSession(f, user, hash, expiresAt) =>
      if f in s.families || hash in s.tokens then s
      else s.(families := s.families[f := Family(user, None)],
              tokens := s.tokens[hash := Token(f, user, expiresAt, None, None)])
    case LookUp(req, hash) =>
      if req !in s.flights && hash in s.tokens
      then s.(flights := s.flights[req := Looked(hash, s.now, s.tokens[hash])]) else s
    case CheckFamily(req, appNow) =>
      if req in s.flights && s.flights[req].Looked? then
        var f := s.flights[req];
        match Judge(s, f, appNow)
        case Go => s.(flights := s.flights[req := Ready(f.hash, f.at)])
        case Reuse => s.(flights := s.flights[req := Replayed(f.hash, f.at, f.token.family)])
        case _ => s.(flights := s.flights - {req})
      else s
    case Commit(req, newHash, newExpiry) =>
      var t := s.(flights := s.flights - {req});
      if Wins(s, step) then
        t.(tokens := Rotated(s.tokens, s.flights[req].hash, s.flights[req].at, newHash, newExpiry))
      else t
    case RevokeReplayed(req) =>
      if req in s.flights && s.flights[req].Replayed? then
        s.(families := RevokeAll(s.families, {s.flights[req].family}, s.now), flights := s.flights - {req})
      else s
    case Revoke(targets) => s.(families := RevokeAll(s.families, targets, s.now))
    case Abandon(req) => s.(flights := s.flights - {req})
  }

  function Run(s: State, steps: seq<Step>): State
    decreases |steps|
  {
    if steps == [] then s else Run(Apply(s, steps[0]), steps[1..])
  }

  lemma {:induction false} RunAppend(s: State, a: seq<Step>, b: seq<Step>)
    ensures Run(s, a + b) == Run(Run(s, a), b)
    decreases |a|
  {
    if a == [] {
      assert a + b == b;
    } else {
      assert (a + b)[1..] == a[1..] + b;
      RunAppend(Apply(s, a[0]), a[1..], b);
    }
  }

  // ------------------------------------------------------- families are linear

  /** The i-th token of the list was exchanged for the next one. */
  predicate LinkedAt(tokens: map<Hash, Token>, c: seq<Hash>, i: nat) {
    i + 1 < |c| && c[i] in tokens && tokens[c[i]].consumedAt.Some? && tokens[c[i]].replacedBy == Some(c[i + 1])
  }

  /** `c` lists the family's tokens, first to newest: each but the last is consumed and linked to
      the next, the last is neither. */
  predicate IsChain(tokens: map<Hash, Token>, f: FamilyId, c: seq<Hash>) {
    && c != []
    && (forall i, j :: 0 <= i < j < |c| ==> c[i] != c[j])
    && (forall i :: 0 <= i < |c| ==> c[i] in tokens && tokens[c[i]].family == f)
    && (forall h :: h in tokens && tokens[h].family == f ==> h in c)
    && (forall i :: 0 <= i < |c| - 1 ==> LinkedAt(tokens, c, i))
    && tokens[c[|c| - 1]].consumedAt.None? && tokens[c[|c| - 1]].replacedBy.None?
  }

  /** Every flight refers to a token the database has, as the lookup saw it or later; a flight about
      to revoke was shown a token consumed longer ago than the grace window. */
  predicate FlightOk(s: State, f: Flight) {
    && f.hash in s.tokens
    && (f.Looked? ==> f.token.family == s.tokens[f.hash].family
                      && (f.token.consumedAt.Some? ==> f.token.consumedAt == s.tokens[f.hash].consumedAt))
    && (f.Replayed? ==> f.family == s.tokens[f.hash].family
                        && s.tokens[f.hash].consumedAt.Some?
                        && OutsideGrace(s.tokens[f.hash].consumedAt.value, f.at, s.grace))
  }

  predicate Ok(s: State) {
    && (forall h :: h in s.tokens ==> s.tokens[h].family in s.families
                                      && s.tokens[h].user == s.families[s.tokens[h].family].user)
    && (forall r :: r in s.flights ==> FlightOk(s, s.flights[r]))
  }

  type Chains = map<FamilyId, seq<Hash>>

  predicate AllChains(tokens: map<Hash, Token>, ch: Chains) {
    forall f :: f in ch ==> IsChain(tokens, f, ch[f])
  }

  predicate Linear(s: State, ch: Chains) {
    ch.Keys == s.families.Keys && AllChains(s.tokens, ch)
  }

  function WinsIn(s: State, step: Step, f: FamilyId): nat {
    if Wins(s, step) && s.tokens[s.flights[step.req].hash].family == f then 1 else 0
  }

  function Rotations(s: State, steps: seq<Step>, f: FamilyId): nat
    decreases |steps|
  {
    if steps == [] then 0 else WinsIn(s, steps[0], f) + Rotations(Apply(s, steps[0]), steps[1..], f)
  }

  lemma RevokeAllKeepsUsers(families: map<FamilyId, Family>, targets: set<FamilyId>, now: Time)
    ensures RevokeAll(families, targets, now).Keys == families.Keys
    ensures forall f :: f in families ==> RevokeAll(families, targets, now)[f].user == families[f].user
  {
  }

  lemma StepKeepsOwners(s: State, step: Step)
    requires Ok(s)
    ensures var t := Apply(s, step);
            forall h :: h in t.tokens ==> t.tokens[h].family in t.families
                                          && t.tokens[h].user == t.families[t.tokens[h].family].user
  {
    hide FlightOk, Judge, RevokeAll;
    if step.Revoke? {
      RevokeAllKeepsUsers(s.families, step.targets, s.now);
    } else if step.RevokeReplayed? && step.req in s.flights && s.flights[step.req].Replayed? {
      RevokeAllKeepsUsers(s.families, {s.flights[step.req].family}, s.now);
    }
  }

  lemma StepKeepsFlights(s: State, step: Step, r: Request)
    requires Ok(s) && r in Apply(s, step).flights
    ensures FlightOk(Apply(s, step), Apply(s, step).flights[r])
  {
    hide RevokeAll;
    assert r in s.flights ==> FlightOk(s, s.flights[r]);
  }

  lemma StepKeepsOk(s: State, step: Step)
    requires Ok(s)
    ensures Ok(Apply(s, step))
  {
    StepKeepsOwners(s, step);
    hide Apply, FlightOk;
    forall r | r in Apply(s, step).flights ensures FlightOk(Apply(s, step), Apply(s, step).flights[r]) {
      StepKeepsFlights(s, step, r);
    }
  }

  /** The unconsumed token of a family is the end of its chain. */
  lemma UnconsumedIsLast(tokens: map<Hash, Token>, f: FamilyId, c: seq<Hash>, h: Hash)
    requires IsChain(tokens, f, c) && h in tokens && tokens[h].family == f && tokens[h].consumedAt.None?
    ensures h == c[|c| - 1]
  {
    var i :| 0 <= i < |c| && c[i] == h;
    assert i < |c| - 1 ==> LinkedAt(tokens, c, i);
  }

  lemma ChainGrows(tokens: map<Hash, Token>, f: FamilyId, c: seq<Hash>, at: Time, newHash: Hash, newExpiry: Time)
    requires IsChain(tokens, f, c) && newHash !in tokens
    ensures IsChain(Rotated(tokens, c[|c| - 1], at, newHash, newExpiry), f, c + [newHash])
  {
    var t, c' := Rotated(tokens, c[|c| - 1], at, newHash, newExpiry), c + [newHash];
    forall i | 0 <= i < |c| ensures LinkedAt(t, c', i) {
      assert i < |c| - 1 ==> LinkedAt(tokens, c, i) && c[i] != c[|c| - 1];
    }
    forall h | h in t && t[h].family == f ensures h in c' {
      assert h == newHash || h in tokens;
    }
  }

  /** A chain does not see what happens to other families. */
  lemma ChainFrame(tokens: map<Hash, Token>, t: map<Hash, Token>, f: FamilyId, c: seq<Hash>)
    requires IsChain(tokens, f, c)
    requires forall h :: h in tokens && tokens[h].family == f ==> h in t && t[h] == tokens[h]
    requires forall h :: h in t && t[h].family == f ==> h in tokens && t[h] == tokens[h]
    ensures IsChain(t, f, c)
  {
    forall i | 0 <= i < |c| - 1 ensures LinkedAt(t, c, i) {
      assert LinkedAt(tokens, c, i);
    }
  }

  lemma RotationKeepsOtherChain(tokens: map<Hash, Token>, h: Hash, at: Time, newHash: Hash, newExpiry: Time,
                                g: FamilyId, c: seq<Hash>)
    requires IsChain(tokens, g, c) && h in tokens && newHash !in tokens && tokens[h].family != g
    ensures IsChain(Rotated(tokens, h, at, newHash, newExpiry), g, c)
  {
    ChainFrame(tokens, Rotated(tokens, h, at, newHash, newExpiry), g, c);
  }

  function Extended(ch: Chains, f: FamilyId, newHash: Hash): Chains
    requires f in ch
  {
    ch[f := ch[f] + [newHash]]
  }

  lemma RotationExtendsChain(tokens: map<Hash, Token>, ch: Chains, h: Hash, at: Time, newHash: Hash,
                             newExpiry: Time, g: FamilyId)
    requires h in tokens && tokens[h].consumedAt.None? && newHash !in tokens
    requires tokens[h].family in ch && IsChain(tokens, tokens[h].family, ch[tokens[h].family])
    requires g in ch && IsChain(tokens, g, ch[g])
    ensures IsChain(Rotated(tokens, h, at, newHash, newExpiry), g, Extended(ch, tokens[h].family, newHash)[g])
  {
    var f := tokens[h].family;
    UnconsumedIsLast(tokens, f, ch[f], h);
    if g == f {
      ChainGrows(tokens, f, ch[f], at, newHash, newExpiry);
    } else {
      RotationKeepsOtherChain(tokens, h, at, newHash, newExpiry, g, ch[g]);
    }
  }

  lemma NewFamilyStartsChain(tokens: map<Hash, Token>, hash: Hash, token: Token)
    requires forall h :: h in tokens ==> tokens[h].family != token.family
    requires hash !in tokens && token.consumedAt.None? && token.replacedBy.None?
    ensures IsChain(tokens[hash := token], token.family, [hash])
  {
  }

  lemma NewFamilyKeepsChains(tokens: map<Hash, Token>, ch: Chains, hash: Hash, token: Token)
    requires AllChains(tokens, ch) && token.family !in ch && hash !in tokens
    requires forall h :: h in tokens ==> tokens[h].family != token.family
    requires token.consumedAt.None? && token.replacedBy.None?
    ensures AllChains(tokens[hash := token], ch[token.family := [hash]])
  {
    NewFamilyStartsChain(tokens, hash, token);
    forall g | g in ch ensures IsChain(tokens[hash := token], g, ch[g]) {
      ChainFrame(tokens, tokens[hash := token], g, ch[g]);
    }
  }

  lemma RotationKeepsChains(tokens: map<Hash, Token>, ch: Chains, h: Hash, at: Time, newHash: Hash, newExpiry: Time)
    requires AllChains(tokens, ch) && h in tokens && newHash !in tokens
    requires tokens[h].consumedAt.None? && tokens[h].family in ch
    ensures AllChains(Rotated(tokens, h, at, newHash, newExpiry), Extended(ch, tokens[h].family, newHash))
  {
    hide IsChain, Rotated;
    var ch' := Extended(ch, tokens[h].family, newHash);
    forall g | g in ch' ensures IsChain(Rotated(tokens, h, at, newHash, newExpiry), g, ch'[g]) {
      RotationExtendsChain(tokens, ch, h, at, newHash, newExpiry, g);
    }
  }

  lemma OtherStepsKeepTokens(s: State, step: Step)
    requires !Wins(s, step)
    requires !(step.StartSession? && step.family !in s.families && step.hash !in s.tokens)
    ensures Apply(s, step).tokens == s.tokens && Apply(s, step).families.Keys == s.families.Keys
  {
  }

  /** The chains after a step. */
  function ChainsAfter(s: State, step: Step, ch: Chains): Chains {
    if Wins(s, step) && s.tokens[s.flights[step.req].hash].family in ch
    then Extended(ch, s.tokens[s.flights[step.req].hash].family, step.newHash)
    else if step.StartSession? && step.family !in s.families && step.hash !in s.tokens
    then ch[step.family := [step.hash]]
    else ch
  }

  function ChainsRun(s: State, steps: seq<Step>, ch: Chains): Chains
    decreases |steps|
  {
    if steps == [] then ch else ChainsRun(Apply(s, steps[0]), steps[1..], ChainsAfter(s, steps[0], ch))
  }

  lemma StepKeepsLinear(s: State, step: Step, ch: Chains)
    requires Ok(s) && Linear(s, ch)
    ensures Linear(Apply(s, step), ChainsAfter(s, step, ch))
  {
    hide IsChain, FlightOk;
    if Wins(s, step) {
      var fl := s.flights[step.req];
      RotationKeepsChains(s.tokens, ch, fl.hash, fl.at, step.newHash, step.newExpiry);
    } else if step.StartSession? && step.family !in s.families && step.hash !in s.tokens {
      NewFamilyKeepsChains(s.tokens, ch, step.hash, Token(step.family, step.user, step.expiresAt, None, None));
    } else {
      OtherStepsKeepTokens(s, step);
    }
  }

  lemma ChainLengths(s: State, step: Step, ch: Chains, f: FamilyId)
    requires Ok(s) && ch.Keys == s.families.Keys
    ensures f in ch ==> f in ChainsAfter(s, step, ch) && ch[f] <= ChainsAfter(s, step, ch)[f]
    ensures f in ChainsAfter(s, step, ch) ==>
              |ChainsAfter(s, step, ch)[f]| == (if f in ch then |ch[f]| else 1) + WinsIn(s, step, f)
    ensures f !in ChainsAfter(s, step, ch) ==> WinsIn(s, step, f) == 0
  {
    hide Apply, FlightOk;
  }

  /** Families never fork. Over any interleaving of any number of rotations, revocations and
      crashes, each family is one chain through all its tokens with exactly one unconsumed token, at
      its end. */
  lemma {:induction false} FamiliesAreLinear(s: State, steps: seq<Step>, ch: Chains)
    requires Ok(s) && Linear(s, ch)
    ensures Ok(Run(s, steps)) && Linear(Run(s, steps), ChainsRun(s, steps, ch))
    decreases |steps|
  {
    hide Apply, Ok, Linear, ChainsAfter;
    if steps != [] {
      StepKeepsOk(s, steps[0]);
      StepKeepsLinear(s, steps[0], ch);
      FamiliesAreLinear(Apply(s, steps[0]), steps[1..], ChainsAfter(s, steps[0], ch));
    }
  }

  /** Chains only grow, and the number of a family's tokens is one plus its successful rotations. */
  lemma {:induction false} ChainsCountRotations(s: State, steps: seq<Step>, ch: Chains, f: FamilyId)
    requires Ok(s) && Linear(s, ch)
    ensures var ch' := ChainsRun(s, steps, ch);
            && (f in ch ==> f in ch' && ch[f] <= ch'[f])
            && (f in ch' ==> |ch'[f]| == (if f in ch then |ch[f]| else 1) + Rotations(s, steps, f))
    decreases |steps|
  {
    if steps != [] {
      StepKeepsOk(s, steps[0]);
      StepKeepsLinear(s, steps[0], ch);
      ChainLengths(s, steps[0], ch, f);
      hide Apply, Ok, AllChains, ChainsAfter, WinsIn;
      ChainsCountRotations(Apply(s, steps[0]), steps[1..], ChainsAfter(s, steps[0], ch), f);
    }
  }

  function WinsWith(s: State, steps: seq<Step>, h: Hash): nat
    decreases |steps|
  {
    if steps == [] then 0
    else (if Wins(s, steps[0]) && s.flights[steps[0].req].hash == h then 1 else 0)
         + WinsWith(Apply(s, steps[0]), steps[1..], h)
  }

  predicate Spent(s: State, h: Hash) { h in s.tokens && s.tokens[h].consumedAt.Some? }

  /** A token is single-use: of any number of requests presenting it, in any interleaving, at most
      one is answered with a successor, and none once it is consumed. */
  lemma {:induction false} TokenIsSingleUse(s: State, steps: seq<Step>, h: Hash)
    ensures WinsWith(s, steps, h) <= 1
    ensures Spent(s, h) ==> WinsWith(s, steps, h) == 0 && Spent(Run(s, steps), h)
    decreases |steps|
  {
    if steps != [] {
      TokenIsSingleUse(Apply(s, steps[0]), steps[1..], h);
    }
  }

  // ------------------------------------------------------ revocation is final

  predicate RevokedIn(s: State, f: FamilyId) { f in s.families && s.families[f].revokedAt.Some? }

  /** A rotation already past its family check still holds the family's unconsumed token. */
  predicate LateRotationPossible(s: State, f: FamilyId) {
    exists r :: r in s.flights && s.flights[r].Ready? && s.flights[r].hash in s.tokens
                && s.tokens[s.flights[r].hash].family == f && s.tokens[s.flights[r].hash].consumedAt.None?
  }

  /** After a revocation no request passes the family check again. */
  lemma RevokedFamilyAdmitsNobody(s: State, step: Step, f: FamilyId)
    requires Ok(s) && RevokedIn(s, f)
    ensures RevokedIn(Apply(s, step), f)
    ensures forall r :: r in Apply(s, step).flights && Apply(s, step).flights[r].Ready?
                        && Apply(s, step).tokens[Apply(s, step).flights[r].hash].family == f
                        ==> r in s.flights && s.flights[r] == Apply(s, step).flights[r]
  {
    StepKeepsOk(s, step);
    StepStaysRevoked(s, step, f);
    hide Apply, RevokedIn, FlightOk;
    var t := Apply(s, step);
    forall r | r in t.flights && t.flights[r].Ready? && t.tokens[t.flights[r].hash].family == f
      ensures r in s.flights && s.flights[r] == t.flights[r]
    {
      assert FlightOk(t, t.flights[r]);
      NewlyReadyIsNotRevoked(s, step, f, r);
    }
  }

  lemma StepStaysRevoked(s: State, step: Step, f: FamilyId)
    requires RevokedIn(s, f)
    ensures RevokedIn(Apply(s, step), f)
  {
    hide Rotated, OutsideGrace, RevokeAll, Judge, Wins;
    if step.Revoke? {
      RevokedStays(s.families, step.targets, s.now, f);
    } else if step.RevokeReplayed? && step.req in s.flights && s.flights[step.req].Replayed? {
      RevokedStays(s.families, {s.flights[step.req].family}, s.now, f);
    }
  }

  lemma NewlyReadyIsNotRevoked(s: State, step: Step, f: FamilyId, r: Request)
    requires Ok(s) && RevokedIn(s, f)
    requires var t := Apply(s, step);
             r in t.flights && t.flights[r].Ready? && t.flights[r].hash in t.tokens
             && t.tokens[t.flights[r].hash].family == f
    ensures r in s.flights && s.flights[r] == Apply(s, step).flights[r]
  {
    hide Rotated, OutsideGrace, RevokeAll, Wins;
    assert r in s.flights ==> FlightOk(s, s.flights[r]);
    if step.CheckFamily? && step.req == r {
      StepKeepsTokens(s, step);
    }
  }

  lemma RevokedStays(families: map<FamilyId, Family>, targets: set<FamilyId>, now: Time, f: FamilyId)
    requires f in families && families[f].revokedAt.Some?
    ensures f in RevokeAll(families, targets, now) && RevokeAll(families, targets, now)[f] == families[f]
  {
  }

  lemma LateRotationIsUnique(s: State, step: Step, f: FamilyId, c: seq<Hash>)
    requires Ok(s) && IsChain(s.tokens, f, c) && RevokedIn(s, f)
    ensures LateRotationPossible(Apply(s, step), f) ==> LateRotationPossible(s, f) && WinsIn(s, step, f) == 0
    ensures WinsIn(s, step, f) == 1 ==> LateRotationPossible(s, f)
  {
    var s1 := Apply(s, step);
    StepKeepsOk(s, step);
    RevokedFamilyAdmitsNobody(s, step, f);
    if LateRotationPossible(s1, f) {
      var r :| r in s1.flights && s1.flights[r].Ready? && s1.flights[r].hash in s1.tokens
               && s1.tokens[s1.flights[r].hash].family == f && s1.tokens[s1.flights[r].hash].consumedAt.None?;
      LateRotationSurvives(s, step, f, c, r);
    }
  }

  lemma LateRotationSurvives(s: State, step: Step, f: FamilyId, c: seq<Hash>, r: Request)
    requires Ok(s) && IsChain(s.tokens, f, c) && r in s.flights && s.flights[r].Ready?
    requires var t := Apply(s, step).tokens;
             var h := s.flights[r].hash;
             h in t && t[h].family == f && t[h].consumedAt.None?
    ensures LateRotationPossible(s, f) && WinsIn(s, step, f) == 0
  {
    hide RevokeAll, Judge, OutsideGrace;
    var h := s.flights[r].hash;
    assert FlightOk(s, s.flights[r]);
    assert h in s.tokens && s.tokens[h].family == f && s.tokens[h].consumedAt.None?;
    hide Apply, Rotated, Ok;
    UnconsumedIsLast(s.tokens, f, c, h);
    if WinsIn(s, step, f) == 1 {
      UnconsumedIsLast(s.tokens, f, c, s.flights[step.req].hash);
    }
  }

  /** Revocation is final: once it commits, at most one more rotation of the family can, and only by
      a request that was past its family check at that moment; its successor is never rotatable. */
  lemma {:induction false} RevocationIsFinal(s: State, steps: seq<Step>, f: FamilyId, ch: Chains)
    requires Ok(s) && Linear(s, ch) && RevokedIn(s, f)
    ensures RevokedIn(Run(s, steps), f)
    ensures Rotations(s, steps, f) <= 1
    ensures !LateRotationPossible(s, f) ==> Rotations(s, steps, f) == 0
    decreases |steps|
  {
    if steps != [] {
      StepKeepsOk(s, steps[0]);
      StepKeepsLinear(s, steps[0], ch);
      LateRotationIsUnique(s, steps[0], f, ch[f]);
      RevokedFamilyAdmitsNobody(s, steps[0], f);
      RevocationIsFinal(Apply(s, steps[0]), steps[1..], f, ChainsAfter(s, steps[0], ch));
    }
  }

  /** Who the late rotation can be: a request that was Ready on the same token at the revocation. */
  lemma {:induction false} LateRotationWasInFlight(s: State, steps: seq<Step>, f: FamilyId, step: Step)
    requires Ok(s) && RevokedIn(s, f)
    ensures WinsIn(Run(s, steps), step, f) == 1 ==>
              && step.req in s.flights && s.flights[step.req] == Run(s, steps).flights[step.req]
              && s.flights[step.req].hash in s.tokens
    decreases |steps|
  {
    if steps != [] {
      StepKeepsOk(s, steps[0]);
      RevokedFamilyAdmitsNobody(s, steps[0], f);
      LateRotationWasInFlight(Apply(s, steps[0]), steps[1..], f, step);
      if WinsIn(Run(s, steps), step, f) == 1 {
        StillOk(Apply(s, steps[0]), steps[1..]);
      }
    }
  }

  lemma StepKeepsTokens(s: State, step: Step)
    ensures s.tokens.Keys <= Apply(s, step).tokens.Keys
    ensures forall h :: h in s.tokens ==> Apply(s, step).tokens[h].family == s.tokens[h].family
  {
    hide Judge;
  }

  lemma {:induction false} StillOk(s: State, steps: seq<Step>)
    requires Ok(s)
    ensures Ok(Run(s, steps))
    ensures s.tokens.Keys <= Run(s, steps).tokens.Keys
    ensures forall h :: h in s.tokens ==> Run(s, steps).tokens[h].family == s.tokens[h].family
    decreases |steps|
  {
    if steps != [] {
      StepKeepsTokens(s, steps[0]);
      hide Apply, Ok;
      StepKeepsOk(s, steps[0]);
      StillOk(Apply(s, steps[0]), steps[1..]);
    }
  }

  /** Losing a claim race never revokes anything. A rotation revokes only through a replay, and then
      exactly the family of a token consumed longer ago than the grace window. */
  lemma OnlyReplayOutsideGraceRevokes(s: State, step: Step, f: FamilyId)
    requires Ok(s) && f in s.families && !RevokedIn(s, f) && RevokedIn(Apply(s, step), f)
    ensures step.Revoke? || step.RevokeReplayed?
    ensures step.RevokeReplayed? ==>
              && step.req in s.flights
              && var h := s.flights[step.req].hash;
                 && h in s.tokens && s.tokens[h].family == f && s.tokens[h].consumedAt.Some?
                 && s.flights[step.req].at - s.tokens[h].consumedAt.value > s.grace
  {
  }
}
