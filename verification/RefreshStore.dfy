/** The refresh store's procedures, statement by statement, with other transactions in between
    (internal/authn/refresh.go). */
module RefreshStore {
  import opened Prelude
  import opened Refresh

  datatype Result =
    | Issued(successor: Hash, user: UserId, expiresAt: Time)
    | Unknown | BadTtl | FamilyRevoked | TokenExpired | LostRace | KeyCollision
    | ReuseDetected(revoked: bool)

  /** No step of the run belongs to request `r`. */
  predicate Avoids(r: Request, steps: seq<Step>) {
    forall i :: 0 <= i < |steps| ==>
      match steps[i]
      case LookUp(q, _) => q != r
      case CheckFamily(q, _) => q != r
      case Commit(q, _, _) => q != r
      case RevokeReplayed(q) => q != r
      case Abandon(q) => q != r
      case _ => true
  }

  /** Other transactions neither move this request nor delete a token or a family. */
  lemma {:induction false} OthersLeaveFlightAlone(s: State, steps: seq<Step>, r: Request)
    requires Avoids(r, steps) && Ok(s)
    ensures var t := Run(s, steps);
            && Ok(t) && (r in t.flights <==> r in s.flights)
            && (r in s.flights ==> t.flights[r] == s.flights[r])
    decreases |steps|
  {
    hide Ok, FlightOk, Judge, Wins;
    if steps != [] {
      StepKeepsOk(s, steps[0]);
      OthersLeaveFlightAlone(Apply(s, steps[0]), steps[1..], r);
    }
  }

  function RevocationStep(req: Request, fails: bool): Step {
    if fails then Abandon(req) else RevokeReplayed(req)
  }

  function FamiliesOf(families: map<FamilyId, Family>, user: UserId): set<FamilyId> {
    set f | f in families && families[f].user == user
  }

  function LiveIn(families: map<FamilyId, Family>, targets: set<FamilyId>): set<FamilyId> {
    set f | f in families && f in targets && families[f].revokedAt.None?
  }

  /** The state at a rotation's family check: what others committed before its first and its second
      statement, and its lookup in between. */
  function AtCheck(s: State, req: Request, hash: Hash, env: nat -> seq<Step>): State {
    Run(Run(s, env(0) + [LookUp(req, hash)]), env(1))
  }

  /** The state at its claim, or at the revocation after a replay. */
  function AtCommit(s: State, req: Request, hash: Hash, checkedAt: Time, env: nat -> seq<Step>): State {
    Run(Apply(AtCheck(s, req, hash, env), CheckFamily(req, checkedAt)), env(2))
  }

  /** Nobody else commits anything. */
  ghost predicate Quiet(env: nat -> seq<Step>) { forall k :: env(k) == [] }

  /** The switch, read off the rows: the token as the lookup saw it at `at`, and its family at the second
      read. */
  ghost predicate Due(v: Verdict, token: Token, at: Time, grace: Time, family: Family, appNow: Time) {
    if family.revokedAt.Some? then v.Revoked?
    else if token.expiresAt <= appNow then v.Expired?
    else if token.consumedAt.None? then v.Go?
    else if at - token.consumedAt.value <= grace then v.RetryRace?
    else v.Reuse?
  }

  /** The claim and its writes: they happen iff the token is unconsumed and the successor's hash free. */
  ghost predicate Exchanged(c: State, end: State, h: Hash, at: Time, newHash: Hash, newExpiry: Time, r: Result) {
    && end.families == c.families && h in c.tokens
    && if c.tokens[h].consumedAt.Some? then r.LostRace? && end.tokens == c.tokens
       else if newHash in c.tokens then r.KeyCollision? && end.tokens == c.tokens
       else
         && r == Issued(newHash, c.tokens[h].user, newExpiry)
         && end.tokens == c.tokens[newHash := Token(c.tokens[h].family, c.tokens[h].user, newExpiry, None, None)]
                                  [h := c.tokens[h].(consumedAt := Some(at), replacedBy := Some(newHash))]
  }

  /** The family ends revoked, now if it was not before, and no other changes; or the revocation failed
      and nothing did. */
  ghost predicate Condemned(c: State, end: State, f: FamilyId, fails: bool) {
    && end.tokens == c.tokens && end.families.Keys == c.families.Keys && f in c.families
    && (forall g :: g in c.families && (g != f || fails) ==> end.families[g] == c.families[g])
    && (!fails ==> end.families[f].revokedAt.Some?)
    && (!fails && c.families[f].revokedAt.None? ==> end.families[f] == Family(c.families[f].user, Some(c.now)))
    && (c.families[f].revokedAt.Some? ==> end.families[f] == c.families[f])
  }

  /** What a rotation is answered and leaves, read off the rows its three statements find: the token as the
      lookup saw it at `at`, the state `s` at the family check, and `c` at the claim or the revocation. */
  ghost predicate Dictated(t: Token, at: Time, s: State, c: State, end: State, h: Hash, checkedAt: Time, newHash: Hash,
                           newExpiry: Time, revokeFails: bool, r: Result) {
    && t.family in s.families
    && if s.families[t.family].revokedAt.Some? then r.FamilyRevoked? && SameRows(s, end)
       else if t.expiresAt <= checkedAt then r.TokenExpired? && SameRows(s, end)
       else if t.consumedAt.None? then Exchanged(c, end, h, at, newHash, newExpiry, r)
       else if at - t.consumedAt.value <= s.grace then r.LostRace? && SameRows(s, end)
       else r == ReuseDetected(!revokeFails) && Condemned(c, end, t.family, revokeFails)
  }

  predicate SameRows(s: State, t: State) { t.families == s.families && t.tokens == s.tokens }

  class Store {
    var families: map<FamilyId, Family>
    var tokens: map<Hash, Token>
    var flights: map<Request, Flight>
    const grace: Time
    var now: Time

    function View(): State
      reads this
    {
      State(families, tokens, flights, grace, now)
    }

    constructor (grace: Time, now: Time)
      ensures View() == Init(grace, now)
    {
      families, tokens, flights, this.grace, this.now := map[], map[], map[], grace, now;
    }

    /** Whatever other transactions commit meanwhile. */
    method Others(steps: seq<Step>)
      modifies this
      ensures View() == Run(old(View()), steps)
    {
      KeepsGrace(View(), steps);
      var s := Run(View(), steps);
      families, tokens, flights, now := s.families, s.tokens, s.flights, s.now;
    }

    /** StartSession: a family and its first token, in one transaction. */
    method StartSession(family: FamilyId, user: UserId, hash: Hash, ttl: Time, appNow: Time) returns (r: Result)
      requires family !in families && hash !in tokens
      modifies this`families, this`tokens
      ensures r == if ttl <= 0 then BadTtl else Issued(hash, user, appNow + ttl)
      ensures ttl <= 0 ==> families == old(families) && tokens == old(tokens)
      ensures ttl > 0 ==>
                && families == old(families)[family := Family(user, None)]
                && tokens == old(tokens)[hash := Token(family, user, appNow + ttl, None, None)]
      ensures View() == if ttl <= 0 then old(View())
                        else Apply(old(View()), Step.StartSession(family, user, hash, appNow + ttl))
    {
      if ttl <= 0 {
        return BadTtl;
      }
      families := families[family := Family(user, None)];
      tokens := tokens[hash := Token(family, user, appNow + ttl, None, None)];
      r := Issued(hash, user, appNow + ttl);
    }

    /** The first read of Rotate, after `before` has been committed by others. */
    method LookUp(req: Request, hash: Hash, before: seq<Step>) returns (found: bool)
      requires req !in flights && Avoids(req, before) && Ok(View())
      modifies this
      ensures View() == Run(old(View()), before + [Step.LookUp(req, hash)]) && Ok(View())
      ensures found <==> req in flights
      ensures found <==> hash in Run(old(View()), before).tokens
      ensures var s := Run(old(View()), before);
              SameRows(s, View()) && (found ==> flights[req] == Looked(hash, s.now, s.tokens[hash]))
    {
      StatementAfter(View(), before, Step.LookUp(req, hash), req);
      Others(before);
      found := hash in tokens;
      if found {
        flights := flights[req := Looked(hash, now, tokens[hash])];
      }
    }

    /** The second read of Rotate and the switch on what the two reads saw. */
    method CheckFamily(req: Request, appNow: Time, before: seq<Step>) returns (v: Verdict)
      requires req in flights && flights[req].Looked? && Avoids(req, before) && Ok(View())
      modifies this
      ensures var s := Run(old(View()), before); req in s.flights && s.flights[req] == old(flights)[req]
      ensures View() == Run(old(View()), before + [Step.CheckFamily(req, appNow)]) && Ok(View())
      ensures var s, f := Run(old(View()), before), old(flights)[req];
              && SameRows(s, View()) && f.token.family in s.families
              && Due(v, f.token, f.at, grace, s.families[f.token.family], appNow)
              && (v.Go? ==> flights == s.flights[req := Ready(f.hash, f.at)])
              && (v.Reuse? ==> flights == s.flights[req := Replayed(f.hash, f.at, f.token.family)])
      ensures req in flights <==> v.Go? || v.Reuse?
    {
      StatementAfter(View(), before, Step.CheckFamily(req, appNow), req);
      Others(before);
      var f := flights[req];
      var family := families[f.token.family];
      if family.revokedAt.Some? {
        v := Revoked;
      } else if !(f.token.expiresAt > appNow) {
        v := Expired;
      } else if f.token.consumedAt.Some? {
        v := if f.at - f.token.consumedAt.value <= grace then RetryRace else Reuse;
      } else {
        v := Go;
      }
      if v.Go? {
        flights := flights[req := Ready(f.hash, f.at)];
      } else if v.Reuse? {
        flights := flights[req := Replayed(f.hash, f.at, f.token.family)];
      } else {
        flights := flights - {req};
      }
    }

    /** Claim, insert, link. `newHash` is the hash of a fresh secret; were it taken, the primary key
        rejects the insert and the whole transaction rolls back. */
    method Commit(req: Request, newHash: Hash, newExpiry: Time, before: seq<Step>) returns (r: Result)
      requires req in flights && flights[req].Ready? && Avoids(req, before) && Ok(View())
      modifies this
      ensures View() == Run(old(View()), before + [Step.Commit(req, newHash, newExpiry)]) && Ok(View())
      ensures req !in flights
      ensures r.Issued? <==> Wins(Run(old(View()), before), Step.Commit(req, newHash, newExpiry))
      ensures var f := old(flights)[req];
              Exchanged(Run(old(View()), before), View(), f.hash, f.at, newHash, newExpiry, r)
    {
      StatementAfter(View(), before, Step.Commit(req, newHash, newExpiry), req);
      Others(before);
      var f := flights[req];
      flights := flights - {req};
      if tokens[f.hash].consumedAt.Some? {
        return LostRace;
      }
      if newHash in tokens {
        return KeyCollision;
      }
      tokens := tokens[f.hash := tokens[f.hash].(consumedAt := Some(f.at))];
      tokens := tokens[newHash := Token(tokens[f.hash].family, tokens[f.hash].user, newExpiry, None, None)];
      tokens := tokens[f.hash := tokens[f.hash].(replacedBy := Some(newHash))];
      r := Issued(newHash, tokens[f.hash].user, newExpiry);
    }

    /** The revocation after a detected replay, in a transaction of its own, which can fail: then the
        family stays as it was. */
    method RevokeReplayed(req: Request, fails: bool, before: seq<Step>)
      requires req in flights && flights[req].Replayed? && Avoids(req, before) && Ok(View())
      modifies this
      ensures View() == Run(old(View()), before + [RevocationStep(req, fails)]) && Ok(View())
      ensures req !in flights
      ensures Condemned(Run(old(View()), before), View(), old(flights)[req].family, fails)
    {
      StatementAfter(View(), before, RevocationStep(req, fails), req);
      Others(before);
      if !fails {
        families := RevokeAll(families, {flights[req].family}, now);
      }
      flights := flights - {req};
    }

    /** RevokeFamily, RevokeAllForUser and the logout path: each revokes a set of families that are
        not revoked yet and reports how many there were. */
    method RevokeFamilies(targets: set<FamilyId>) returns (revoked: nat)
      modifies this`families
      ensures View() == Apply(old(View()), Step.Revoke(targets))
      ensures revoked == |LiveIn(old(families), targets)|
      ensures families.Keys == old(families).Keys
      ensures forall f :: f in families ==>
                families[f] == if f in targets && old(families)[f].revokedAt.None?
                               then Family(old(families)[f].user, Some(now)) else old(families)[f]
    {
      var live := LiveIn(families, targets);
      revoked := |live|;
      families := families + map f | f in live :: families[f].(revokedAt := Some(now));
      assert families == RevokeAll(old(families), targets, now);
    }

    /** Every family of the user that is still live is revoked, and counted. */
    method RevokeAllForUser(user: UserId) returns (revoked: nat)
      modifies this`families
      ensures View() == Apply(old(View()), Step.Revoke(FamiliesOf(old(families), user)))
      ensures revoked == |LiveIn(old(families), FamiliesOf(old(families), user))|
      ensures families.Keys == old(families).Keys
      ensures forall f :: f in families ==>
                families[f] == if old(families)[f].user == user && old(families)[f].revokedAt.None?
                               then Family(user, Some(now)) else old(families)[f]
    {
      revoked := RevokeFamilies(FamiliesOf(families, user));
    }

    /** The logout path. */
    method RevokeByPresentedToken(hash: Option<Hash>) returns (found: bool)
      requires Ok(View())
      modifies this`families
      ensures found <==> hash.Some? && hash.value in tokens
      ensures found ==>
                var f := tokens[hash.value].family;
                && f in families && families.Keys == old(families).Keys
                && (forall g :: g in families && g != f ==> families[g] == old(families)[g])
                && families[f] == if old(families)[f].revokedAt.None? then Family(old(families)[f].user, Some(now))
                                  else old(families)[f]
      ensures View() == if found then Apply(old(View()), Step.Revoke({tokens[hash.value].family})) else old(View())
    {
      found := hash.Some? && hash.value in tokens;
      if found {
        var _ := RevokeFamilies({tokens[hash.value].family});
      }
    }

    /** Rotate, against any interleaving: `env(k)` is what others commit before the k-th statement.
        A successor is issued exactly when this request's claim won, and a detected reuse leaves
        the family revoked unless the revocation failed, which the answer says. `presented` is the hash
        of the secret, None for an empty one. */
    method Rotate(req: Request, presented: Option<Hash>, ttl: Time, newHash: Hash, checkedAt: Time, mintedAt: Time,
                  revokeFails: bool, env: nat -> seq<Step>)
      returns (r: Result, ghost trace: seq<Step>)
      requires Ok(View()) && req !in flights && forall k :: Avoids(req, env(k))
      modifies this
      ensures View() == Run(old(View()), trace) && Ok(View()) && req !in flights
      ensures presented.None? || ttl <= 0 ==> trace == [] && !r.Issued?
      ensures r.BadTtl? <==> presented.Some? && ttl <= 0
      ensures r.Unknown? <==> presented.None? || (ttl > 0 && presented.value !in Run(old(View()), env(0)).tokens)
      ensures r.Unknown? && trace != [] ==> SameRows(Run(old(View()), env(0)), View())
      ensures presented.Some? && ttl > 0 && !r.Unknown? ==>
                var h, found := presented.value, Run(old(View()), env(0));
                Dictated(found.tokens[h], found.now, AtCheck(old(View()), req, h, env),
                         AtCommit(old(View()), req, h, checkedAt, env), View(), h, checkedAt, newHash,
                         mintedAt + ttl, revokeFails, r)
      ensures presented.Some? && ttl > 0 && !r.Unknown? && Quiet(env) ==>
                Dictated(old(tokens)[presented.value], old(now), old(View()), old(View()), View(), presented.value,
                         checkedAt, newHash, mintedAt + ttl, revokeFails, r)
      ensures r.Issued? <==> WonBy(old(View()), trace, req)
    {
      hide Apply, Ok, Judge, Wins, Avoids, Due, Dictated, Exchanged, Condemned;
      trace := [];
      if presented.None? {
        return Unknown, trace;
      }
      if ttl <= 0 {
        return BadTtl, trace;
      }
      ghost var start := View();
      var h := presented.value;
      var found := LookUp(req, h, env(0));
      trace := env(0) + [Step.LookUp(req, h)];
      if !found {
        return Unknown, trace;
      }
      ghost var rest;
      hide WonBy, SameRows;
      r, rest := CheckAndClaim(req, checkedAt, newHash, mintedAt + ttl, revokeFails, env);
      RunAppend(start, trace, rest);
      WonByRest(start, trace, rest, req);
      trace := trace + rest;
      if Quiet(env) {
        QuietRows(start, req, h, checkedAt, env);
        RowsDictate(start.tokens[h], start.now, start, AtCheck(start, req, h, env),
                    AtCommit(start, req, h, checkedAt, env), View(), h, checkedAt, newHash, mintedAt + ttl,
                    revokeFails, r);
      }
    }

    /** The rest of a rotation that found its token: the family check and what follows from it. */
    method CheckAndClaim(req: Request, checkedAt: Time, newHash: Hash, newExpiry: Time, revokeFails: bool,
                         env: nat -> seq<Step>)
      returns (r: Result, ghost trace: seq<Step>)
      requires req in flights && flights[req].Looked? && Ok(View()) && forall k :: Avoids(req, env(k))
      modifies this
      ensures View() == Run(old(View()), trace) && Ok(View()) && req !in flights
      ensures r.Issued? <==> WonBy(old(View()), trace, req)
      ensures var f, s := old(flights)[req], Run(old(View()), env(1));
              var c := Run(Apply(s, Step.CheckFamily(req, checkedAt)), env(2));
              Dictated(f.token, f.at, s, c, View(), f.hash, checkedAt, newHash, newExpiry, revokeFails, r)
      ensures !r.Unknown? && !r.BadTtl?
    {
      hide Apply, Ok, Judge, Wins, Avoids, Exchanged, Condemned, WonBy, Follows;
      ghost var start, f := View(), flights[req];
      RunSnoc(start, env(1), Step.CheckFamily(req, checkedAt));
      KeepsGrace(start, env(1));
      var v := CheckFamily(req, checkedAt, env(1));
      trace := env(1) + [Step.CheckFamily(req, checkedAt)];
      ghost var rest;
      ghost var s, checked := Run(start, env(1)), View();
      r, rest := Conclude(req, v, f, newHash, newExpiry, revokeFails, env(2));
      WonByRest(start, trace, rest, req);
      RunAppend(start, trace, rest);
      trace := trace + rest;
      hide Due, SameRows;
      DueDictates(v, f, s, checked, Run(checked, env(2)), View(), checkedAt, newHash, newExpiry, revokeFails, r);
    }

    /** What the verdict leads to: the claim, the revocation, or nothing. */
    method Conclude(req: Request, v: Verdict, ghost f: Flight, newHash: Hash, newExpiry: Time, revokeFails: bool,
                    others: seq<Step>)
      returns (r: Result, ghost rest: seq<Step>)
      requires Ok(View()) && Avoids(req, others)
      requires f.Looked? && (req in flights <==> v.Go? || v.Reuse?)
      requires v.Go? ==> flights[req] == Ready(f.hash, f.at)
      requires v.Reuse? ==> flights[req] == Replayed(f.hash, f.at, f.token.family)
      modifies this
      ensures View() == Run(old(View()), rest) && Ok(View()) && req !in flights
      ensures r.Issued? <==> WonBy(old(View()), rest, req)
      ensures Follows(v, f, old(View()), Run(old(View()), others), View(), newHash, newExpiry, revokeFails, r)
    {
      hide Apply, Ok, Wins, Avoids, Exchanged, Condemned;
      ghost var s := View();
      if v.Go? {
        rest := others + [Step.Commit(req, newHash, newExpiry)];
        assert rest[..|rest| - 1] == others;
        r := Commit(req, newHash, newExpiry, others);
      } else if v.Reuse? {
        rest := others + [RevocationStep(req, revokeFails)];
        RevokeReplayed(req, revokeFails, others);
        r := ReuseDetected(!revokeFails);
      } else {
        rest := [];
        r := if v.Revoked? then FamilyRevoked else if v.Expired? then TokenExpired else LostRace;
      }
    }
  }

  /** What each verdict leads to, `s` being the state after the check and `c` that at the last statement. */
  ghost predicate Follows(v: Verdict, f: Flight, s: State, c: State, end: State, newHash: Hash, newExpiry: Time,
                          revokeFails: bool, r: Result)
    requires f.Looked?
  {
    match v
    case Go => Exchanged(c, end, f.hash, f.at, newHash, newExpiry, r)
    case Reuse => r == ReuseDetected(!revokeFails) && Condemned(c, end, f.token.family, revokeFails)
    case Revoked => r.FamilyRevoked? && SameRows(s, end)
    case Expired => r.TokenExpired? && SameRows(s, end)
    case RetryRace => r.LostRace? && SameRows(s, end)
  }

  lemma DueDictates(v: Verdict, f: Flight, s: State, checked: State, c: State, end: State, checkedAt: Time,
                    newHash: Hash, newExpiry: Time, revokeFails: bool, r: Result)
    requires f.Looked? && f.token.family in s.families && SameRows(s, checked)
    requires Due(v, f.token, f.at, s.grace, s.families[f.token.family], checkedAt)
    requires Follows(v, f, checked, c, end, newHash, newExpiry, revokeFails, r)
    ensures Dictated(f.token, f.at, s, c, end, f.hash, checkedAt, newHash, newExpiry, revokeFails, r)
    ensures !r.Unknown? && !r.BadTtl?
  {
    hide Condemned;
  }

  lemma RunSnoc(s: State, steps: seq<Step>, last: Step)
    ensures Run(s, steps + [last]) == Apply(Run(s, steps), last)
  {
    hide Apply;
    RunAppend(s, steps, [last]);
    assert [last][1..] == [];
  }

  /** The same as far as a rotation's answer is concerned. */
  predicate SameBase(s: State, t: State) { SameRows(s, t) && t.grace == s.grace && t.now == s.now }

  lemma QuietRows(s: State, req: Request, h: Hash, checkedAt: Time, env: nat -> seq<Step>)
    requires Quiet(env)
    ensures Run(s, env(0)) == s
    ensures SameBase(s, AtCheck(s, req, h, env)) && SameBase(s, AtCommit(s, req, h, checkedAt, env))
  {
    hide Judge;
    assert env(0) == [] && env(1) == [] && env(2) == [];
    RunSnoc(s, env(0), LookUp(req, h));
  }

  lemma RowsDictate(t: Token, at: Time, s: State, atCheck: State, atCommit: State, end: State, h: Hash,
                    checkedAt: Time, newHash: Hash, newExpiry: Time, revokeFails: bool, r: Result)
    requires SameBase(s, atCheck) && SameBase(s, atCommit)
    requires Dictated(t, at, atCheck, atCommit, end, h, checkedAt, newHash, newExpiry, revokeFails, r)
    ensures Dictated(t, at, s, s, end, h, checkedAt, newHash, newExpiry, revokeFails, r)
  {
  }

  lemma WonByRest(s: State, trace: seq<Step>, rest: seq<Step>, r: Request)
    requires trace != [] && !trace[|trace| - 1].Commit?
    ensures WonBy(s, trace + rest, r) <==> WonBy(Run(s, trace), rest, r)
  {
    hide Apply, Wins, Run;
    var all := trace + rest;
    if rest == [] {
      assert all == trace;
    } else {
      assert all[|all| - 1] == rest[|rest| - 1] && all[..|all| - 1] == trace + rest[..|rest| - 1];
      RunAppend(s, trace, rest[..|rest| - 1]);
    }
  }

  /** The run ends with request `r`'s commit, and that commit's claim matched. */
  ghost predicate WonBy(s: State, trace: seq<Step>, r: Request) {
    && trace != [] && trace[|trace| - 1].Commit? && trace[|trace| - 1].req == r
    && Wins(Run(s, trace[..|trace| - 1]), trace[|trace| - 1])
  }

  lemma StatementAfter(s: State, before: seq<Step>, step: Step, r: Request)
    requires Avoids(r, before) && Ok(s)
    ensures var t := Run(s, before);
            && Ok(t) && (r in t.flights <==> r in s.flights)
            && (r in s.flights ==> t.flights[r] == s.flights[r])
            && Run(s, before + [step]) == Apply(t, step) && Ok(Apply(t, step))
  {
    OthersLeaveFlightAlone(s, before, r);
    RunAppend(s, before, [step]);
    assert [step][1..] == [];
    StepKeepsOk(Run(s, before), step);
  }

  lemma {:induction false} KeepsGrace(s: State, steps: seq<Step>)
    ensures Run(s, steps).grace == s.grace
    decreases |steps|
  {
    if steps != [] {
      KeepsGrace(Apply(s, steps[0]), steps[1..]);
    }
  }
}
