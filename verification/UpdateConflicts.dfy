/** What a failed project update reports (internal/project/store.go). The read that classifies it is a
    statement of its own, so the version it reports is a later one. */
module UpdateConflicts {
  import opened Prelude
  import opened Projects
  import opened ProjectStore

  /** The version the classifying read reports, None for not found. */
  function Reported(s: State, tenant: Id, id: Id): Option<int> {
    if Visible(s, tenant, id) && s.projects[id].archivedAt.None? then Some(s.projects[id].version) else None
  }

  /** A conflict never reports an older version than the row had at the UPDATE: above the expected one
      if the row was already above it. */
  lemma ReportsNoOlder(s: State, late: seq<Step>, tenant: Id, id: Id)
    requires id in s.projects
    ensures var r := Reported(Run(s, late), tenant, id);
            r.Some? ==> r.value >= s.projects[id].version && Reported(s, tenant, id).Some?
  {
    ArchivedIsFinal(s, late, id);
  }

  // ------------------------------------------------------ bringing a version about

  lemma OneBump(s: State, q: Request, tenant: Id, id: Id) returns (late: seq<Step>)
    requires Reported(s, tenant, id).Some? && q !in s.readings
    ensures var t := Run(s, late);
            t.readings == s.readings && Reported(t, tenant, id) == Some(s.projects[id].version + 1)
    ensures forall i :: 0 <= i < |late| ==> OwnedBy(late[i], q)
  {
    var v := s.projects[id].version;
    var read, write := ReadBefore(q, tenant, id), CommitUpdate(q, None, None, v);
    late := [read, write];
    RunSnoc(s, [], read);
    RunSnoc(s, [read], write);
    assert [] + [read] == [read] && [read] + [write] == late;
    hide Run;
    var mid := Apply(s, read);
    assert UpdateHits(mid, write);
    assert mid.readings - {q} == s.readings;
  }

  predicate OwnedBy(step: Step, q: Request) {
    (step.ReadBefore? || step.CommitUpdate?) && step.req == q
  }

  /** Any later version can come about. */
  lemma {:induction false} Bumps(s: State, q: Request, tenant: Id, id: Id, version: int) returns (late: seq<Step>)
    requires Reported(s, tenant, id).Some? && q !in s.readings && s.projects[id].version <= version
    ensures Reported(Run(s, late), tenant, id) == Some(version)
    ensures forall i :: 0 <= i < |late| ==> OwnedBy(late[i], q)
    decreases version - s.projects[id].version
  {
    if s.projects[id].version == version {
      late := [];
    } else {
      hide Apply, Run, UpdateHits;
      var first := OneBump(s, q, tenant, id);
      var rest := Bumps(Run(s, first), q, tenant, id, version);
      late := first + rest;
      RunAppend(s, first, rest);
    }
  }

  // ----------------------------------------------------------- the exact condition

  /** The conflict, told after `late`, names the very version the caller expected. */
  ghost predicate NamesExpected(s: State, step: Step, late: seq<Step>)
    requires step.CommitUpdate? && step.req in s.readings
  {
    var r := s.readings[step.req];
    Avoids(step.req, late) && Reported(Run(Apply(s, step), late), r.tenant, r.project) == Some(step.expected)
  }

  lemma MissKeepsRows(s: State, step: Step)
    requires step.CommitUpdate? && !UpdateHits(s, step)
    ensures Apply(s, step).projects == s.projects && Apply(s, step).readings == s.readings - {step.req}
  {
  }

  /** An update that misses a project of its tenant can be answered with the very version it expected iff
      the project was live and its version below the expected one: the caller was ahead of the row.
      One that is behind always learns of a version above its own. */
  lemma NamesExpectedIff(s: State, step: Step)
    requires step.CommitUpdate? && step.req in s.readings && !UpdateHits(s, step)
    requires Visible(s, s.readings[step.req].tenant, s.readings[step.req].project)
    ensures var row := s.projects[s.readings[step.req].project];
            (exists late :: NamesExpected(s, step, late)) <==> row.archivedAt.None? && row.version < step.expected
  {
    var r := s.readings[step.req];
    var row, t := s.projects[r.project], Apply(s, step);
    MissKeepsRows(s, step);
    hide Apply, Run;
    if row.archivedAt.None? && row.version < step.expected {
      var q := Unused(t.readings.Keys + {step.req});
      var late := Bumps(t, q, r.tenant, r.project, step.expected);
      assert NamesExpected(s, step, late);
    }
    forall late | NamesExpected(s, step, late) ensures row.archivedAt.None? && row.version < step.expected {
      ReportsNoOlder(t, late, r.tenant, r.project);
    }
  }

  /** From the beginning: the first update expects version 2 of a project at version 1 and misses; before
      its classifying read, the second makes version 2. The conflict then says 2, as expected. */
  lemma ConflictNamesExpected() returns (steps: seq<Step>)
    ensures |steps| == 5 && steps[3].CommitUpdate? && steps[3].expected == 2
    ensures !UpdateHits(Run(Init(0), steps[..3]), steps[3])
    ensures Reported(Run(Init(0), steps), 7, 1) == Some(2)
  {
    var made, a, b := Insert(1, 7, "a", "s", ""), ReadBefore(1, 7, 1), ReadBefore(2, 7, 1);
    var ahead, second := CommitUpdate(1, None, None, 2), CommitUpdate(2, Some("b"), None, 1);
    steps := [made, a, b, ahead, second];
    FiveSteps(Init(0), steps);
    var s := Apply(Apply(Apply(Init(0), made), a), b);
    assert !UpdateHits(s, ahead);
    assert Run(Init(0), steps[..3]) == s by {
      RunSnoc(Init(0), [made, a], b);
      RunSnoc(Init(0), [made], a);
      RunSnoc(Init(0), [], made);
      assert steps[..3] == [made, a] + [b] && [made, a] == [made] + [a] && [made] == [] + [made];
    }
  }
}
