/** Projects with optimistic versions and an append-only audit trail (internal/project/store.go).

    An update or an archive reads its pre-image first and then runs its guarded UPDATE; other
    transactions commit between the two, so they are separate steps. */
module Projects {
  import opened Prelude

  type Id = nat
  type Request = nat

  datatype Project = Project(tenant: Id, name: string, slug: string, description: string, version: int,
                             archivedAt: Option<Time>)

  datatype Action = Create | Update | Archive

  /** One audit entry. `before` is None for a creation, and for the zero image the source writes when
      its pre-image read found no row. */
  datatype Entry = Entry(project: Id, action: Action, before: Option<Project>, after: Project)

  /** A request that has read its pre-image. */
  datatype Reading = Reading(tenant: Id, project: Id, before: Option<Project>)

  datatype State = State(projects: map<Id, Project>, trail: seq<Entry>, readings: map<Request, Reading>, now: Time)

  function Init(now: Time): State { State(map[], [], map[], now) }

  datatype Step =
    | Tick(d: nat)
    | Insert(id: Id, tenant: Id, name: string, slug: string, description: string)
    | ReadBefore(req: Request, tenant: Id, id: Id)
    | CommitUpdate(req: Request, newName: Option<string>, newDescription: Option<string>, expected: int)
    | CommitArchive(req: Request)

  predicate Visible(s: State, tenant: Id, id: Id) { id in s.projects && s.projects[id].tenant == tenant }

  /** The partial unique index: no other live project of the tenant has the slug. */
  predicate SlugFree(s: State, tenant: Id, slug: string) {
    forall id :: id in s.projects && s.projects[id].tenant == tenant && s.projects[id].archivedAt.None?
                 ==> s.projects[id].slug != slug
  }

  predicate UpdateHits(s: State, step: Step) {
    && step.CommitUpdate? && step.req in s.readings
    && var r := s.readings[step.req];
       Visible(s, r.tenant, r.project) && s.projects[r.project].version == step.expected
       && s.projects[r.project].archivedAt.None?
  }

  predicate ArchiveHits(s: State, step: Step) {
    && step.CommitArchive? && step.req in s.readings
    && var r := s.readings[step.req];
       Visible(s, r.tenant, r.project) && s.projects[r.project].archivedAt.None?
  }

  predicate InsertHits(s: State, step: Step) {
    step.Insert? && step.id !in s.projects && SlugFree(s, step.tenant, step.slug)
  }

  function Or(o: Option<string>, default: string): string { if o.Some? then o.value else default }

  /** The row a hit leaves behind. */
  function After(s: State, step: Step): Project
    requires InsertHits(s, step) || UpdateHits(s, step) || ArchiveHits(s, step)
  {
    if step.Insert? then Project(step.tenant, step.name, step.slug, step.description, 1, None)
    else
      var p := s.projects[s.readings[step.req].project];
      if step.CommitUpdate? then
        p.(name := Or(step.newName, p.name), description := Or(step.newDescription, p.description),
           version := p.version + 1)
      else p.(archivedAt := Some(s.now), version := p.version + 1)
  }

  /** The row written and its audit entry, in one transaction. */
  function Written(s: State, id: Id, e: Entry): State {
    s.(projects := s.projects[id := e.after], trail := s.trail + [e])
  }

  function Apply(s: State, step: Step): State {
    match step
    case Tick(d) => s.(now := s.now + d)
    case Insert(id, _, _, _, _) =>
      if InsertHits(s, step) then Written(s, id, Entry(id, Create, None, After(s, step))) else s
    case ReadBefore(req, tenant, id) =>
      if req in s.readings then s
      else
        var before := if Visible(s, tenant, id) then Some(s.projects[id]) else None;
        s.(readings := s.readings[req := Reading(tenant, id, before)])
    case CommitUpdate(req, _, _, _) =>
      var t := s.(readings := s.readings - {req});
      if UpdateHits(s, step) then
        var r := s.readings[req];
        Written(t, r.project, Entry(r.project, Update, r.before, After(s, step)))
      else t
    case CommitArchive(req) =>
      var t := s.(readings := s.readings - {req});
      if ArchiveHits(s, step) then
        var r := s.readings[req];
        Written(t, r.project, Entry(r.project, Archive, r.before, After(s, step)))
      else t
  }

  function Run(s: State, steps: seq<Step>): State
    decreases |steps|
  {
    if steps == [] then s else Run(Apply(s, steps[0]), steps[1..])
  }

  // ------------------------------------------------------------ the audit trail

  /** One project's entries, oldest first. */
  function EntriesOf(trail: seq<Entry>, id: Id): seq<Entry> {
    if trail == [] then []
    else
      var earlier, e := EntriesOf(trail[..|trail| - 1], id), trail[|trail| - 1];
      if e.project == id then earlier + [e] else earlier
  }

  lemma EntriesSnoc(trail: seq<Entry>, e: Entry, id: Id)
    ensures EntriesOf(trail + [e], id) == EntriesOf(trail, id) + if e.project == id then [e] else []
  {
    assert (trail + [e])[..|trail|] == trail;
  }

  /** `p` is the image some entry of the project recorded, found at its version. */
  predicate Recorded(es: seq<Entry>, p: Project) {
    1 <= p.version <= |es| && es[p.version - 1].after == p
  }

  /** The i-th entry produced version i + 1, and what it shows as before is an image the project
      really had earlier; nothing follows an archive. */
  predicate EntryOk(es: seq<Entry>, i: nat)
    requires i < |es|
  {
    && es[i].after.version == i + 1
    && (es[i].before.Some? ==> es[i].before.value.version <= i && Recorded(es, es[i].before.value))
    && (es[i].action.Create? <==> i == 0)
    && (es[i].action.Archive? ==> i == |es| - 1)
  }

  /** The trail accounts for the row: one entry per version, the last one showing the row. */
  predicate Accounted(es: seq<Entry>, row: Project) {
    && (forall i :: 0 <= i < |es| ==> EntryOk(es, i))
    && |es| == row.version >= 1 && es[|es| - 1].after == row
    && (row.archivedAt.Some? <==> es[|es| - 1].action.Archive?)
  }

  ghost predicate Ok(s: State) {
    && (forall id :: id in s.projects ==> Accounted(EntriesOf(s.trail, id), s.projects[id]))
    && (forall id :: id !in s.projects ==> EntriesOf(s.trail, id) == [])
    && (forall r :: r in s.readings && s.readings[r].before.Some? ==>
          s.readings[r].project in s.projects
          && Recorded(EntriesOf(s.trail, s.readings[r].project), s.readings[r].before.value))
  }

  lemma AccountedGrows(es: seq<Entry>, row: Project, e: Entry)
    requires Accounted(es, row) && e.after.version == row.version + 1 && !e.action.Create?
    requires row.archivedAt.None? && (e.after.archivedAt.Some? <==> e.action.Archive?)
    requires e.before.Some? ==> Recorded(es, e.before.value)
    ensures Accounted(es + [e], e.after)
    ensures forall p :: Recorded(es, p) ==> Recorded(es + [e], p)
  {
    forall i | 0 <= i < |es + [e]| ensures EntryOk(es + [e], i) {
      if i < |es| {
        assert EntryOk(es, i);
      }
    }
  }

  lemma FirstEntryAccounts(e: Entry)
    requires e.after.version == 1 && e.action.Create? && e.before.None? && e.after.archivedAt.None?
    ensures Accounted([e], e.after)
  {
    assert EntryOk([e], 0);
  }

  lemma WrittenKeepsOk(s: State, id: Id, e: Entry)
    requires Ok(s) && e.project == id
    requires if id in s.projects then
               e.after.version == s.projects[id].version + 1 && !e.action.Create?
               && s.projects[id].archivedAt.None? && (e.after.archivedAt.Some? <==> e.action.Archive?)
               && (e.before.Some? ==> Recorded(EntriesOf(s.trail, id), e.before.value))
             else e.after.version == 1 && e.action.Create? && e.before.None? && e.after.archivedAt.None?
    ensures Ok(Written(s, id, e))
  {
    hide EntriesOf, Accounted, EntryOk, Recorded;
    var t := Written(s, id, e);
    forall g: Id
      ensures EntriesOf(t.trail, g) == if g == id then EntriesOf(s.trail, g) + [e] else EntriesOf(s.trail, g)
    {
      EntriesSnoc(s.trail, e, g);
      assert EntriesOf(s.trail, g) + [] == EntriesOf(s.trail, g);
    }
    if id in s.projects {
      AccountedGrows(EntriesOf(s.trail, id), s.projects[id], e);
    } else {
      FirstEntryAccounts(e);
      assert [] + [e] == [e];
    }
  }

  lemma StepKeepsOk(s: State, step: Step)
    requires Ok(s)
    ensures Ok(Apply(s, step))
  {
    match step
    case Insert(id, _, _, _, _) =>
      if InsertHits(s, step) {
        WrittenKeepsOk(s, id, Entry(id, Create, None, After(s, step)));
      }
    case CommitUpdate(req, _, _, _) =>
      if UpdateHits(s, step) {
        var r := s.readings[req];
        var e := Entry(r.project, Update, r.before, After(s, step));
        WrittenKeepsOk(s.(readings := s.readings - {req}), r.project, e);
      }
    case CommitArchive(req) =>
      if ArchiveHits(s, step) {
        var r := s.readings[req];
        var e := Entry(r.project, Archive, r.before, After(s, step));
        WrittenKeepsOk(s.(readings := s.readings - {req}), r.project, e);
      }
    case _ =>
      assert forall id :: id in s.projects ==> Recorded(EntriesOf(s.trail, id), s.projects[id]);
  }

  /** Every reachable trail accounts for every row: a project's version is its number of audit
      entries, entry k shows version k, the last shows the row as it is. */
  lemma {:induction false} TrailAccountsForRows(s: State, steps: seq<Step>)
    requires Ok(s)
    ensures Ok(Run(s, steps))
    decreases |steps|
  {
    if steps != [] {
      StepKeepsOk(s, steps[0]);
      TrailAccountsForRows(Apply(s, steps[0]), steps[1..]);
    }
  }

  function UpdatesIn(es: seq<Entry>): nat {
    if es == [] then 0 else UpdatesIn(es[..|es| - 1]) + if es[|es| - 1].action.Update? then 1 else 0
  }

  lemma {:induction false} UpdatesInPrefix(es: seq<Entry>, k: nat)
    requires k <= |es| && forall i :: 0 <= i < k ==> (es[i].action.Update? <==> i > 0)
    ensures UpdatesIn(es[..k]) == if k == 0 then 0 else k - 1
    decreases k
  {
    if k > 0 {
      UpdatesInPrefix(es, k - 1);
      assert es[..k][..k - 1] == es[..k - 1];
    }
  }

  /** A reachable project's version is one, plus its successful updates, plus one iff it is archived. */
  lemma VersionCountsWrites(s: State, steps: seq<Step>, id: Id)
    requires Ok(s) && id in Run(s, steps).projects
    ensures var end := Run(s, steps);
            var row := end.projects[id];
            row.version == 1 + UpdatesIn(EntriesOf(end.trail, id)) + if row.archivedAt.Some? then 1 else 0
  {
    TrailAccountsForRows(s, steps);
    var end := Run(s, steps);
    hide EntriesOf, Apply, Run, Recorded;
    var es, row := EntriesOf(end.trail, id), end.projects[id];
    assert Accounted(es, row);
    var k := if row.archivedAt.Some? then |es| - 1 else |es|;
    forall i | 0 <= i < k ensures es[i].action.Update? <==> i > 0 {
      assert EntryOk(es, i);
    }
    assert EntryOk(es, |es| - 1);
    UpdatesInPrefix(es, k);
    assert es[..|es|] == es;
  }

  /** When an audit entry is a true link. Its before image is read before the guarded UPDATE and not
      tied to the expected version, so it can be out of date; it is exactly the image the previous
      entry left iff its version is one less than the after image's, which anyone can read off the
      entry. */
  lemma LinkIsTrueIffVersionsMeet(s: State, id: Id, i: nat)
    requires Ok(s) && id in s.projects && 0 < i < |EntriesOf(s.trail, id)|
    ensures var es := EntriesOf(s.trail, id);
            es[i].before == Some(es[i - 1].after)
            <==> es[i].before.Some? && es[i].before.value.version + 1 == es[i].after.version
  {
    var es := EntriesOf(s.trail, id);
    assert EntryOk(es, i) && EntryOk(es, i - 1);
  }

  /** A caller learns it before the call: an update that hits writes a true link iff the version it
      read is the version it expects. */
  lemma UpdateLinksIffReadIsExpected(s: State, step: Step)
    requires Ok(s) && UpdateHits(s, step)
    ensures var r := s.readings[step.req];
            r.before == Some(s.projects[r.project])
            <==> r.before.Some? && r.before.value.version == step.expected
  {
  }

  lemma FiveSteps(s: State, steps: seq<Step>)
    requires |steps| == 5
    ensures Run(s, steps) == Apply(Apply(Apply(Apply(Apply(s, steps[0]), steps[1]), steps[2]), steps[3]), steps[4])
  {
    hide Apply;
    var a, b, c, d, e := steps[0], steps[1], steps[2], steps[3], steps[4];
    var s1 := Apply(s, a);
    var s2 := Apply(s1, b);
    var s3 := Apply(s2, c);
    var s4 := Apply(s3, d);
    assert steps[1..] == [b, c, d, e] && [b, c, d, e][1..] == [c, d, e];
    assert [c, d, e][1..] == [d, e] && [d, e][1..] == [e] && [e][1..] == [];
    assert Run(s4, [e]) == Apply(s4, e);
    assert Run(s3, [d, e]) == Run(s4, [e]);
    assert Run(s2, [c, d, e]) == Run(s3, [d, e]);
    assert Run(s1, [b, c, d, e]) == Run(s2, [c, d, e]);
  }

  /** The out-of-date case is reachable: another update commits between the read and the UPDATE, and
      the caller expects the version that one produced. */
  lemma StalePreImage() returns (steps: seq<Step>)
    ensures var s := Run(Init(0), steps);
            && |s.trail| == 3 && s.trail[2].action.Update?
            && s.trail[2].before == Some(s.trail[0].after) && s.trail[1].after != s.trail[0].after
  {
    var a, b := ReadBefore(1, 7, 1), ReadBefore(2, 7, 1);
    var first, second := CommitUpdate(2, Some("b"), None, 1), CommitUpdate(1, Some("c"), None, 2);
    steps := [Insert(1, 7, "a", "s", ""), a, b, first, second];
    var s1 := Apply(Init(0), steps[0]);
    var s2 := Apply(s1, a);
    var s3 := Apply(s2, b);
    var s4 := Apply(s3, first);
    var s5 := Apply(s4, second);
    FiveSteps(Init(0), steps);
  }

  // ---------------------------------------------------- versions, archive, slugs

  /** `b` is a later state of the row `a`. */
  predicate Continues(a: Project, b: Project) {
    && a.tenant == b.tenant && a.slug == b.slug && a.version <= b.version
    && (a.version == b.version ==> a == b)
    && (a.archivedAt.Some? ==> a == b)
  }

  lemma StepContinues(s: State, step: Step, id: Id)
    requires id in s.projects
    ensures id in Apply(s, step).projects && Continues(s.projects[id], Apply(s, step).projects[id])
    ensures UpdateHits(s, step) && s.readings[step.req].project == id
            ==> Apply(s, step).projects[id].version == s.projects[id].version + 1
  {
  }

  /** An archived project never changes again, and a row changes only with its version. */
  lemma {:induction false} ArchivedIsFinal(s: State, steps: seq<Step>, id: Id)
    requires id in s.projects
    ensures id in Run(s, steps).projects && Continues(s.projects[id], Run(s, steps).projects[id])
    decreases |steps|
  {
    if steps != [] {
      StepContinues(s, steps[0], id);
      ArchivedIsFinal(Apply(s, steps[0]), steps[1..], id);
    }
  }

  function Updates(s: State, steps: seq<Step>, id: Id, expected: int): nat
    decreases |steps|
  {
    if steps == [] then 0
    else
      (if UpdateHits(s, steps[0]) && s.readings[steps[0].req].project == id && steps[0].expected == expected
       then 1 else 0)
      + Updates(Apply(s, steps[0]), steps[1..], id, expected)
  }

  /** No lost updates: no two successful updates of a project asserted the same version. */
  lemma {:induction false} NoLostUpdates(s: State, steps: seq<Step>, id: Id, expected: int)
    ensures Updates(s, steps, id, expected) <= 1
    ensures id in s.projects && s.projects[id].version > expected ==> Updates(s, steps, id, expected) == 0
    decreases |steps|
  {
    if steps != [] {
      if id in s.projects {
        StepContinues(s, steps[0], id);
      }
      NoLostUpdates(Apply(s, steps[0]), steps[1..], id, expected);
    }
  }

  predicate SlugsUnique(s: State) {
    forall a, b :: a in s.projects && b in s.projects && a != b && s.projects[a].tenant == s.projects[b].tenant
                   && s.projects[a].archivedAt.None? && s.projects[b].archivedAt.None?
                   ==> s.projects[a].slug != s.projects[b].slug
  }

  lemma {:induction false} LiveSlugsAreUnique(s: State, steps: seq<Step>)
    requires SlugsUnique(s)
    ensures SlugsUnique(Run(s, steps))
    decreases |steps|
  {
    if steps != [] {
      forall id | id in s.projects ensures id in Apply(s, steps[0]).projects
                                           && Continues(s.projects[id], Apply(s, steps[0]).projects[id]) {
        StepContinues(s, steps[0], id);
      }
      LiveSlugsAreUnique(Apply(s, steps[0]), steps[1..]);
    }
  }
}
