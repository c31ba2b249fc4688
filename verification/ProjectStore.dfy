/** The project repository: the transactions of internal/project/store.go as methods on the rows
    they update, each proved to be steps of Projects. */
module ProjectStore {
  import opened Prelude
  import opened Projects

  datatype Result =
    | Saved(project: Project)
    | NotFound | VersionConflict(current: int) | SlugTaken | BadVersion | BadName | BadDescription

  predicate Avoids(req: Request, steps: seq<Step>) {
    forall i :: 0 <= i < |steps| ==>
      && (steps[i].ReadBefore? ==> steps[i].req != req)
      && (steps[i].CommitUpdate? ==> steps[i].req != req)
      && (steps[i].CommitArchive? ==> steps[i].req != req)
  }

  lemma {:induction false} OthersLeaveReadingAlone(s: State, steps: seq<Step>, req: Request)
    requires Avoids(req, steps)
    ensures req in Run(s, steps).readings <==> req in s.readings
    ensures req in s.readings ==> Run(s, steps).readings[req] == s.readings[req]
    decreases |steps|
  {
    if steps != [] {
      OthersLeaveReadingAlone(Apply(s, steps[0]), steps[1..], req);
    }
  }

  lemma {:induction false} RunAppend(s: State, a: seq<Step>, b: seq<Step>)
    ensures Run(s, a + b) == Run(Run(s, a), b)
    decreases |a|
  {
    hide Apply;
    if a == [] {
      assert a + b == b;
    } else {
      assert (a + b)[1..] == a[1..] + b;
      RunAppend(Apply(s, a[0]), a[1..], b);
    }
  }

  lemma RunSnoc(s: State, steps: seq<Step>, last: Step)
    ensures Run(s, steps + [last]) == Apply(Run(s, steps), last)
  {
    hide Apply;
    RunAppend(s, steps, [last]);
    assert [last][1..] == [];
  }

  predicate BadNameIn(name: Option<string>) { name.Some? && (name.value == "" || |name.value| > 200) }

  predicate SameRows(s: State, t: State) { t.projects == s.projects && t.trail == s.trail }

  /** The guard of the UPDATE: the tenant's project is live and at the expected version. */
  ghost predicate LiveAt(s: State, was: Reading, expected: int) {
    && was.project in s.projects && s.projects[was.project].tenant == was.tenant
    && s.projects[was.project].version == expected && s.projects[was.project].archivedAt.None?
  }

  /** What a saved update writes: what was asked for and nothing else, with an audit entry that shows the image
      read before and the row written. */
  ghost predicate Rewritten(s: State, end: State, was: Reading, name: Option<string>, description: Option<string>,
                            expected: int, p: Project) {
    && was.project in s.projects
    && var row := s.projects[was.project];
    && p.name == (if name.Some? then name.value else row.name)
    && p.description == (if description.Some? then description.value else row.description)
    && p.slug == row.slug && p.tenant == row.tenant == was.tenant && p.archivedAt == row.archivedAt == None
    && row.version == expected && p.version == expected + 1
    && end.projects == s.projects[was.project := p]
    && end.trail == s.trail + [Entry(was.project, Action.Update, was.before, p)]
  }

  class Store {
    var projects: map<Id, Project>
    var trail: seq<Entry>
    var readings: map<Request, Reading>
    var now: Time

    function View(): State
      reads this
    {
      State(projects, trail, readings, now)
    }

    constructor (now: Time)
      ensures View() == Init(now)
    {
      projects, trail, readings, this.now := map[], [], map[], now;
    }

    method Others(steps: seq<Step>)
      modifies this
      ensures View() == Run(old(View()), steps)
    {
      var s := Run(View(), steps);
      projects, trail, readings, now := s.projects, s.trail, s.readings, s.now;
    }

    method Create(id: Id, tenant: Id, name: string, slug: string, description: string) returns (r: Result)
      requires id !in projects
      modifies this
      ensures View() == Apply(old(View()), Step.Insert(id, tenant, name, slug, description))
      ensures r == if SlugFree(old(View()), tenant, slug)
                   then Saved(Project(tenant, name, slug, description, 1, None)) else SlugTaken
      ensures r.SlugTaken? <==> exists other :: other in old(projects) && old(projects)[other].tenant == tenant
                                                && old(projects)[other].archivedAt.None?
                                                && old(projects)[other].slug == slug
      ensures !r.Saved? ==> projects == old(projects) && trail == old(trail)
      ensures r.Saved? ==> projects == old(projects)[id := r.project]
                           && trail == old(trail) + [Entry(id, Action.Create, None, r.project)]
    {
      if exists other :: other in projects && projects[other].tenant == tenant
                         && projects[other].archivedAt.None? && projects[other].slug == slug {
        return SlugTaken;
      }
      var p := Project(tenant, name, slug, description, 1, None);
      projects := projects[id := p];
      trail := trail + [Entry(id, Action.Create, None, p)];
      r := Saved(p);
    }

    /** The pre-image read both Update and Archive open with. */
    method ReadPreImage(req: Request, tenant: Id, id: Id)
      requires req !in readings
      modifies this`readings
      ensures View() == Apply(old(View()), Step.ReadBefore(req, tenant, id))
      ensures readings == old(readings)[req := readings[req]]
      ensures readings[req].tenant == tenant && readings[req].project == id
      ensures readings[req].before ==
                if id in projects && projects[id].tenant == tenant then Some(projects[id]) else None
    {
      var before := if id in projects && projects[id].tenant == tenant then Some(projects[id]) else None;
      readings := readings[req := Reading(tenant, id, before)];
    }

    /** The version-guarded UPDATE after `between`; when it misses, the read that says why, after
        `late`. The two are separate statements, so the version reported with a conflict can be the one
        expected. */
    method CommitUpdate(req: Request, name: Option<string>, description: Option<string>, expected: int,
                        between: seq<Step>, late: seq<Step>) returns (r: Result, ghost trace: seq<Step>)
      requires req in readings && Avoids(req, between) && Avoids(req, late)
      modifies this
      ensures trace == between + [Step.CommitUpdate(req, name, description, expected)] + if r.Saved? then [] else late
      ensures View() == Run(old(View()), trace) && req !in readings
      ensures r.Saved? <==> UpdateHits(Run(old(View()), between), Step.CommitUpdate(req, name, description, expected))
      ensures r.Saved? <==> LiveAt(Run(old(View()), between), old(readings)[req], expected)
      ensures var s := Run(old(View()), between);
              if r.Saved? then Rewritten(s, View(), old(readings)[req], name, description, expected, r.project)
              else SameRows(View(), Run(s.(readings := s.readings - {req}), late))
      ensures var was := old(readings)[req];
              !r.Saved? ==>
                r == if Visible(View(), was.tenant, was.project) && projects[was.project].archivedAt.None?
                     then VersionConflict(projects[was.project].version) else NotFound
    {
      hide Apply, Run, UpdateHits;
      ghost var start := View();
      ghost var step := Step.CommitUpdate(req, name, description, expected);
      RunSnoc(start, between, step);
      OthersLeaveReadingAlone(start, between, req);
      trace := between + [step];
      Others(between);
      var was := readings[req];
      var saved := GuardedUpdate(req, name, description, expected);
      if saved.Some? {
        assert trace + [] == trace;
        return Saved(saved.value), trace;
      }
      OthersLeaveReadingAlone(View(), late, req);
      RunAppend(start, trace, late);
      trace := trace + late;
      Others(late);
      var id := was.project;
      r := if id in projects && projects[id].tenant == was.tenant && projects[id].archivedAt.None?
           then VersionConflict(projects[id].version) else NotFound;
    }

    /** The UPDATE itself and its audit entry; None when it matches no row. */
    method GuardedUpdate(req: Request, name: Option<string>, description: Option<string>, expected: int)
      returns (r: Option<Project>)
      requires req in readings
      modifies this
      ensures View() == Apply(old(View()), Step.CommitUpdate(req, name, description, expected)) && req !in readings
      ensures r.Some? <==> UpdateHits(old(View()), Step.CommitUpdate(req, name, description, expected))
      ensures r.Some? <==> LiveAt(old(View()), old(readings)[req], expected)
      ensures r.Some? ==> Rewritten(old(View()), View(), old(readings)[req], name, description, expected, r.value)
      ensures r.None? ==> View() == old(View()).(readings := old(readings) - {req})
    {
      var was := readings[req];
      readings := readings - {req};
      var id := was.project;
      if id !in projects || projects[id].tenant != was.tenant || projects[id].archivedAt.Some?
         || projects[id].version != expected {
        return None;
      }
      var row := projects[id];
      var p := row.(name := if name.Some? then name.value else row.name,
                    description := if description.Some? then description.value else row.description,
                    version := row.version + 1);
      projects := projects[id := p];
      trail := trail + [Entry(id, Action.Update, was.before, p)];
      r := Some(p);
    }

    /** Update, with the name already trimmed: input checks, pre-image read, guarded UPDATE. */
    method Update(req: Request, tenant: Id, id: Id, name: Option<string>, description: Option<string>, expected: int,
                  between: seq<Step>, late: seq<Step>) returns (r: Result, ghost trace: seq<Step>)
      requires req !in readings && Avoids(req, between) && Avoids(req, late)
      modifies this
      ensures View() == Run(old(View()), trace) && req !in readings
      ensures r.BadVersion? <==> expected <= 0
      ensures r.BadName? <==> expected > 0 && name.Some? && (|name.value| == 0 || |name.value| > 200)
      ensures r.BadDescription? <==> expected > 0 && !(name.Some? && (|name.value| == 0 || |name.value| > 200))
                                     && description.Some? && |description.value| > 2000
      ensures r.BadVersion? || r.BadName? || r.BadDescription? ==> trace == []
      ensures var found := Apply(old(View()), Step.ReadBefore(req, tenant, id));
              var s := Run(found, between);
              var was := Reading(tenant, id, if id in old(projects) && old(projects)[id].tenant == tenant
                                             then Some(old(projects)[id]) else None);
              !(r.BadVersion? || r.BadName? || r.BadDescription?) ==>
                && (r.Saved? <==> LiveAt(s, was, expected))
                && (r.Saved? ==> Rewritten(s, View(), was, name, description, expected, r.project))
                && (!r.Saved? ==>
                      && SameRows(View(), Run(s.(readings := s.readings - {req}), late))
                      && r == if id in projects && projects[id].tenant == tenant && projects[id].archivedAt.None?
                              then VersionConflict(projects[id].version) else NotFound)
    {
      trace := [];
      if expected <= 0 {
        return BadVersion, trace;
      }
      if BadNameIn(name) {
        return BadName, trace;
      }
      if description.Some? && |description.value| > 2000 {
        return BadDescription, trace;
      }
      hide Apply, UpdateHits;
      ghost var start := View();
      ReadPreImage(req, tenant, id);
      ghost var read, rest := Step.ReadBefore(req, tenant, id), [];
      r, rest := CommitUpdate(req, name, description, expected, between, late);
      trace := [read] + rest;
      assert trace[1..] == rest;
    }

    /** Archive is idempotent: it succeeds on an archived project too, and then writes nothing. */
    method Archive(req: Request, tenant: Id, id: Id, between: seq<Step>) returns (found: bool, ghost trace: seq<Step>)
      requires req !in readings && Avoids(req, between)
      modifies this
      ensures View() == Run(old(View()), trace)
      ensures found <==> Visible(View(), tenant, id)
      ensures found ==> projects[id].archivedAt.Some?
      ensures var s := Run(Apply(old(View()), Step.ReadBefore(req, tenant, id)), between);
              var was := if id in old(projects) && old(projects)[id].tenant == tenant
                         then Some(old(projects)[id]) else None;
              if id in s.projects && s.projects[id].tenant == tenant && s.projects[id].archivedAt.None? then
                var p := s.projects[id].(archivedAt := Some(s.now), version := s.projects[id].version + 1);
                projects == s.projects[id := p] && trail == s.trail + [Entry(id, Action.Archive, was, p)]
              else projects == s.projects && trail == s.trail
    {
      ghost var step := Step.CommitArchive(req);
      ReadPreImage(req, tenant, id);
      trace := [Step.ReadBefore(req, tenant, id)] + (between + [step]);
      assert trace[1..] == between + [step];
      RunSnoc(View(), between, step);
      OthersLeaveReadingAlone(View(), between, req);
      Others(between);
      var before := readings[req].before;
      readings := readings - {req};
      if id in projects && projects[id].tenant == tenant && projects[id].archivedAt.None? {
        var p := projects[id].(archivedAt := Some(now), version := projects[id].version + 1);
        projects := projects[id := p];
        trail := trail + [Entry(id, Action.Archive, before, p)];
      }
      found := id in projects && projects[id].tenant == tenant;
    }
  }
}
