/** How far a stored subtotal can be from the sum of the lines (internal/invoice/store.go,
    recomputeTotals). An edit sums the lines when its SELECT runs; only its UPDATE waits for competing
    edits. So what it stores leaves out whatever was committed in between. */
module Drift {
  import opened Prelude
  import opened Invoices

  // ------------------------------------------------- what edits do to the sum

  lemma SubtotalSnoc(lines: seq<Line>, line: Line)
    ensures Subtotal(lines + [line]) == Subtotal(lines) + line.total as int
  {
    assert Totals(lines + [line])[..|lines|] == Totals(lines);
  }

  /** What the lines of one id contribute. */
  function Share(lines: seq<Line>, item: Id): int {
    if lines == [] then 0
    else
      var last := lines[|lines| - 1];
      Share(lines[..|lines| - 1], item) + if last.id == item then last.total as int else 0
  }

  lemma ShareSnoc(lines: seq<Line>, line: Line, item: Id)
    ensures Share(lines + [line], item) == Share(lines, item) + if line.id == item then line.total as int else 0
    ensures Without(lines + [line], item)
            == if line.id == item then Without(lines, item) else Without(lines, item) + [line]
  {
    assert (lines + [line])[..|lines|] == lines;
  }

  lemma {:induction false} DropTakesItsShare(lines: seq<Line>, item: Id, other: Id)
    ensures Subtotal(Without(lines, item)) == Subtotal(lines) - Share(lines, item)
    ensures other != item ==> Share(Without(lines, item), other) == Share(lines, other)
    decreases |lines|
  {
    if lines != [] {
      var n := |lines| - 1;
      var most, last := lines[..n], lines[n];
      assert lines == most + [last];
      DropTakesItsShare(most, item, other);
      hide Subtotal, Share, Without;
      ShareSnoc(most, last, item);
      ShareSnoc(most, last, other);
      SubtotalSnoc(most, last);
      SubtotalSnoc(Without(most, item), last);
      ShareSnoc(Without(most, item), last, other);
    }
  }

  /** What a change adds to the sum of the lines. */
  function NetOf(lines: seq<Line>, c: Change): int {
    match c
    case Add(line) => line.total as int
    case Drop(item) => -Share(lines, item)
  }

  lemma ChangeAddsItsNet(lines: seq<Line>, c: Change)
    ensures Subtotal(Changed(lines, c)) == Subtotal(lines) + NetOf(lines, c)
  {
    match c
    case Add(line) => SubtotalSnoc(lines, line);
    case Drop(item) => DropTakesItsShare(lines, item, item);
  }

  /** Changes that do not conflict leave each other's net and applicability alone. */
  lemma ChangesCommute(lines: seq<Line>, c: Change, d: Change)
    requires !Conflict(c, d) && Applicable(lines, d)
    ensures NetOf(Changed(lines, c), d) == NetOf(lines, d) && Applicable(Changed(lines, c), d)
  {
    hide HasLine, HasPosition, Share, Without;
    var position := if d.Add? then d.line.position else 0;
    match c
    case Add(line) =>
      ShareSnoc(lines, line, ItemOf(d));
      SnocHas(lines, line, ItemOf(d), position);
    case Drop(item) =>
      DropTakesItsShare(lines, item, ItemOf(d));
      WithoutKeepsLines(lines, item, ItemOf(d), position);
  }

  // -------------------------------------------------------------- the window

  /** The net of the edits committed at versions from `seen` on: the k-th edit of a draft took it from
      version k + 1 to k + 2. */
  function NetSince(past: seq<Past>, seen: int): int {
    if past == [] || |past| < seen then 0
    else NetSince(past[..|past| - 1], seen) + past[|past| - 1].net
  }

  lemma NetSinceSnoc(past: seq<Past>, p: Past, seen: int)
    ensures seen <= |past| + 1 ==> NetSince(past + [p], seen) == NetSince(past, seen) + p.net
    ensures NetSince(past, |past| + 1) == 0
  {
    assert (past + [p])[..|past|] == past;
  }

  /** The net of the edits committed inside the window of the last committed edit: after its SELECT,
      before its UPDATE. */
  function LastWindow(past: seq<Past>): int {
    if past == [] then 0 else NetSince(past[..|past| - 1], past[|past| - 1].seen)
  }

  predicate Exact(inv: Invoice) { inv.subtotal as int == Subtotal(inv.lines) }

  /** The law: the stored subtotal lacks exactly what was committed inside the last edit's window. */
  predicate DriftIsWindow(inv: Invoice) { inv.subtotal as int == Subtotal(inv.lines) - LastWindow(inv.past) }

  /** A placed edit is going to store the sum of the lines as they will be, less what was committed
      since its SELECT. */
  predicate Traced(inv: Invoice, e: Edit)
    requires e.Placed?
  {
    && 1 <= e.at <= e.seen <= |inv.past| + 1
    && e.subtotal as int == Subtotal(inv.lines) + NetOf(inv.lines, e.change) - NetSince(inv.past, e.seen)
    && (inv.status.Draft? ==> Applicable(inv.lines, e.change))
  }

  /** An addition whose invoice has not changed since it opened still carries the next position. */
  predicate Fresh(inv: Invoice, e: Edit) {
    && 1 <= e.at <= inv.version
    && (e.change.Add? && inv.status.Draft? && e.at == inv.version ==>
          e.change.line.position == NextPosition(inv.lines))
  }

  predicate RowOk(inv: Invoice) { DriftIsWindow(inv) && PositionsDistinct(inv.lines) }

  predicate EditTraced(s: State, e: Edit) {
    && e.invoice in s.invoices && Fresh(s.invoices[e.invoice], e)
    && (e.Placed? ==> Traced(s.invoices[e.invoice], e))
  }

  predicate Apart(s: State, q: Request, r: Request)
    requires q in s.edits && r in s.edits
  {
    q != r && s.edits[q].Placed? && s.edits[r].Placed? && s.edits[q].invoice == s.edits[r].invoice
    ==> !Conflict(s.edits[q].change, s.edits[r].change)
  }

  /** The reachable states, as far as sums and positions go. */
  predicate Tracked(s: State) {
    && (forall id :: id in s.invoices ==> RowOk(s.invoices[id]))
    && (forall r :: r in s.edits ==> EditTraced(s, s.edits[r]))
    && (forall q, r :: q in s.edits && r in s.edits ==> Apart(s, q, r))
  }

  // ------------------------------------------------------------- row by row

  lemma CommitFollowsWindow(inv: Invoice, e: Edit)
    requires e.Placed? && Traced(inv, e)
    ensures DriftIsWindow(Committed(inv, e))
  {
    hide Subtotal, NetOf, Changed, NetSince;
    ChangeAddsItsNet(inv.lines, e.change);
    var after := Committed(inv, e);
    assert after.past[..|inv.past|] == inv.past;
  }

  lemma CommitKeepsOthersTraced(inv: Invoice, e: Edit, f: Edit)
    requires inv.status.Draft? && e.Placed? && f.Placed? && Traced(inv, f) && !Conflict(e.change, f.change)
    ensures Traced(Committed(inv, e), f)
  {
    hide Subtotal, NetOf, Changed, NetSince, Applicable, Conflict;
    ChangeAddsItsNet(inv.lines, e.change);
    ChangesCommute(inv.lines, e.change, f.change);
    NetSinceSnoc(inv.past, Past(Subtotal(Changed(inv.lines, e.change)) - Subtotal(inv.lines), e.seen), f.seen);
  }

  lemma {:induction false} WithoutKeepsPositions(lines: seq<Line>, item: Id)
    requires PositionsDistinct(lines)
    ensures PositionsDistinct(Without(lines, item))
    decreases |lines|
  {
    if lines != [] {
      var n := |lines| - 1;
      WithoutKeepsPositions(lines[..n], item);
      if HasPosition(Without(lines[..n], item), lines[n].position) {
        WithoutKeepsLines(lines[..n], item, 0, lines[n].position);
      }
    }
  }

  lemma CommitKeepsPositions(inv: Invoice, c: Change)
    requires PositionsDistinct(inv.lines) && Applicable(inv.lines, c)
    ensures PositionsDistinct(Changed(inv.lines, c))
  {
    if c.Drop? {
      WithoutKeepsPositions(inv.lines, c.item);
    }
  }

  lemma PlacedIsTraced(inv: Invoice, e: Edit)
    requires Sound(inv) && e.Opened? && 1 <= e.at <= inv.version && Placeable(inv, e.change)
    ensures Traced(inv, PlacedOn(inv, e))
  {
    hide Subtotal, NetOf, Changed, NetSince, Applicable, LinesExact, Replay;
    ChangeAddsItsNet(inv.lines, e.change);
    NetSinceSnoc(inv.past, Past(0, 1), 1);
  }

  lemma NewRowIsOk(number: nat, step: Step)
    requires step.Create? && Creatable(step)
    ensures RowOk(NewInvoice(number, step)) && Exact(NewInvoice(number, step))
  {
    hide Subtotal;
  }

  // ---------------------------------------------------------- over every run

  lemma RowStaysOk(s: State, step: Step, id: Id)
    requires Ok(s) && Tracked(s) && id in s.invoices
    ensures RowOk(RowAfter(s, step, id))
  {
    hide Committed, Moving, Sound, EditOk, Traced, DriftIsWindow, PositionsDistinct, Apart;
    var inv := s.invoices[id];
    if step.CommitEdit? && CommitHits(s, step.req) && s.edits[step.req].invoice == id {
      var e := s.edits[step.req];
      assert EditTraced(s, e);
      TracedIsApplicable(inv, e);
      CommitFollowsWindow(inv, e);
      CommitKeepsPositions(inv, e.change);
      CommittedLines(inv, e);
    } else if WriteHits(s, step) && s.readings[step.req].invoice == id {
      MovingKeepsMoney(inv, s.readings[step.req].t, Opened(id, Drop(0), 0));
    }
  }

  lemma TracedIsApplicable(inv: Invoice, e: Edit)
    requires e.Placed? && Traced(inv, e) && inv.status.Draft?
    ensures Applicable(inv.lines, e.change)
  {
  }

  lemma CommittedLines(inv: Invoice, e: Edit)
    requires e.Placed?
    ensures Committed(inv, e).lines == Changed(inv.lines, e.change)
  {
  }

  lemma MovingKeepsMoney(inv: Invoice, t: Transition, e: Edit)
    ensures RowOk(inv) ==> RowOk(Moving(inv, t))
    ensures e.Placed? && Traced(inv, e) && CanTransition(inv.status, TransitionTo(t)) ==> Traced(Moving(inv, t), e)
    ensures Fresh(inv, e) && CanTransition(inv.status, TransitionTo(t)) ==> Fresh(Moving(inv, t), e)
    ensures Exact(inv) ==> Exact(Moving(inv, t))
  {
    hide Subtotal, LastWindow, PositionsDistinct, NetOf, NetSince, Applicable, NextPosition;
  }

  lemma CommitKeepsFresh(inv: Invoice, e: Edit, f: Edit)
    requires e.Placed? && Fresh(inv, f)
    ensures Fresh(Committed(inv, e), f)
  {
    hide Subtotal, Changed, NextPosition;
  }

  /** What a step does to the row under an edit that it leaves alone. */
  lemma EditStaysTraced(s: State, step: Step, r: Request)
    requires Ok(s) && Tracked(s) && r in s.edits && !(step.CommitEdit? && step.req == r)
    ensures var e := s.edits[r];
            && e.invoice in s.invoices
            && Fresh(RowAfter(s, step, e.invoice), e)
            && (e.Placed? ==> Traced(RowAfter(s, step, e.invoice), e))
  {
    hide Committed, Moving, Sound, EditOk, Traced, Fresh, RowOk, Conflict, CanTransition, TransitionTo;
    var e := s.edits[r];
    assert EditTraced(s, e);
    var inv := s.invoices[e.invoice];
    if step.CommitEdit? && CommitHits(s, step.req) && s.edits[step.req].invoice == e.invoice {
      CommitKeepsFresh(inv, s.edits[step.req], e);
      if e.Placed? {
        assert Apart(s, step.req, r);
        CommitKeepsOthersTraced(inv, s.edits[step.req], e);
      }
    } else if WriteHits(s, step) && s.readings[step.req].invoice == e.invoice {
      MovingKeepsMoney(inv, s.readings[step.req].t, e);
    }
  }

  lemma NewEditIsTraced(s: State, step: Step, r: Request)
    requires Ok(s) && Tracked(s) && r in Apply(s, step).edits
    requires !(r in s.edits && s.edits[r] == Apply(s, step).edits[r])
    ensures EditTraced(Apply(s, step), Apply(s, step).edits[r])
  {
    hide Apply, Sound, EditOk, Traced, RowOk, Placeable, NextPosition, RowAfter;
    var e := Apply(s, step).edits[r];
    StepEdit(s, step, r);
    if e.Placed? {
      var o := s.edits[r];
      assert EditTraced(s, o);
      PlacedIsTraced(s.invoices[o.invoice], o);
    }
    NewEditsLeaveRows(s, step, r, e.invoice);
    assert Sound(s.invoices[e.invoice]);
    SoundVersion(s.invoices[e.invoice]);
  }

  lemma SoundVersion(inv: Invoice)
    requires Sound(inv)
    ensures inv.version >= 1
  {
  }

  lemma NewEditsLeaveRows(s: State, step: Step, r: Request, id: Id)
    requires r in Apply(s, step).edits && !(r in s.edits && s.edits[r] == Apply(s, step).edits[r]) && id in s.invoices
    ensures id in Apply(s, step).invoices && Apply(s, step).invoices[id] == s.invoices[id]
  {
    hide Committed, Moving, Placeable, Blocked, Notices, NewInvoice, Creates, Begun;
    StepRow(s, step, id);
    if step.OpenAdd? || step.OpenRemove? {
      BegunKeepsRows(s, step);
    }
  }

  lemma CommitEndsEdit(s: State, step: Step)
    ensures step.CommitEdit? ==> step.req !in Apply(s, step).edits
  {
  }

  lemma StepKeepsEditTraced(s: State, step: Step, r: Request)
    requires Ok(s) && Tracked(s) && r in Apply(s, step).edits
    ensures EditTraced(Apply(s, step), Apply(s, step).edits[r])
  {
    hide Apply, Sound, EditOk, Traced, Fresh, RowOk, RowAfter;
    if r in s.edits && s.edits[r] == Apply(s, step).edits[r] {
      CommitEndsEdit(s, step);
      EditStaysTraced(s, step, r);
      StepRow(s, step, s.edits[r].invoice);
    } else {
      NewEditIsTraced(s, step, r);
    }
  }

  lemma StepKeepsApart(s: State, step: Step, q: Request, r: Request)
    requires Tracked(s) && q in Apply(s, step).edits && r in Apply(s, step).edits
    ensures Apart(Apply(s, step), q, r)
  {
    hide Apply, Conflict, EditTraced, RowOk, NextPosition, Placeable, Amounts;
    StepEdit(s, step, q);
    StepEdit(s, step, r);
    if q in s.edits && r in s.edits {
      assert Apart(s, q, r);
      ConflictIsMutual(s.edits[q].change, s.edits[r].change);
    }
  }

  lemma ConflictIsMutual(c: Change, d: Change)
    ensures Conflict(c, d) <==> Conflict(d, c)
  {
  }

  lemma StepKeepsTracked(s: State, step: Step)
    requires Ok(s) && Tracked(s)
    ensures Tracked(Apply(s, step))
  {
    hide Apply, Sound, EditOk, RowOk, EditTraced, Apart, RowAfter;
    var t := Apply(s, step);
    forall id | id in t.invoices ensures RowOk(t.invoices[id]) {
      if id in s.invoices {
        StepRow(s, step, id);
        RowStaysOk(s, step, id);
      } else {
        StepNewRow(s, step, id);
        NewRowIsOk(s.next, step);
      }
    }
    forall r | r in t.edits ensures EditTraced(t, t.edits[r]) {
      StepKeepsEditTraced(s, step, r);
    }
    forall q, r | q in t.edits && r in t.edits ensures Apart(t, q, r) {
      StepKeepsApart(s, step, q, r);
    }
  }

  /** Over every run of edits and transitions, statement by statement interleaved: each stored subtotal
      is the sum of the lines less the net of the edits committed inside the last committed edit's
      window. So it is exact iff that net is zero. Positions stay distinct. */
  lemma {:induction false} SubtotalLacksTheWindow(s: State, steps: seq<Step>, id: Id)
    requires Ok(s) && Tracked(s)
    ensures Ok(Run(s, steps)) && Tracked(Run(s, steps))
    ensures id in Run(s, steps).invoices ==>
              var inv := Run(s, steps).invoices[id];
              && inv.subtotal as int == Subtotal(inv.lines) - LastWindow(inv.past)
              && (Exact(inv) <==> LastWindow(inv.past) == 0)
              && PositionsDistinct(inv.lines)
    decreases |steps|
  {
    hide Apply, Ok;
    if steps == [] {
      assert id in s.invoices ==> RowOk(s.invoices[id]);
    } else {
      StepKeepsOk(s, steps[0]);
      StepKeepsTracked(s, steps[0]);
      hide Tracked, DriftIsWindow;
      SubtotalLacksTheWindow(Apply(s, steps[0]), steps[1..], id);
    }
  }

  /** One commit, in any reachable state and whatever drift the row already has: it leaves the subtotal
      exact iff the edits committed since its SELECT cancel out; so always when it commits at the
      version its SELECT saw, which heals earlier drift. */
  lemma CommitIsExactIff(s: State, req: Request)
    requires Ok(s) && Tracked(s) && CommitHits(s, req)
    ensures var e := s.edits[req];
            var inv := s.invoices[e.invoice];
            && (Exact(Committed(inv, e)) <==> NetSince(inv.past, e.seen) == 0)
            && (e.seen == inv.version ==> Exact(Committed(inv, e)))
  {
    hide Apply, Apart, Fresh, PositionsDistinct, Subtotal, Changed, NetOf, LinesExact, Replay, Applicable;
    var e := s.edits[req];
    var inv := s.invoices[e.invoice];
    assert EditTraced(s, e);
    assert Sound(inv);
    ChangeAddsItsNet(inv.lines, e.change);
    NetSinceSnoc(inv.past, Past(0, 1), 1);
  }

  // ------------------------------------------------------ edits that do not meet

  predicate PositionsIncrease(lines: seq<Line>) {
    forall i, j :: 0 <= i < j < |lines| ==> lines[i].position < lines[j].position
  }

  lemma {:induction false} NextPositionIsBeyond(lines: seq<Line>, i: nat)
    requires i < |lines|
    ensures lines[i].position < NextPosition(lines)
    decreases |lines|
  {
    if i < |lines| - 1 {
      NextPositionIsBeyond(lines[..|lines| - 1], i);
    }
  }

  lemma {:induction false} NextPositionIsReached(lines: seq<Line>)
    requires lines != []
    ensures exists i :: 0 <= i < |lines| && lines[i].position + 1 == NextPosition(lines)
    decreases |lines|
  {
    var n := |lines| - 1;
    if NextPosition(lines) == lines[n].position + 1 {
    } else {
      NextPositionIsReached(lines[..n]);
      var i :| 0 <= i < n && lines[..n][i].position + 1 == NextPosition(lines[..n]);
      assert lines[i].position + 1 == NextPosition(lines);
    }
  }

  lemma {:induction false} WithoutKeepsOrder(lines: seq<Line>, item: Id)
    requires PositionsIncrease(lines)
    ensures PositionsIncrease(Without(lines, item))
    ensures forall i :: 0 <= i < |Without(lines, item)| && lines != [] ==>
              Without(lines, item)[i].position <= lines[|lines| - 1].position
    decreases |lines|
  {
    if lines != [] {
      WithoutKeepsOrder(lines[..|lines| - 1], item);
    }
  }

  /** An addition, whose position was read before its insert, comes after every line iff no greater
      position was taken meanwhile. */
  lemma AdditionIsInOrderIff(lines: seq<Line>, line: Line)
    requires PositionsIncrease(lines)
    ensures PositionsIncrease(lines + [line]) <==> lines == [] || NextPosition(lines) <= line.position
  {
    var longer := lines + [line];
    if lines != [] {
      NextPositionIsReached(lines);
      var k :| 0 <= k < |lines| && lines[k].position + 1 == NextPosition(lines);
      assert longer[k] == lines[k] && longer[|lines|] == line;
      forall i | 0 <= i < |lines| ensures lines[i].position < NextPosition(lines) {
        NextPositionIsBeyond(lines, i);
      }
    }
  }

  /** No edit commits at another version than it opened at: nothing else was committed in between. */
  predicate EditsDoNotMeet(s: State, steps: seq<Step>)
    decreases |steps|
  {
    steps != [] ==>
      && (steps[0].CommitEdit? && CommitHits(s, steps[0].req) ==>
            s.edits[steps[0].req].at == s.invoices[s.edits[steps[0].req].invoice].version)
      && EditsDoNotMeet(Apply(s, steps[0]), steps[1..])
  }

  predicate InOrder(inv: Invoice) { Exact(inv) && PositionsIncrease(inv.lines) }

  lemma CommitInPlace(s: State, req: Request)
    requires Ok(s) && Tracked(s) && CommitHits(s, req)
    requires s.edits[req].at == s.invoices[s.edits[req].invoice].version
    requires InOrder(s.invoices[s.edits[req].invoice])
    ensures InOrder(Committed(s.invoices[s.edits[req].invoice], s.edits[req]))
  {
    hide Apart, PositionsDistinct, Subtotal, LinesExact, Replay, NetOf;
    var e := s.edits[req];
    var inv := s.invoices[e.invoice];
    assert EditTraced(s, e) && Sound(inv);
    CommitIsExactIff(s, req);
    hide NextPosition, Without, PositionsIncrease, Exact;
    match e.change
    case Add(line) => AdditionIsInOrderIff(inv.lines, line);
    case Drop(item) => WithoutKeepsOrder(inv.lines, item);
  }

  lemma NewIsInOrder(number: nat, step: Step)
    requires step.Create? && Creatable(step)
    ensures InOrder(NewInvoice(number, step))
  {
    hide Subtotal;
  }

  lemma RowStaysInOrder(s: State, step: Step, id: Id)
    requires Ok(s) && Tracked(s) && id in s.invoices && InOrder(s.invoices[id])
    requires EditsDoNotMeet(s, [step])
    ensures InOrder(RowAfter(s, step, id))
  {
    hide Ok, Tracked, Committed, Apply;
    if step.CommitEdit? && CommitHits(s, step.req) && s.edits[step.req].invoice == id {
      CommitInPlace(s, step.req);
    }
  }

  /** As long as edits do not meet, every subtotal is the sum of its lines, and lines are numbered in
      the order of their insertion. */
  lemma {:induction false} UnmetEditsAreExact(s: State, steps: seq<Step>)
    requires Ok(s) && Tracked(s) && EditsDoNotMeet(s, steps)
    requires forall id :: id in s.invoices ==> InOrder(s.invoices[id])
    ensures forall id :: id in Run(s, steps).invoices ==> InOrder(Run(s, steps).invoices[id])
    decreases |steps|
  {
    if steps != [] {
      hide Apply, Ok, Tracked, InOrder, RowAfter, CommitHits;
      var t := Apply(s, steps[0]);
      StepKeepsOk(s, steps[0]);
      StepKeepsTracked(s, steps[0]);
      assert EditsDoNotMeet(s, [steps[0]]) by {
        assert [steps[0]][1..] == [];
      }
      forall id | id in t.invoices ensures InOrder(t.invoices[id]) {
        if id in s.invoices {
          StepRow(s, steps[0], id);
          RowStaysInOrder(s, steps[0], id);
        } else {
          StepNewRow(s, steps[0], id);
          NewIsInOrder(s.next, steps[0]);
        }
      }
      UnmetEditsAreExact(t, steps[1..]);
    }
  }
}
