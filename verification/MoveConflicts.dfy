/** What a failed transition reports (internal/invoice/store.go). The read that classifies it is a
    statement of its own, so the version it reports is a later one; and the UPDATE also misses on the
    status alone. */
module MoveConflicts {
  import opened Prelude
  import opened Invoices
  import opened InvoiceStore
  import opened Drift
  import DraftRace
  import Money

  // ------------------------------------------------------ how far versions can go

  /** How often a row that left draft can still change. */
  function Room(st: Status): nat { if st.Open? then 1 else 0 }

  lemma IssuedStep(s: State, step: Step, id: Id)
    requires Ok(s) && id in s.invoices && !s.invoices[id].status.Draft?
    ensures var a, b := s.invoices[id], RowAfter(s, step, id);
            && !b.status.Draft? && b.version + Room(b.status) <= a.version + Room(a.status)
            && (b != a ==> step.Write? && WriteHits(s, step) && a.status.Open?
                           && exists t :: CanTransition(Open, TransitionTo(t)) && Fits(s, Moving(a, t)))
  {
    hide Committed, Sound, Fits;
    if step.Write? && WriteHits(s, step) && s.readings[step.req].invoice == id {
      assert CanTransition(s.invoices[id].status, TransitionTo(s.readings[step.req].t));
    }
  }

  /** From issue on a version rises at most once, and only by a transition that fits. */
  lemma {:induction false} IssuedRoom(s: State, steps: seq<Step>, id: Id)
    requires Ok(s) && id in s.invoices && !s.invoices[id].status.Draft?
    ensures id in Run(s, steps).invoices
    ensures var a, b := s.invoices[id], Run(s, steps).invoices[id];
            && b.version <= a.version + Room(a.status)
            && (b.version > a.version ==> CanMove(s, a))
    decreases |steps|
  {
    if steps != [] {
      StepKeepsOk(s, steps[0]);
      StepRow(s, steps[0], id);
      IssuedStep(s, steps[0], id);
      StepKeepsSize(s, steps[0]);
      var t := Apply(s, steps[0]);
      hide Apply, Ok, RowAfter, WriteHits, Moving;
      IssuedRoom(t, steps[1..], id);
      if t.invoices[id] == s.invoices[id] {
        SameCanMove(s, t, s.invoices[id]);
      }
    }
  }

  /** Some transition of the row as it is can commit. */
  predicate CanMove(s: State, inv: Invoice) {
    exists t :: CanTransition(inv.status, TransitionTo(t)) && Fits(s, Moving(inv, t))
  }

  lemma SameCanMove(s: State, t: State, inv: Invoice)
    requires s.size == t.size
    ensures CanMove(s, inv) <==> CanMove(t, inv)
  {
    forall x ensures Fits(s, Moving(inv, x)) <==> Fits(t, Moving(inv, x)) {
    }
  }

  // ------------------------------------------------------ bringing a version about

  /** Every other transaction gives up. */
  lemma {:induction false} AllAbandon(s: State, others: set<Request>) returns (late: seq<Step>)
    requires others <= s.edits.Keys
    ensures Run(s, late).invoices == s.invoices && Run(s, late).size == s.size
    ensures Run(s, late).edits == s.edits - others && Run(s, late).readings.Keys <= s.readings.Keys
    ensures forall i :: 0 <= i < |late| ==> late[i].Abandon? && late[i].req in others
    decreases others
  {
    if others == {} {
      late := [];
      assert s.edits - others == s.edits;
    } else {
      var r :| r in others;
      var t := Apply(s, Abandon(r));
      var rest := AllAbandon(t, others - {r});
      late := [Abandon(r)] + rest;
      assert late[1..] == rest;
      assert s.edits - others == t.edits - (others - {r});
    }
  }

  function FreeLine(item: Id, position: int): Line { Line(item, position, 1, 0, 0) }

  lemma FreeLineFits(lines: seq<Line>, item: Id)
    requires forall i :: 0 <= i < |lines| ==> lines[i].id != item
    ensures var line := FreeLine(item, NextPosition(lines));
            Applicable(lines, Add(line)) && Subtotal(lines + [line]) == Subtotal(lines)
  {
    var line := FreeLine(item, NextPosition(lines));
    SubtotalSnoc(lines, line);
    forall i | 0 <= i < |lines| ensures lines[i].position != line.position {
      NextPositionIsBeyond(lines, i);
    }
    DraftRace.ApplicableTo(lines, line);
  }

  /** The amounts of the draft can be stored. */
  predicate Storable(inv: Invoice) { Amounts(Subtotal(inv.lines), inv.tax).Some? }

  predicate ClearDraft(s: State, id: Id) {
    id in s.invoices && s.invoices[id].status.Draft? && Storable(s.invoices[id]) && s.edits == map[]
  }

  lemma FreshItem(lines: seq<Line>) returns (item: Id)
    ensures forall i :: 0 <= i < |lines| ==> lines[i].id != item
  {
    item := Unused(set i | 0 <= i < |lines| :: lines[i].id);
  }

  /** One more line without a price, by request `q`. */
  lemma OneEdit(s: State, q: Request, id: Id) returns (late: seq<Step>)
    requires ClearDraft(s, id)
    ensures var t := Run(s, late);
            ClearDraft(t, id) && t.invoices[id].version == s.invoices[id].version + 1
    ensures forall i :: 0 <= i < |late| ==> Owner(late[i]) == Some(q)
  {
    var inv := s.invoices[id];
    var item := FreshItem(inv.lines);
    var line := FreeLine(item, NextPosition(inv.lines));
    FreeLineFits(inv.lines, item);
    var it := Item(1, 0);
    FreeItem(item, NextPosition(inv.lines));
    hide Subtotal, Applicable, NextPosition, ValidItem, LineOf, Storable, Apply, Run, Blocked, Placeable, PlacedOn,
         Committed, FreeLine;
    late := [OpenAdd(q, id, item, it), Place(q), CommitEdit(q)];
    ThreeSteps(s, late[0], late[1], late[2]);
    var s1, s2 := Apply(s, late[0]), Apply(Apply(s, late[0]), late[1]);
    OpensFree(s, q, id, item);
    Unblocked(s1, q);
    CanPlace(inv, line);
    PlacesAlone(s1, q, id);
    PlacedRow(inv, s1.edits[q], line);
    CommitsAlone(s2, q, id);
  }

  lemma CanPlace(inv: Invoice, line: Line)
    requires inv.status.Draft? && Storable(inv)
    requires Applicable(inv.lines, Add(line)) && Subtotal(inv.lines + [line]) == Subtotal(inv.lines)
    ensures Placeable(inv, Add(line))
  {
    hide Subtotal, Applicable, Amounts;
  }

  lemma PlacedRow(inv: Invoice, e: Edit, line: Line)
    requires e.Opened? && e.change == Add(line) && Placeable(inv, Add(line))
    requires Storable(inv) && Subtotal(inv.lines + [line]) == Subtotal(inv.lines)
    ensures var p := PlacedOn(inv, e);
            && p.Placed? && p.invoice == e.invoice
            && var row := Committed(inv, p);
               row.status == inv.status && row.version == inv.version + 1 && Storable(row)
  {
    hide Subtotal, Amounts, Applicable;
  }

  lemma OpensFree(s: State, q: Request, id: Id, item: Id)
    requires id in s.invoices && s.invoices[id].status.Draft? && s.edits == map[]
    ensures var inv := s.invoices[id];
            var line := FreeLine(item, NextPosition(inv.lines));
            Apply(s, OpenAdd(q, id, item, Item(1, 0))) == s.(edits := map[q := Opened(id, Add(line), inv.version)])
  {
    FreeItem(item, NextPosition(s.invoices[id].lines));
    hide ValidItem, LineOf, NextPosition;
  }

  lemma Unblocked(s: State, q: Request)
    requires s.edits.Keys == {q}
    ensures !Blocked(s, q)
  {
  }

  lemma PlacesAlone(s: State, q: Request, id: Id)
    requires id in s.invoices && s.edits.Keys == {q} && s.edits[q].Opened? && s.edits[q].invoice == id
    requires !Blocked(s, q) && Placeable(s.invoices[id], s.edits[q].change)
    ensures Apply(s, Place(q)) == s.(edits := map[q := PlacedOn(s.invoices[id], s.edits[q])])
  {
    hide Blocked, Placeable, PlacedOn;
    assert s.edits[q := PlacedOn(s.invoices[id], s.edits[q])] == map[q := PlacedOn(s.invoices[id], s.edits[q])];
  }

  lemma CommitsAlone(s: State, q: Request, id: Id)
    requires id in s.invoices && s.invoices[id].status.Draft?
    requires s.edits.Keys == {q} && s.edits[q].Placed? && s.edits[q].invoice == id
    ensures Apply(s, CommitEdit(q))
            == s.(invoices := s.invoices[id := Committed(s.invoices[id], s.edits[q])], edits := map[])
  {
    hide Committed;
    assert s.edits - {q} == map[];
  }

  lemma FreeItem(item: Id, position: int)
    ensures ValidItem(Item(1, 0)) && LineOf(item, position, Item(1, 0)) == FreeLine(item, position)
  {
  }

  lemma ThreeSteps(s: State, a: Step, b: Step, c: Step)
    ensures Run(s, [a, b, c]) == Apply(Apply(Apply(s, a), b), c)
  {
    hide Apply;
    RunSnoc(s, [], a);
    RunSnoc(s, [a], b);
    RunSnoc(s, [a, b], c);
    assert [] + [a] == [a] && [a] + [b] == [a, b] && [a, b] + [c] == [a, b, c];
  }

  lemma {:induction false} Edits(s: State, q: Request, id: Id, version: int) returns (late: seq<Step>)
    requires ClearDraft(s, id) && s.invoices[id].version <= version
    ensures id in Run(s, late).invoices && Run(s, late).invoices[id].version == version
    ensures forall i :: 0 <= i < |late| ==> Owner(late[i]) == Some(q)
    decreases version - s.invoices[id].version
  {
    if s.invoices[id].version == version {
      late := [];
    } else {
      hide Run, ClearDraft, Owner;
      assert ClearDraft(s, id) ==> id in s.invoices;
      var first := OneEdit(s, q, id);
      var rest := Edits(Run(s, first), q, id, version);
      late := first + rest;
      RunAppend(s, first, rest);
    }
  }

  lemma OneMove(s: State, q: Request, id: Id, t: Transition) returns (late: seq<Step>)
    requires id in s.invoices && q !in s.readings
    requires CanTransition(s.invoices[id].status, TransitionTo(t)) && Fits(s, Moving(s.invoices[id], t))
    ensures id in Run(s, late).invoices && Run(s, late).invoices[id].version == s.invoices[id].version + 1
    ensures forall i :: 0 <= i < |late| ==> Owner(late[i]) == Some(q)
  {
    var read, write := Read(q, id, t), Write(q, s.invoices[id].version);
    late := [read, write];
    RunSnoc(s, [], read);
    RunSnoc(s, [read], write);
    assert [] + [read] == [read] && [read] + [write] == late;
    hide Run, Notices, CanTransition, TransitionTo;
    assert WriteHits(Apply(s, read), write);
  }

  // ----------------------------------------------------------- the exact condition

  /** The conflict, told after `late`, names the very version the caller expected. */
  ghost predicate NamesExpected(s: State, step: Step, late: seq<Step>)
    requires step.Write? && step.req in s.readings
  {
    var id, t := s.readings[step.req].invoice, Run(Apply(s, step), late);
    Avoids(step.req, late) && id in t.invoices && t.invoices[id].version == step.expected
  }

  /** What the row and the caller's version allow. */
  predicate Reachable(s: State, inv: Invoice, expected: int) {
    || expected == inv.version
    || (expected > inv.version && inv.status.Draft?)
    || (expected == inv.version + 1 && inv.status.Open? && CanMove(s, inv))
  }

  lemma MissKeepsRows(s: State, step: Step)
    requires step.Write? && !Matches(s, step)
    ensures var t := Apply(s, step);
            t.invoices == s.invoices && t.readings == s.readings - {step.req} && t.edits == s.edits && t.size == s.size
  {
  }

  /** A conflict can name the expected version only if the row has it already (and only the status
      differs), or is behind it and can still get there: a draft by edits or an issue, an open invoice by
      one transition. */
  lemma NamesExpectedOnlyIf(s: State, step: Step, late: seq<Step>)
    requires Ok(s) && step.Write? && step.req in s.readings && !Matches(s, step)
    requires s.readings[step.req].invoice in s.invoices && NamesExpected(s, step, late)
    ensures Reachable(s, s.invoices[s.readings[step.req].invoice], step.expected)
  {
    var id := s.readings[step.req].invoice;
    var t := Apply(s, step);
    MissKeepsRows(s, step);
    StepKeepsOk(s, step);
    hide Apply, Run, Ok, Matches, CanMove;
    IssuedMoneyIsFrozen(t, late, id);
    if !t.invoices[id].status.Draft? {
      IssuedRoom(t, late, id);
      SameCanMove(s, t, t.invoices[id]);
    }
  }

  /** And then it can: for a draft to get ahead by edits, its lines must add up to a storable amount. */
  lemma NamesExpectedIf(s: State, step: Step) returns (late: seq<Step>)
    requires step.Write? && step.req in s.readings && !Matches(s, step) && step.req !in s.edits
    requires s.readings[step.req].invoice in s.invoices
    requires Reachable(s, s.invoices[s.readings[step.req].invoice], step.expected)
    requires var inv := s.invoices[s.readings[step.req].invoice];
             inv.status.Draft? && step.expected > inv.version ==> Storable(inv)
    ensures NamesExpected(s, step, late)
  {
    var id := s.readings[step.req].invoice;
    var inv, t := s.invoices[id], Apply(s, step);
    MissKeepsRows(s, step);
    var q := Unused(t.readings.Keys + {step.req});
    if step.expected == inv.version {
      late := [];
    } else if inv.status.Draft? {
      hide Apply, Run, Matches, Subtotal, Amounts;
      var alone := AllAbandon(t, t.edits.Keys);
      var u := Run(t, alone);
      assert u.edits == map[];
      var rest := Edits(u, q, id, step.expected);
      late := alone + rest;
      RunAppend(t, alone, rest);
    } else {
      hide Apply, Run, Matches;
      SameCanMove(s, t, inv);
      var x :| CanTransition(inv.status, TransitionTo(x)) && Fits(t, Moving(inv, x));
      late := OneMove(t, q, id, x);
    }
  }

  /** Told "expected version 2, current version 2": a void that read a draft, after another request issued
      it. */
  lemma CurrentVersionRefused(size: Invoice -> nat, p: Money.Int64) returns (steps: seq<Step>, s: State)
    requires DraftRace.Price(p) && DraftRace.SmallFit(size)
    ensures DraftRace.Reached(steps, s) && 5 in s.readings && s.readings[5].invoice == 7 && 7 in s.invoices
    ensures s.invoices[7].version == 2 && !Matches(s, Write(5, 2)) && NamesExpected(s, Write(5, 2), [])
  {
    assert |DraftRace.TwoLines(p, p)| == 2;
    hide DraftRace.Reached, Matches, NamesExpected, Run, DraftRace.SmallFit, DraftRace.TwoLines, Moving, Notices,
         Committed, NewInvoice, Creates, Placeable, PlacedOn, Blocked, LineOf, ValidItem, NextPosition;
    steps, s := DraftRace.DraftIsMade(size, p, p);
    var inv := s.invoices[7];
    DraftRace.MovingMoney(inv, Issue);
    DraftRace.SmallFits4(size, Moving(inv, Issue));
    steps, s := DraftRace.Next(steps, s, Read(5, 7, VoidIt));
    steps, s := DraftRace.Next(steps, s, Read(1, 7, Issue));
    assert WriteHits(s, Write(1, 1)) by {
      Hits(s, Write(1, 1));
    }
    steps, s := DraftRace.Next(steps, s, Write(1, 1));
    MovingContinuesVersion(inv, Issue);
    StatusDiffers(s, Write(5, 2));
  }

  lemma Hits(s: State, step: Step)
    requires step.Write? && step.req in s.readings && s.readings[step.req].invoice in s.invoices
    requires var r := s.readings[step.req];
             var inv := s.invoices[r.invoice];
             inv.version == step.expected && inv.status == r.status && Fits(s, Moving(inv, r.t))
    ensures WriteHits(s, step)
  {
  }

  /** The version is right, the status is not. */
  lemma StatusDiffers(s: State, step: Step)
    requires step.Write? && step.req in s.readings && s.readings[step.req].invoice in s.invoices
    requires var inv := s.invoices[s.readings[step.req].invoice];
             inv.version == step.expected && inv.status != s.readings[step.req].status
    ensures !Matches(s, step) && NamesExpected(s, step, [])
  {
    MissKeepsRows(s, step);
    NoSteps(Apply(s, step));
    hide Apply, Run;
  }

  lemma NoSteps(s: State)
    ensures Run(s, []) == s
  {
  }
}
