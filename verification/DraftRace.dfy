/** Runs in which two edits of one draft meet, from the first invoice on: what the comment on
    recomputeTotals (internal/invoice/store.go) calls impossible. */
module DraftRace {
  import opened Prelude
  import opened Invoices
  import opened Drift
  import Money
  import Outbox

  type Int64 = Money.Int64

  function PricedItem(price: Int64): Item { Item(1, price) }

  function PricedLine(id: Id, position: int, price: Int64): Line { Line(id, position, 1, price, price) }

  predicate Price(p: Int64) { 0 <= p <= MAX_UNIT_PRICE }

  /** A draft of two lines priced `p` and `q`. */
  function TwoLines(p: Int64, q: Int64): seq<Line> { [PricedLine(1, 0, p), PricedLine(2, 1, q)] }

  function Draft2(p: Int64, q: Int64): Step { Create(7, 0, [PricedItem(p), PricedItem(q)], [1, 2], false) }

  lemma PricedItemIsValid(id: Id, position: int, p: Int64)
    requires Price(p)
    ensures ValidItem(PricedItem(p)) && LineOf(id, position, PricedItem(p)) == PricedLine(id, position, p)
  {
  }

  lemma Removals(a: Line, b: Line)
    requires a.id == 1 && b.id == 2
    ensures Without([a, b], 1) == [b] && Without([a, b], 2) == [a] && Without([b], 2) == []
    ensures HasLine([a, b], 1) && HasLine([a, b], 2)
  {
    assert Without([], 1) == [] && Without([], 2) == [];
    hide Share, Without, HasLine;
    assert [] + [a] == [a] && [] + [b] == [b] && [a] + [b] == [a, b];
    ShareSnoc([], a, 1);
    ShareSnoc([], a, 2);
    ShareSnoc([], b, 2);
    ShareSnoc([a], b, 1);
    ShareSnoc([a], b, 2);
    SnocHas([], a, 1, 0);
    SnocHas([a], b, 1, 0);
    SnocHas([a], b, 2, 0);
  }

  lemma Sums(a: Line, b: Line)
    ensures Subtotal([]) == 0 && Subtotal([a]) == a.total as int && Subtotal([b]) == b.total as int
    ensures Subtotal([a, b]) == a.total as int + b.total as int
  {
    assert [] + [a] == [a] && [] + [b] == [b] && [a] + [b] == [a, b];
    assert Totals([]) == [];
    assert Subtotal([]) == 0;
    hide Subtotal;
    SubtotalSnoc([], a);
    SubtotalSnoc([], b);
    SubtotalSnoc([a], b);
  }

  /** The row of that draft. */
  function DraftRow(p: Int64, q: Int64): Invoice
    requires Price(p) && Price(q)
  {
    Invoice(1, Draft, TwoLines(p, q), p + q, 0, p + q, 1, [Entry(Created, None, Some(Draft))], [])
  }

  lemma DraftIsValid(p: Int64, q: Int64)
    requires Price(p) && Price(q)
    ensures Creatable(Draft2(p, q)) && NewInvoice(1, Draft2(p, q)) == DraftRow(p, q)
  {
    var items := [PricedItem(p), PricedItem(q)];
    PricedItemIsValid(1, 0, p);
    PricedItemIsValid(2, 1, q);
    Sums(PricedLine(1, 0, p), PricedLine(2, 1, q));
    hide ValidItem, LineOf, Subtotal;
    assert forall i :: 0 <= i < |items| ==> ValidItem(items[i]);
    assert LinesOf(items, [1, 2]) == TwoLines(p, q);
    hide LinesOf;
    assert Amounts(p as int + q as int, 0) == Some((p + q, p + q));
  }

  lemma DraftIsMade(size: Invoice -> nat, p: Int64, q: Int64) returns (steps: seq<Step>, s: State)
    requires Price(p) && Price(q) && SmallFit(size)
    ensures Reached(steps, s) && s.size == size && s.invoices == map[7 := DraftRow(p, q)]
    ensures s.edits == map[] && s.readings == map[]
  {
    DraftIsValid(p, q);
    hide Creatable, NewInvoice, Notices;
    assert Creates(Init(size), Draft2(p, q));
    steps, s := Next([], Init(size), Draft2(p, q));
  }

  /** The state after these steps, from the beginning. */
  ghost predicate Reached(steps: seq<Step>, s: State) { s == Run(Init(s.size), steps) }

  /** Notifications of invoices with few lines can be queued. */
  ghost predicate SmallFit(size: Invoice -> nat) {
    forall inv: Invoice :: |inv.lines| <= 4 ==> size(inv) <= Outbox.MAX_PAYLOAD_BYTES
  }

  lemma SmallFits4(size: Invoice -> nat, inv: Invoice)
    requires SmallFit(size) && |inv.lines| <= 4
    ensures size(inv) <= Outbox.MAX_PAYLOAD_BYTES
  {
  }

  /** The step runs, and its state is the next one. */
  lemma Next(steps: seq<Step>, s: State, step: Step) returns (longer: seq<Step>, t: State)
    requires Reached(steps, s)
    ensures longer == steps + [step] && t == Apply(s, step) && Reached(longer, t) && t.size == s.size
  {
    RunSnoc(Init(s.size), steps, step);
    StepKeepsSize(s, step);
    longer, t := steps + [step], Apply(s, step);
  }

  lemma Removing(steps: seq<Step>, s: State, r: Request, item: Id) returns (longer: seq<Step>, t: State)
    requires Reached(steps, s) && 7 in s.invoices && s.invoices[7].status.Draft? && r !in s.edits
    ensures Reached(longer, t)
    ensures t == s.(edits := s.edits[r := Opened(7, Drop(item), s.invoices[7].version)])
  {
    longer, t := Next(steps, s, OpenRemove(r, 7, item));
  }

  lemma Placing(steps: seq<Step>, s: State, r: Request) returns (longer: seq<Step>, t: State)
    requires Reached(steps, s) && 7 in s.invoices
    requires r in s.edits && s.edits[r].Opened? && s.edits[r].invoice == 7 && !Blocked(s, r)
    requires Placeable(s.invoices[7], s.edits[r].change)
    ensures Reached(longer, t) && t == s.(edits := s.edits[r := PlacedOn(s.invoices[7], s.edits[r])])
  {
    hide Blocked, Placeable, PlacedOn;
    longer, t := Next(steps, s, Place(r));
  }

  lemma PlacingRemoval(steps: seq<Step>, s: State, r: Request, item: Id, left: Int64)
    returns (longer: seq<Step>, t: State)
    requires Reached(steps, s) && 7 in s.invoices && s.invoices[7].status.Draft? && s.invoices[7].tax == 0
    requires r in s.edits && s.edits[r] == Opened(7, Drop(item), 1) && !Blocked(s, r)
    requires HasLine(s.invoices[7].lines, item) && left >= 0
    requires Subtotal(Without(s.invoices[7].lines, item)) == left as int
    ensures Reached(longer, t)
    ensures t == s.(edits := s.edits[r := Placed(7, Drop(item), 1, s.invoices[7].version, left, left)])
  {
    hide Apply, Run, Reached, SmallFit, HasLine, Without, Subtotal, Blocked;
    assert Amounts(left as int, 0) == Some((left, left));
    longer, t := Placing(steps, s, r);
  }

  lemma Committing(steps: seq<Step>, s: State, r: Request) returns (longer: seq<Step>, t: State)
    requires Reached(steps, s) && 7 in s.invoices && s.invoices[7].status.Draft?
    requires r in s.edits && s.edits[r].Placed? && s.edits[r].invoice == 7
    ensures Reached(longer, t)
    ensures t == s.(invoices := s.invoices[7 := Committed(s.invoices[7], s.edits[r])], edits := s.edits - {r})
  {
    hide Committed;
    longer, t := Next(steps, s, CommitEdit(r));
  }

  lemma RemovalsOpened(size: Invoice -> nat, p: Int64, q: Int64) returns (steps: seq<Step>, s: State)
    requires Price(p) && Price(q) && SmallFit(size)
    ensures Reached(steps, s) && s.size == size && s.invoices == map[7 := DraftRow(p, q)] && s.readings == map[]
    ensures s.edits == map[1 := Opened(7, Drop(1), 1), 2 := Opened(7, Drop(2), 1)]
  {
    hide Apply, Run, Reached, SmallFit, TwoLines;
    steps, s := DraftIsMade(size, p, q);
    steps, s := Removing(steps, s, 1, 1);
    steps, s := Removing(steps, s, 2, 2);
  }

  lemma NothingBlocks(s: State, r: Request, q: Request)
    requires r in s.edits && s.edits.Keys == {r, q} && !Conflict(s.edits[q].change, s.edits[r].change)
    ensures !Blocked(s, r)
  {
  }

  lemma DraftSums(p: Int64, q: Int64)
    requires Price(p) && Price(q)
    ensures var inv := DraftRow(p, q);
            && p >= 0 && q >= 0 && inv.status.Draft? && inv.tax == 0 && inv.version == 1
            && HasLine(inv.lines, 1) && HasLine(inv.lines, 2)
            && Subtotal(Without(inv.lines, 1)) == q as int && Subtotal(Without(inv.lines, 2)) == p as int
  {
    Removals(PricedLine(1, 0, p), PricedLine(2, 1, q));
    Sums(PricedLine(1, 0, p), PricedLine(2, 1, q));
    assert TwoLines(p, q) == [PricedLine(1, 0, p), PricedLine(2, 1, q)];
    hide Subtotal, Without, HasLine, TwoLines;
  }

  /** Two removals both sum before either commits. Each is going to store a sum that the other one's
      line is still part of. */
  lemma RemovalsPlaced(size: Invoice -> nat, p: Int64, q: Int64) returns (steps: seq<Step>, s: State)
    requires Price(p) && Price(q) && SmallFit(size)
    ensures Reached(steps, s) && s.size == size && s.invoices == map[7 := DraftRow(p, q)] && s.readings == map[]
    ensures s.edits == map[1 := Placed(7, Drop(1), 1, 1, q, q), 2 := Placed(7, Drop(2), 1, 1, p, p)]
  {
    DraftSums(p, q);
    hide Apply, Run, Reached, SmallFit, Subtotal, Without, HasLine, TwoLines, Blocked, DraftRow;
    steps, s := RemovalsOpened(size, p, q);
    NothingBlocks(s, 1, 2);
    steps, s := PlacingRemoval(steps, s, 1, 1, q);
    NothingBlocks(s, 2, 1);
    steps, s := PlacingRemoval(steps, s, 2, 2, p);
  }

  /** The run the comment on recomputeTotals rules out: of a draft with two lines both are removed at
      once, and an invoice without lines keeps the price of one of them. */
  lemma StrandedSubtotal(size: Invoice -> nat, p: Int64, q: Int64) returns (steps: seq<Step>, s: State)
    requires Price(p) && Price(q) && SmallFit(size)
    ensures Reached(steps, s) && s.size == size && s.readings == map[] && 7 in s.invoices
    ensures var inv := s.invoices[7];
            inv.status.Draft? && inv.lines == [] && inv.subtotal == p && inv.version == 3
  {
    Removals(PricedLine(1, 0, p), PricedLine(2, 1, q));
    assert TwoLines(p, q) == [PricedLine(1, 0, p), PricedLine(2, 1, q)];
    hide Apply, Run, Reached, SmallFit, Subtotal, Without, TwoLines, PricedLine, HasLine;
    steps, s := RemovalsPlaced(size, p, q);
    steps, s := Committing(steps, s, 1);
    assert s.invoices[7].lines == [PricedLine(2, 1, q)];
    assert s.edits == map[2 := Placed(7, Drop(2), 1, 1, p, p)];
    steps, s := Committing(steps, s, 2);
  }

  lemma MovingMoney(inv: Invoice, t: Transition)
    ensures var m := Moving(inv, t);
            && m.status == TransitionTo(t) && m.lines == inv.lines && |m.lines| == |inv.lines|
            && m.subtotal == inv.subtotal
  {
  }

  lemma Issuing(steps: seq<Step>, s: State, expected: int) returns (longer: seq<Step>, t: State)
    requires Reached(steps, s) && s.readings == map[] && 7 in s.invoices && s.invoices[7].status.Draft?
    requires s.invoices[7].version == expected && Fits(s, Moving(s.invoices[7], Issue))
    ensures Reached(longer, t) && t.invoices == s.invoices[7 := Moving(s.invoices[7], Issue)] && t.size == s.size
  {
    hide Reached, Run, Moving, Notices, Fits;
    longer, t := Next(steps, s, Read(1, 7, Issue));
    assert Fits(t, Moving(t.invoices[7], Issue)) by {
      SameFits(s, t, Moving(s.invoices[7], Issue));
    }
    longer, t := Next(longer, t, Write(1, expected));
  }

  lemma SameFits(s: State, t: State, inv: Invoice)
    requires s.size == t.size
    ensures Fits(s, inv) <==> Fits(t, inv)
  {
  }

  lemma ReachedIsOk(steps: seq<Step>, s: State)
    requires Reached(steps, s)
    ensures Ok(s)
  {
    hide Run;
    ReachableInvoicesAreSound(Init(s.size), steps, 7, Open);
  }

  /** Invoice 7 is issued and its subtotal is not the sum of its lines, after the run too. */
  predicate StaysWrong(s: State, more: seq<Step>) {
    var end := Run(s, more);
    7 in end.invoices && !end.invoices[7].status.Draft? && !Exact(end.invoices[7])
  }

  /** Issued in that state, the wrong subtotal is frozen: no further run ever corrects it. */
  lemma FrozenStrandedSubtotal(size: Invoice -> nat, p: Int64, q: Int64) returns (steps: seq<Step>)
    requires Price(p) && Price(q) && p > 0 && SmallFit(size)
    ensures forall more :: StaysWrong(Run(Init(size), steps), more)
  {
    var s;
    var line := PricedLine(1, 0, p);
    Sums(line, line);
    hide Ok, Subtotal, Run, Apply, Moving, SmallFit;
    steps, s := StrandedSubtotal(size, p, q);
    MovingMoney(s.invoices[7], Issue);
    SmallFits4(size, Moving(s.invoices[7], Issue));
    steps, s := Issuing(steps, s, 3);
    ReachedIsOk(steps, s);
    forall more ensures StaysWrong(s, more) {
      IssuedMoneyIsFrozen(s, more, 7);
    }
  }

  // ------------------------------------------------------ positions out of order

  predicate Small(lines: seq<Line>) {
    forall i :: 0 <= i < |lines| ==> 0 <= lines[i].total <= MAX_UNIT_PRICE
  }

  lemma {:induction false} SmallSubtotal(lines: seq<Line>)
    requires Small(lines)
    ensures 0 <= Subtotal(lines) <= |lines| * MAX_UNIT_PRICE as int
    decreases |lines|
  {
    if lines != [] {
      var n := |lines| - 1;
      SmallSubtotal(lines[..n]);
      assert lines == lines[..n] + [lines[n]];
      SubtotalSnoc(lines[..n], lines[n]);
      assert (n + 1) * MAX_UNIT_PRICE as int == n * MAX_UNIT_PRICE as int + MAX_UNIT_PRICE as int;
    }
  }

  lemma SmallFits(lines: seq<Line>)
    requires Small(lines) && |lines| <= 10
    ensures Amounts(Subtotal(lines), 0).Some?
  {
    SmallSubtotal(lines);
    hide Subtotal;
  }

  /** The draft of invoice 7 with these lines. */
  predicate DraftOf(s: State, lines: seq<Line>) {
    7 in s.invoices && s.invoices[7].status.Draft? && s.invoices[7].tax == 0 && s.invoices[7].lines == lines
  }

  /** An edit that nothing blocks is placed and committed. */
  lemma Solo(steps: seq<Step>, s: State, r: Request, lines: seq<Line>, c: Change)
    returns (longer: seq<Step>, t: State)
    requires Reached(steps, s) && DraftOf(s, lines)
    requires r in s.edits && s.edits[r].Opened? && s.edits[r].invoice == 7 && s.edits[r].change == c
    requires forall q :: q in s.edits ==> s.edits[q].Opened?
    requires Applicable(lines, c) && Small(Changed(lines, c)) && |Changed(lines, c)| <= 10
    ensures Reached(longer, t) && t.size == s.size && DraftOf(t, Changed(lines, c)) && t.edits == s.edits - {r}
  {
    SmallFits(Changed(lines, c));
    hide Applicable, Changed, Subtotal, Small, Apply;
    longer, t := Placing(steps, s, r);
    longer, t := Committing(longer, t, r);
  }

  /** Opening an addition reads its position. */
  lemma OpensAt(steps: seq<Step>, s: State, r: Request, item: Id, p: Int64, lines: seq<Line>, position: int)
    returns (longer: seq<Step>, t: State)
    requires Reached(steps, s) && DraftOf(s, lines) && r !in s.edits && Price(p)
    requires NextPosition(lines) == position
    ensures Reached(longer, t) && t.size == s.size && DraftOf(t, lines)
    ensures t.edits == s.edits[r := Opened(7, Add(PricedLine(item, position, p)), s.invoices[7].version)]
  {
    PricedItemIsValid(item, position, p);
    hide ValidItem, LineOf, NextPosition;
    longer, t := Next(steps, s, OpenAdd(r, 7, item, PricedItem(p)));
  }

  function Third(p: Int64): Line { PricedLine(4, 2, p) }
  function Fourth(p: Int64): Line { PricedLine(5, 3, p) }
  function Late(p: Int64): Line { PricedLine(3, 2, p) }

  /** An addition reads position 2; two more take 2 and 3. */
  lemma TwoOvertake(size: Invoice -> nat, p: Int64) returns (steps: seq<Step>, s: State)
    requires Price(p) && SmallFit(size)
    ensures Reached(steps, s) && s.size == size && DraftOf(s, TwoLines(p, p) + [Third(p)] + [Fourth(p)])
    ensures s.edits == map[1 := Opened(7, Add(Late(p)), 1)]
  {
    var two, c, d := TwoLines(p, p), Third(p), Fourth(p);
    PositionsOf(two[0], two[1], c);
    assert two + [c] == [two[0], two[1], c];
    ApplicableTo(two, c);
    ApplicableTo(two + [c], d);
    assert Small(two + [c] + [d]) && Small(two + [c]);
    hide Apply, Run, Reached, SmallFit, Applicable, Subtotal, Without, NextPosition, Small, TwoLines;
    steps, s := DraftIsMade(size, p, p);
    assert DraftOf(s, two);
    steps, s := OpensAt(steps, s, 1, 3, p, two, 2);
    steps, s := OpensAt(steps, s, 2, 4, p, two, 2);
    steps, s := Solo(steps, s, 2, two, Add(c));
    steps, s := OpensAt(steps, s, 3, 5, p, two + [c], 3);
    steps, s := Solo(steps, s, 3, two + [c], Add(d));
  }

  /** Positions need not follow the order of insertion either: after that, the line at 2 is removed
      again, and the first addition lands at 2, behind the line at 3. */
  lemma AdditionOutOfOrder(size: Invoice -> nat, p: Int64) returns (steps: seq<Step>, s: State)
    requires Price(p) && SmallFit(size)
    ensures Reached(steps, s) && s.size == size && DraftOf(s, TwoLines(p, p) + [Fourth(p)] + [Late(p)])
    ensures !PositionsIncrease(s.invoices[7].lines)
  {
    var two, c, d := TwoLines(p, p), Third(p), Fourth(p);
    DropsThird(two[0], two[1], c, d);
    assert two + [c] + [d] == [two[0], two[1], c, d] && two + [d] == [two[0], two[1], d];
    ApplicableTo(two + [d], Late(p));
    var end := two + [d] + [Late(p)];
    assert Small(two + [d]) && Small(end);
    assert end[2].position > end[3].position;
    hide Apply, Run, Reached, SmallFit, Applicable, Subtotal, Without, NextPosition, Small, TwoLines;
    steps, s := TwoOvertake(size, p);
    steps, s := Removing(steps, s, 4, 4);
    steps, s := Solo(steps, s, 4, two + [c] + [d], Drop(4));
    steps, s := Solo(steps, s, 1, two + [d], Add(Late(p)));
  }

  lemma PositionsOf(a: Line, b: Line, c: Line)
    requires a.position == 0 && b.position == 1 && c.position == 2
    ensures NextPosition([a, b]) == 2 && NextPosition([a, b, c]) == 3
  {
    assert [a, b, c][..2] == [a, b] && [a, b][..1] == [a];
    assert NextPosition([a]) == 1;
    assert NextPosition([a, b]) == 2;
  }

  lemma ApplicableTo(lines: seq<Line>, line: Line)
    requires forall i :: 0 <= i < |lines| ==> lines[i].id != line.id && lines[i].position != line.position
    ensures Applicable(lines, Add(line))
  {
  }

  lemma DropsThird(a: Line, b: Line, c: Line, d: Line)
    requires a.id != c.id && b.id != c.id && d.id != c.id
    ensures Changed([a, b, c, d], Drop(c.id)) == [a, b, d] && Applicable([a, b, c, d], Drop(c.id))
  {
    assert Without([], c.id) == [];
    hide Share, Without, HasLine;
    assert [] + [a] == [a] && [a] + [b] == [a, b] && [a, b] + [c] == [a, b, c] && [a, b, c] + [d] == [a, b, c, d];
    assert [a, b] + [d] == [a, b, d];
    SnocHas([a, b], c, c.id, 0);
    SnocHas([a, b, c], d, c.id, 0);
    ShareSnoc([], a, c.id);
    ShareSnoc([a], b, c.id);
    ShareSnoc([a, b], c, c.id);
    ShareSnoc([a, b, c], d, c.id);
  }
}
