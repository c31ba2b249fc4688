/** What the statements on invoices amount to, read off the rows: the documented lifecycle, the amounts as
    sums over lines, and what each change leaves. The steps of Invoices are proved to do just that. */
module InvoiceEffects {
  import opened Prelude
  import opened Money
  import opened Invoices
  import Outbox

  // ----------------------------------------------------------------- transitions

  /** A draft is issued or voided, an open invoice paid or voided; paid and void are final. */
  ghost predicate Legal(from: Status, t: Transition) {
    (t.Issue? && from.Draft?) || (t.Pay? && from.Open?) || (t.VoidIt? && (from.Draft? || from.Open?))
  }

  lemma LegalIff(from: Status, t: Transition)
    ensures CanTransition(from, TransitionTo(t)) <==> Legal(from, t)
  {
  }

  ghost function Target(t: Transition): Status {
    if t.Issue? then Open else if t.Pay? then Paid else Void
  }

  ghost function Announcement(t: Transition): Outbox.Event {
    if t.Issue? then Outbox.InvoiceIssued else if t.Pay? then Outbox.InvoicePaid else Outbox.InvoiceVoided
  }

  /** The row after a transition: nothing but its status, its version and its log is new. */
  ghost function MovedRow(row: Invoice, t: Transition): Invoice {
    row.(status := Target(t), version := row.version + 1,
         log := row.log + [Entry(Kind.Moved(t), Some(row.status), Some(Target(t)))])
  }

  /** One new row of the outbox for each endpoint that is active and subscribed, and no other. */
  ghost predicate Notified(s: State, outbox: multiset<Notice>, event: Outbox.Event, id: Id) {
    forall n: Notice :: outbox[n] == s.outbox[n] + NoticeDue(s, n, event, id)
  }

  ghost function NoticeDue(s: State, n: Notice, event: Outbox.Event, id: Id): nat {
    if n.invoice == id && n.event == event && n.endpoint in s.endpoints && s.endpoints[n.endpoint].active
       && event in s.endpoints[n.endpoint].events
    then 1 else 0
  }

  lemma NoticesAreDue(s: State, event: Outbox.Event, id: Id)
    ensures Notified(s, s.outbox + Notices(s.endpoints, event, id), event, id)
  {
    hide Notices;
    forall n: Notice
      ensures (s.outbox + Notices(s.endpoints, event, id))[n] == s.outbox[n] + NoticeDue(s, n, event, id)
    {
      FanOutCount(s.endpoints, event, id, n);
    }
  }

  lemma MovingMeans(row: Invoice, t: Transition)
    ensures Moving(row, t) == MovedRow(row, t) && EventFor(t) == Announcement(t)
  {
  }

  /** The row a request is about to write is still as it read it, at the version expected. */
  ghost predicate Unmoved(s: State, id: Id, read: Status, expected: int) {
    id in s.invoices && s.invoices[id].version == expected && s.invoices[id].status == read
  }

  lemma MatchesMeans(s: State, req: Request, expected: int)
    requires req in s.readings && s.readings[req].invoice in s.invoices
    ensures var r, step := s.readings[req], Write(req, expected);
            && (Matches(s, step) <==> Unmoved(s, r.invoice, r.status, expected))
            && (WriteHits(s, step) <==>
                  Unmoved(s, r.invoice, r.status, expected)
                  && s.size(MovedRow(s.invoices[r.invoice], r.t)) <= 65536)
  {
    MovingMeans(s.invoices[s.readings[req].invoice], s.readings[req].t);
    hide Moving, MovedRow;
  }

  lemma WriteMeans(s: State, req: Request, expected: int)
    requires req in s.readings && s.readings[req].invoice in s.invoices
    ensures var r, t := s.readings[req], Apply(s, Write(req, expected));
            && t == s.(readings := s.readings - {req}, invoices := t.invoices, outbox := t.outbox)
            && if WriteHits(s, Write(req, expected)) then
                 && t.invoices == s.invoices[r.invoice := MovedRow(s.invoices[r.invoice], r.t)]
                 && Notified(s, t.outbox, Announcement(r.t), r.invoice)
               else t.invoices == s.invoices && t.outbox == s.outbox
  {
    var r := s.readings[req];
    MovingMeans(s.invoices[r.invoice], r.t);
    NoticesAreDue(s, EventFor(r.t), r.invoice);
    hide Moving, MovedRow, Notices, Notified, EventFor, Announcement, WriteHits;
  }

  // ----------------------------------------------------------------------- sums

  ghost function SumOf(lines: seq<Line>): int {
    if lines == [] then 0 else lines[0].total as int + SumOf(lines[1..])
  }

  lemma {:induction false} SumOfSnoc(lines: seq<Line>, line: Line)
    ensures SumOf(lines + [line]) == SumOf(lines) + line.total as int
    decreases |lines|
  {
    if lines != [] {
      SumOfSnoc(lines[1..], line);
      assert (lines + [line])[1..] == lines[1..] + [line];
    }
  }

  lemma {:induction false} SubtotalIsSum(lines: seq<Line>)
    ensures Subtotal(lines) == SumOf(lines)
    decreases |lines|
  {
    if lines != [] {
      var most, last := lines[..|lines| - 1], lines[|lines| - 1];
      assert lines == most + [last];
      SubtotalIsSum(most);
      SumOfSnoc(most, last);
      assert Totals(lines)[..|lines| - 1] == Totals(most);
    }
  }

  /** The lines of other items, in their order. */
  ghost function OtherLines(lines: seq<Line>, item: Id): seq<Line> {
    if lines == [] then [] else (if lines[0].id == item then [] else [lines[0]]) + OtherLines(lines[1..], item)
  }

  lemma {:induction false} OthersSnoc(lines: seq<Line>, line: Line, item: Id)
    ensures OtherLines(lines + [line], item) == OtherLines(lines, item) + if line.id == item then [] else [line]
    decreases |lines|
  {
    if lines != [] {
      OthersSnoc(lines[1..], line, item);
      assert (lines + [line])[1..] == lines[1..] + [line];
    }
  }

  lemma {:induction false} WithoutIsOthers(lines: seq<Line>, item: Id)
    ensures Without(lines, item) == OtherLines(lines, item)
    decreases |lines|
  {
    if lines != [] {
      var most, last := lines[..|lines| - 1], lines[|lines| - 1];
      assert lines == most + [last];
      WithoutIsOthers(most, item);
      OthersSnoc(most, last, item);
    }
  }

  // ---------------------------------------------------------------------- edits

  /** The lines once the change is made: one more at the end, or those of the other items. */
  ghost function LinesAfter(lines: seq<Line>, c: Change): seq<Line> {
    if c.Add? then lines + [c.line] else OtherLines(lines, c.item)
  }

  /** The line to remove is there; or the line to add is new, and so is its position. */
  ghost predicate Suits(lines: seq<Line>, c: Change) {
    if c.Add? then
      forall i :: 0 <= i < |lines| ==> lines[i].id != c.line.id && lines[i].position != c.line.position
    else exists i :: 0 <= i < |lines| && lines[i].id == c.item
  }

  /** The new amounts fit into an int64, and none is negative. */
  ghost predicate Payable(row: Invoice, c: Change) {
    0 <= SumOf(LinesAfter(row.lines, c)) && 0 <= row.tax
    && SumOf(LinesAfter(row.lines, c)) + row.tax as int <= 0x7fff_ffff_ffff_ffff
  }

  /** Another request's uncommitted change holds the same line or takes the same position. */
  ghost predicate Waits(s: State, req: Request) {
    req in s.edits && exists q :: q in s.edits && q != req && Holds(s.edits[q], s.edits[req])
  }

  ghost predicate Holds(a: Edit, b: Edit) {
    && a.Placed? && a.invoice == b.invoice
    && match (a.change, b.change)
       case (Add(x), Add(y)) => x.id == y.id || x.position == y.position
       case (Add(x), Drop(item)) => x.id == item
       case (Drop(item), Add(y)) => y.id == item
       case (Drop(item), Drop(other)) => item == other
  }

  /** A placed edit carries the sum of the lines as it saw them, its own change included, and the tax. */
  ghost function Summed(row: Invoice, e: Edit): Edit
    requires Payable(row, e.change)
  {
    var sum := SumOf(LinesAfter(row.lines, e.change));
    Placed(e.invoice, e.change, e.at, row.version, sum as Int64, (sum + row.tax as int) as Int64)
  }

  /** The row an edit commits: the amounts it carries, and one log entry. */
  ghost predicate EditedTo(row: Invoice, e: Edit, after: Invoice) {
    && e.Placed? && after.lines == LinesAfter(row.lines, e.change)
    && after.subtotal == e.subtotal && after.total == e.total
    && after.version == row.version + 1 && after.number == row.number && after.status == row.status
    && after.tax == row.tax
    && after.log == row.log + [Entry(if e.change.Add? then ItemAdded else ItemRemoved, None, None)]
  }

  lemma ChangedMeans(lines: seq<Line>, c: Change)
    ensures Changed(lines, c) == LinesAfter(lines, c) && Subtotal(Changed(lines, c)) == SumOf(LinesAfter(lines, c))
  {
    if c.Drop? {
      WithoutIsOthers(lines, c.item);
    }
    SubtotalIsSum(Changed(lines, c));
  }

  lemma BlockedMeans(s: State, req: Request)
    ensures Blocked(s, req) <==> Waits(s, req)
  {
    if req in s.edits {
      forall q | q in s.edits
        ensures Holds(s.edits[q], s.edits[req])
                <==> s.edits[q].Placed? && s.edits[q].invoice == s.edits[req].invoice
                     && Conflict(s.edits[q].change, s.edits[req].change)
      {
      }
    }
  }

  lemma PlaceableMeans(row: Invoice, e: Edit)
    requires e.Opened?
    ensures Applicable(row.lines, e.change) <==> Suits(row.lines, e.change)
    ensures Placeable(row, e.change) <==>
              row.status.Draft? && Suits(row.lines, e.change) && Payable(row, e.change)
    ensures Placeable(row, e.change) ==> PlacedOn(row, e) == Summed(row, e)
  {
    ChangedMeans(row.lines, e.change);
    hide Changed, Subtotal, SumOf, LinesAfter;
  }

  lemma CommittedMeans(row: Invoice, e: Edit)
    requires e.Placed?
    ensures EditedTo(row, e, Committed(row, e))
  {
    ChangedMeans(row.lines, e.change);
    hide Changed, Subtotal, SumOf, LinesAfter;
  }

  /** The next position is one above every other, or zero. */
  lemma {:induction false} NextPositionIsOnTop(lines: seq<Line>)
    ensures forall i :: 0 <= i < |lines| ==> lines[i].position < NextPosition(lines)
    ensures if lines == [] then NextPosition(lines) == 0
            else exists i :: 0 <= i < |lines| && NextPosition(lines) == lines[i].position + 1
    decreases |lines|
  {
    if lines != [] {
      var n := |lines| - 1;
      NextPositionIsOnTop(lines[..n]);
      if NextPosition(lines) != lines[n].position + 1 {
        var i :| 0 <= i < n && NextPosition(lines[..n]) == lines[..n][i].position + 1;
        assert lines[i] == lines[..n][i];
      }
    }
  }

  // ------------------------------------------------------------------ creations

  /** What the items are worth. */
  ghost function Worth(items: seq<Item>): int {
    if items == [] then 0 else items[0].quantity as int * items[0].unitPrice as int + Worth(items[1..])
  }

  /** The documented limits: 500 items of 1 to a million units at up to 10^12 each, and a tax of up to 10^15. */
  ghost predicate WithinLimits(tax: Int64, items: seq<Item>) {
    && 0 <= tax <= 1_000_000_000_000_000 && |items| <= 500
    && forall i :: 0 <= i < |items| ==> Admissible(items[i])
  }

  ghost predicate Admissible(it: Item) {
    1 <= it.quantity <= 1_000_000 && 0 <= it.unitPrice <= 1_000_000_000_000
  }

  lemma ValidItemMeans(it: Item)
    ensures ValidItem(it) <==> Admissible(it)
  {
    if Admissible(it) {
      var q, p := it.quantity as int, it.unitPrice as int;
      assert q * p <= 1_000_000 * 1_000_000_000_000 by {
        Grows(q, 1_000_000, p + 1);
        assert q * p <= q * (p + 1) && 1_000_000 * (p + 1) <= 1_000_000 * 1_000_000_000_001;
      }
    }
  }

  /** Line `i` of a new invoice. */
  ghost predicate LineFor(line: Line, id: Id, position: int, it: Item) {
    && line.id == id && line.position == position && line.quantity == it.quantity && line.unitPrice == it.unitPrice
    && line.total as int == it.quantity as int * it.unitPrice as int
  }

  /** The invoice a creation leaves. */
  ghost predicate NewRow(inv: Invoice, number: nat, tax: Int64, items: seq<Item>, ids: seq<Id>) {
    && inv.number == number && inv.status.Draft? && inv.version == 1 && inv.past == []
    && |inv.lines| == |items| == |ids|
    && (forall i :: 0 <= i < |items| ==> LineFor(inv.lines[i], ids[i], i, items[i]))
    && inv.subtotal as int == Worth(items) && inv.tax == tax && inv.total as int == Worth(items) + tax as int
    && inv.log == [Entry(Created, None, Some(Draft))]
  }

  lemma {:induction false} LinesAreWorth(items: seq<Item>, lines: seq<Line>)
    requires |lines| == |items|
    requires forall i :: 0 <= i < |items| ==>
               lines[i].total as int == items[i].quantity as int * items[i].unitPrice as int
    ensures SumOf(lines) == Worth(items)
    decreases |items|
  {
    if items != [] {
      assert forall i :: 0 <= i < |items[1..]| ==> items[1..][i] == items[i + 1] && lines[1..][i] == lines[i + 1];
      LinesAreWorth(items[1..], lines[1..]);
    }
  }

  lemma LineOfMeans(id: Id, position: int, it: Item)
    requires ValidItem(it)
    ensures LineFor(LineOf(id, position, it), id, position, it)
  {
  }

  /** The line an addition appends: priced, at the position above all others. */
  ghost function Appended(lines: seq<Line>, id: Id, it: Item): (line: Line)
    requires Admissible(it)
    ensures LineFor(line, id, NextPosition(lines), it)
  {
    ValidItemMeans(it);
    LineOfMeans(id, NextPosition(lines), it);
    LineOf(id, NextPosition(lines), it)
  }

  lemma LinesOfMeans(items: seq<Item>, ids: seq<Id>)
    requires |ids| == |items| && forall i :: 0 <= i < |items| ==> ValidItem(items[i])
    ensures var lines := LinesOf(items, ids);
            && |lines| == |items| && Subtotal(lines) == Worth(items)
            && forall i :: 0 <= i < |items| ==> LineFor(lines[i], ids[i], i, items[i])
  {
    var lines := LinesOf(items, ids);
    hide ValidItem, Subtotal, SumOf, Worth;
    forall i | 0 <= i < |items| ensures LineFor(lines[i], ids[i], i, items[i]) {
      LineOfMeans(ids[i], i, items[i]);
    }
    LinesAreWorth(items, lines);
    SubtotalIsSum(lines);
  }

  ghost predicate WorthFits(tax: Int64, items: seq<Item>) {
    0 <= Worth(items) && Worth(items) + tax as int <= 0x7fff_ffff_ffff_ffff
  }

  lemma CreateMeans(s: State, step: Step)
    requires step.Create?
    ensures Creates(s, step) <==>
              !step.fails && step.id !in s.invoices && Creatable(step) && s.size(NewInvoice(s.next, step)) <= 65536
    ensures Apply(s, step) ==
              if !Creates(s, step) then s
              else s.(invoices := s.invoices[step.id := NewInvoice(s.next, step)], next := s.next + 1,
                      outbox := s.outbox + Notices(s.endpoints, Outbox.InvoiceCreated, step.id))
  {
    hide NewInvoice, Creatable, Notices;
  }

  lemma CreatableMeans(number: nat, step: Step)
    requires step.Create? && |step.ids| == |step.items|
    ensures Creatable(step) <==> WithinLimits(step.tax, step.items) && WorthFits(step.tax, step.items)
    ensures Creatable(step) ==>
              NewRow(NewInvoice(number, step), number, step.tax, step.items, step.ids)
  {
    forall i | 0 <= i < |step.items| ensures ValidItem(step.items[i]) <==> Admissible(step.items[i]) {
      ValidItemMeans(step.items[i]);
    }
    hide ValidItem, Admissible, LineFor, Worth, Subtotal, LinesOf;
    if forall i :: 0 <= i < |step.items| ==> ValidItem(step.items[i]) {
      LinesOfMeans(step.items, step.ids);
    }
  }
}
