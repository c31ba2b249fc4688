/** The invoice repository: the transactions of internal/invoice/store.go as methods on the rows
    they update, each proved to be the step of the same name in Invoices. */
module InvoiceStore {
  import opened Prelude
  import opened Money
  import opened Invoices
  import opened InvoiceEffects
  import Outbox

  datatype CreateResult = Made(invoice: Invoice) | BadInput | BadMoney(reason: Reason) | RolledBack
  datatype EditResult =
    | Edited(invoice: Invoice)
    | NotFound | NotDraft | BadItem | NoSuchItem | PositionTaken | TooBig | Cancelled
  datatype MoveResult =
    | Moved(invoice: Invoice)
    | Missing | Illegal | VersionConflict(current: int) | BadVersion | PayloadTooLarge

  /** The request a step belongs to. */
  function Owner(step: Step): Option<Request> {
    match step
    case OpenAdd(r, _, _, _) => Some(r)
    case OpenRemove(r, _, _) => Some(r)
    case Place(r) => Some(r)
    case CommitEdit(r) => Some(r)
    case Abandon(r) => Some(r)
    case Read(r, _, _) => Some(r)
    case Write(r, _) => Some(r)
    case _ => None
  }

  /** The step a line change amounts to. */
  function PlaceStep(req: Request, r: Option<EditResult>): Step {
    if r == Some(Cancelled) then Abandon(req) else Place(req)
  }

  predicate Avoids(req: Request, steps: seq<Step>) {
    forall i :: 0 <= i < |steps| ==> Owner(steps[i]) != Some(req)
  }

  lemma OtherStep(s: State, step: Step, req: Request, id: Id)
    requires Owner(step) != Some(req)
    ensures var t := Apply(s, step);
            && (req in t.readings <==> req in s.readings) && (req in t.edits <==> req in s.edits)
            && (req in s.readings ==> t.readings[req] == s.readings[req])
            && (req in s.edits ==> t.edits[req] == s.edits[req])
            && (id in s.invoices ==> id in t.invoices)
  {
    hide Committed, Moving, Notices, NewInvoice, Creatable, Fits, WriteHits, CommitHits, CanTransition, Blocked,
         Placeable, PlacedOn, LineOf, NextPosition, ValidItem;
    if step.OpenAdd? || step.OpenRemove? {
      OtherOpens(s, step, req);
    }
    hide Begun;
  }

  lemma OtherOpens(s: State, step: Step, req: Request)
    requires (step.OpenAdd? || step.OpenRemove?) && step.req != req
    ensures var t := Apply(s, step);
            && t.readings == s.readings && t.invoices == s.invoices && (req in t.edits <==> req in s.edits)
            && (req in s.edits ==> t.edits[req] == s.edits[req])
  {
  }

  lemma {:induction false} OthersLeaveRequestAlone(s: State, steps: seq<Step>, req: Request, id: Id)
    requires Avoids(req, steps)
    ensures var t := Run(s, steps);
            && (req in t.readings <==> req in s.readings) && (req in t.edits <==> req in s.edits)
            && (req in s.readings ==> t.readings[req] == s.readings[req])
            && (req in s.edits ==> t.edits[req] == s.edits[req])
            && (id in s.invoices ==> id in t.invoices)
    decreases |steps|
  {
    if steps != [] {
      hide Apply, Owner;
      OtherStep(s, steps[0], req, id);
      OthersLeaveRequestAlone(Apply(s, steps[0]), steps[1..], req, id);
    }
  }

  /** The line totals are those of the items, in order. */
  predicate Priced(items: seq<Item>, totals: seq<Int64>) {
    |totals| == |items| && forall i :: 0 <= i < |items| ==>
      ValidItem(items[i]) && LineTotal(items[i].quantity, items[i].unitPrice) == Amount.Ok(totals[i])
  }

  /** Validates the items and computes each line total; None if one is invalid. */
  method PriceItems(items: seq<Item>) returns (totals: Option<seq<Int64>>)
    ensures totals.Some? <==> forall i :: 0 <= i < |items| ==> ValidItem(items[i])
    ensures totals.Some? ==> Priced(items, totals.value)
  {
    var out: seq<Int64> := [];
    for i := 0 to |items|
      invariant |out| == i && Priced(items[..i], out)
    {
      if !ValidItem(items[i]) {
        return None;
      }
      out := out + [LineTotal(items[i].quantity, items[i].unitPrice).value];
      assert items[..i + 1] == items[..i] + [items[i]];
    }
    assert items[..|items|] == items;
    return Some(out);
  }

  /** Inserts the lines one by one, numbering them from zero. */
  method InsertLines(items: seq<Item>, ids: seq<Id>, totals: seq<Int64>) returns (lines: seq<Line>)
    requires |ids| == |items| && Priced(items, totals)
    ensures lines == LinesOf(items, ids)
  {
    lines := [];
    for i := 0 to |items|
      invariant lines == LinesOf(items, ids)[..i]
    {
      lines := lines + [Line(ids[i], i, items[i].quantity, items[i].unitPrice, totals[i])];
    }
  }

  lemma TotalsArePrices(items: seq<Item>, ids: seq<Id>, totals: seq<Int64>)
    requires |ids| == |items| && Priced(items, totals)
    ensures Totals(LinesOf(items, ids)) == totals && NonNegative(totals)
  {
  }

  lemma LimitsMean(tax: Int64, items: seq<Item>)
    ensures WithinLimits(tax, items) <==>
              0 <= tax <= MAX_TAX && |items| <= MAX_ITEMS && forall i :: 0 <= i < |items| ==> ValidItem(items[i])
  {
    forall i | 0 <= i < |items| ensures ValidItem(items[i]) <==> Admissible(items[i]) {
      ValidItemMeans(items[i]);
    }
    hide ValidItem, Admissible;
  }

  /** Everything Create checks before its transaction opens. */
  method PriceInvoice(tax: Int64, items: seq<Item>, ids: seq<Id>)
    returns (bad: Option<CreateResult>, lineTotals: seq<Int64>, amounts: (Int64, Int64))
    requires |ids| == |items|
    ensures bad.None? <==> Creatable(Step.Create(0, tax, items, ids, false))
    ensures bad.None? ==> Priced(items, lineTotals) && Amounts(Subtotal(LinesOf(items, ids)), tax) == Some(amounts)
    ensures bad.Some? ==> bad.value.BadInput? || bad.value == BadMoney(TooLarge)
    ensures bad.Some? && bad.value.BadInput? <==> !WithinLimits(tax, items)
    ensures bad.Some? && bad.value.BadMoney? <==> WithinLimits(tax, items) && !WorthFits(tax, items)
  {
    lineTotals, amounts := [], (0, 0);
    LimitsMean(tax, items);
    CreatableMeans(0, Step.Create(0, tax, items, ids, false));
    if !(0 <= tax <= MAX_TAX) || |items| > MAX_ITEMS {
      return Some(BadInput), lineTotals, amounts;
    }
    var priced := PriceItems(items);
    if priced.None? {
      return Some(BadInput), lineTotals, amounts;
    }
    lineTotals := priced.value;
    TotalsArePrices(items, ids, lineTotals);
    hide ValidItem, LinesOf, Totals, Sum, WithinLimits, WorthFits;
    var subtotal := SumTotals(lineTotals);
    if subtotal.Refused? {
      return Some(BadMoney(subtotal.reason)), lineTotals, amounts;
    }
    var total := InvoiceTotal(subtotal.value, tax);
    if total.Refused? {
      return Some(BadMoney(total.reason)), lineTotals, amounts;
    }
    bad, amounts := None, (subtotal.value, total.value);
  }

  /** What a legal transition is answered and leaves, read off the row that its UPDATE finds in `s`: it moves
      iff the row is as it was read and at the expected version, and the notification fits; a conflict names
      the version a later read finds. */
  ghost predicate MoveOutcome(s: State, req: Request, id: Id, t: Transition, read: Status, expected: int,
                              late: seq<Step>, r: MoveResult, end: State) {
    && id in s.invoices
    && if !Unmoved(s, id, read, expected) then
         && end == Run(s.(readings := s.readings - {req}), late)
         && id in end.invoices && r == VersionConflict(end.invoices[id].version)
       else if s.size(MovedRow(s.invoices[id], t)) > 65536 then
         r.PayloadTooLarge? && end == s.(readings := s.readings - {req})
       else
         && r == MoveResult.Moved(MovedRow(s.invoices[id], t))
         && end == s.(readings := s.readings - {req}, invoices := s.invoices[id := r.invoice], outbox := end.outbox)
         && Notified(s, end.outbox, Announcement(t), id)
  }

  /** What an edit is answered and leaves, from the row its line change finds in `s` and the one its UPDATE
      finds after `late`. A refused edit leaves the rows as they are. */
  ghost predicate EditOutcome(s: State, req: Request, late: seq<Step>, r: EditResult, end: State)
    requires req in s.edits && s.edits[req].Opened?
  {
    var e := s.edits[req];
    var refused := s.(edits := s.edits - {req});
    && e.invoice in s.invoices
    && var row := s.invoices[e.invoice];
       if Waits(s, req) then r.Cancelled? && end == refused
       else if !row.status.Draft? then r.NotDraft? && end == refused
       else if !Suits(row.lines, e.change) then
         (if e.change.Add? then r.PositionTaken? else r.NoSuchItem?) && end == refused
       else if !Payable(row, e.change) then r.TooBig? && end == refused
       else CommitOutcome(Run(s.(edits := s.edits[req := Summed(row, e)]), late), req, r, end)
  }

  /** The UPDATE of a placed edit: it commits iff the invoice is still a draft. */
  ghost predicate CommitOutcome(t: State, req: Request, r: EditResult, end: State) {
    && req in t.edits && t.edits[req].invoice in t.invoices
    && var e, row := t.edits[req], t.invoices[t.edits[req].invoice];
       if !row.status.Draft? then r.NotDraft? && end == t.(edits := t.edits - {req})
       else
         && r.Edited? && EditedTo(row, e, r.invoice)
         && end == t.(edits := t.edits - {req}, invoices := t.invoices[e.invoice := r.invoice])
  }

  class Store {
    var invoices: map<Id, Invoice>
    var next: nat
    var endpoints: map<Id, Endpoint>
    var outbox: multiset<Notice>
    var readings: map<Request, Reading>
    var edits: map<Request, Edit>
    const size: Invoice -> nat

    function View(): State
      reads this
    {
      State(invoices, next, endpoints, outbox, readings, edits, size)
    }

    constructor (size: Invoice -> nat)
      ensures View() == Init(size)
    {
      invoices, next, endpoints, outbox, readings, edits := map[], 1, map[], multiset{}, map[], map[];
      this.size := size;
    }

    method Others(steps: seq<Step>)
      modifies this
      ensures View() == Run(old(View()), steps)
    {
      RunKeepsSize(View(), steps);
      var s := Run(View(), steps);
      invoices, next, endpoints, outbox := s.invoices, s.next, s.endpoints, s.outbox;
      readings, edits := s.readings, s.edits;
    }

    /** One transaction: number, invoice, lines, event, notifications. `fails` says that some later
        statement of it does; then, or when the event's payload is too large, nothing remains, the
        number included. */
    method Create(id: Id, tax: Int64, items: seq<Item>, ids: seq<Id>, fails: bool) returns (r: CreateResult)
      requires id !in invoices && |ids| == |items|
      modifies this
      ensures View() == Apply(old(View()), Step.Create(id, tax, items, ids, fails))
      ensures r.BadInput? <==> !WithinLimits(tax, items)
      ensures r.BadMoney? <==> WithinLimits(tax, items) && !WorthFits(tax, items)
      ensures r.BadMoney? ==> r.reason.TooLarge?
      ensures !fails && WithinLimits(tax, items) && WorthFits(tax, items) ==>
                exists inv: Invoice ::
                  NewRow(inv, old(next), tax, items, ids) && (r == Made(inv) <==> size(inv) <= 65536)
                  && (r.RolledBack? <==> size(inv) > 65536)
      ensures r.Made? ==>
                && !fails && NewRow(r.invoice, old(next), tax, items, ids)
                && View() == old(View()).(invoices := old(invoices)[id := r.invoice], next := old(next) + 1,
                                          outbox := outbox)
                && Notified(old(View()), outbox, Outbox.InvoiceCreated, id)
      ensures r.Made? <==> Creates(old(View()), Step.Create(id, tax, items, ids, fails))
      ensures !r.Made? ==> View() == old(View())
    {
      hide Apply, Creates, LinesOf, Notices, ValidItem, WithinLimits, WorthFits, NewRow, Notified, Creatable, Amounts,
           Subtotal, Totals, Sum, Priced, LineOf, Fits;
      ghost var step := Step.Create(id, tax, items, ids, fails);
      CreateMeans(View(), step);
      CreatableMeans(next, step);
      NoticesAreDue(View(), Outbox.InvoiceCreated, id);
      var bad, lineTotals, amounts := PriceInvoice(tax, items, ids);
      if bad.Some? {
        return bad.value;
      }
      if fails {
        return RolledBack;
      }
      var number := next;
      next := next + 1;
      var lines := InsertLines(items, ids, lineTotals);
      var inv := Invoice(number, Draft, lines, amounts.0, tax, amounts.1, 1, [Entry(Created, None, Some(Draft))], []);
      assert inv == NewInvoice(number, step);
      if size(inv) > Outbox.MAX_PAYLOAD_BYTES {
        next := number;
        return RolledBack;
      }
      invoices := invoices[id := inv];
      outbox := outbox + Notices(endpoints, Outbox.InvoiceCreated, id);
      r := Made(inv);
    }

    /** AddItem, against any interleaving: `env(0)` is what others commit between its reads and its
        insert, `env(1)` between its sum and its UPDATE. */
    method AddItem(req: Request, id: Id, item: Id, it: Item, env: nat -> seq<Step>)
      returns (r: EditResult, ghost trace: seq<Step>)
      requires req !in edits && req !in readings && forall k :: Avoids(req, env(k))
      modifies this
      ensures View() == Run(old(View()), trace) && req !in edits
      ensures r.BadItem? <==> !Admissible(it)
      ensures r.NotFound? <==> Admissible(it) && id !in old(invoices)
      ensures Admissible(it) && id in old(invoices) && !old(invoices)[id].status.Draft? ==> r.NotDraft?
      ensures !Admissible(it) || id !in old(invoices) || !old(invoices)[id].status.Draft? ==> View() == old(View())
      ensures Admissible(it) && id in old(invoices) && old(invoices)[id].status.Draft? ==>
                var e := Opened(id, Add(Appended(old(invoices)[id].lines, item, it)), old(invoices)[id].version);
                var s := Run(old(View()).(edits := old(edits)[req := e]), env(0));
                req in s.edits && s.edits[req] == e && EditOutcome(s, req, env(1), r, View())
    {
      trace := [];
      ValidItemMeans(it);
      if !ValidItem(it) {
        return BadItem, trace;
      }
      if id !in invoices {
        return NotFound, trace;
      }
      if invoices[id].status != Draft {
        return NotDraft, trace;
      }
      ghost var s := View();
      var line := Line(item, NextPosition(invoices[id].lines), it.quantity, it.unitPrice,
                       LineTotal(it.quantity, it.unitPrice).value);
      edits := edits[req := Opened(id, Add(line), invoices[id].version)];
      ghost var rest;
      assert View() == Apply(s, Step.OpenAdd(req, id, item, it));
      assert Add(line) == Add(Appended(invoices[id].lines, item, it));
      hide Apply, Placeable, Blocked, CommitHits, Subtotal, NextPosition, ValidItem, EditOutcome, Appended, Admissible;
      r, rest := Finish(req, env(0), env(1));
      trace := Prepend(s, Step.OpenAdd(req, id, item, it), rest);
    }

    /** RemoveItem, likewise. */
    method RemoveItem(req: Request, id: Id, item: Id, env: nat -> seq<Step>)
      returns (r: EditResult, ghost trace: seq<Step>)
      requires req !in edits && req !in readings && forall k :: Avoids(req, env(k))
      modifies this
      ensures View() == Run(old(View()), trace) && req !in edits
      ensures r.NotFound? <==> id !in old(invoices)
      ensures id in old(invoices) && !old(invoices)[id].status.Draft? ==> r.NotDraft?
      ensures id !in old(invoices) || !old(invoices)[id].status.Draft? ==> View() == old(View())
      ensures id in old(invoices) && old(invoices)[id].status.Draft? ==>
                var e := Opened(id, Drop(item), old(invoices)[id].version);
                var s := Run(old(View()).(edits := old(edits)[req := e]), env(0));
                req in s.edits && s.edits[req] == e && EditOutcome(s, req, env(1), r, View())
      ensures r.Edited? ==>
                && id in invoices && invoices[id] == r.invoice && r.invoice.log != []
                && r.invoice.log[|r.invoice.log| - 1].kind.ItemRemoved?
                && !HasLine(r.invoice.lines, item)
    {
      trace := [];
      if id !in invoices {
        return NotFound, trace;
      }
      if invoices[id].status != Draft {
        return NotDraft, trace;
      }
      ghost var s := View();
      edits := edits[req := Opened(id, Drop(item), invoices[id].version)];
      ghost var rest;
      ghost var begun := View();
      assert begun == Apply(s, Step.OpenRemove(req, id, item));
      hide Apply, Placeable, Blocked, CommitHits, Subtotal, EditOutcome;
      ghost var last := Run(Apply(Run(begun, env(0)), Step.Place(req)), env(1));
      r, rest := Finish(req, env(0), env(1));
      if r.Edited? {
        WithoutKeepsLines(last.invoices[id].lines, item, item, 0);
      }
      trace := Prepend(s, Step.OpenRemove(req, id, item), rest);
    }

    /** The line change and the sum, after `before` was committed by others; None when it is placed. A
        statement that another transaction's uncommitted change keeps waiting is cancelled with its
        transaction. */
    method PlaceLine(req: Request, before: seq<Step>) returns (r: Option<EditResult>)
      requires req in edits && edits[req].Opened? && edits[req].invoice in invoices && req !in readings
      requires Avoids(req, before)
      modifies this
      ensures View() == Run(old(View()), before + [PlaceStep(req, r)]) && req !in readings
      ensures var e := old(edits)[req];
              var s := Run(old(View()), before);
              && e.invoice in s.invoices && e.invoice in invoices
              && (r == Some(Cancelled) <==> Blocked(s, req))
              && (r.None? <==> !Blocked(s, req) && Placeable(s.invoices[e.invoice], e.change))
              && (r == Some(NotDraft) <==> !Blocked(s, req) && !s.invoices[e.invoice].status.Draft?)
              && (r == Some(NoSuchItem) <==>
                    !Blocked(s, req) && s.invoices[e.invoice].status.Draft? && e.change.Drop?
                    && !Applicable(s.invoices[e.invoice].lines, e.change))
              && (r == Some(PositionTaken) <==>
                    !Blocked(s, req) && s.invoices[e.invoice].status.Draft? && e.change.Add?
                    && !Applicable(s.invoices[e.invoice].lines, e.change))
              && (r.None? <==> req in edits)
              && View() == if r.None? then s.(edits := s.edits[req := PlacedOn(s.invoices[e.invoice], e)])
                           else s.(edits := s.edits - {req})
      ensures r.Some? ==> r.value.Cancelled? || r.value.NotDraft? || r.value.TooBig? || r.value.NoSuchItem?
                          || r.value.PositionTaken?
    {
      hide Conflict, Applicable, Amounts, Changed, Subtotal, HasLine, HasPosition;
      var e := edits[req];
      OthersLeaveRequestAlone(View(), before, req, e.invoice);
      RunSnoc(View(), before, Step.Abandon(req));
      RunSnoc(View(), before, Step.Place(req));
      Others(before);
      if Blocked(View(), req) {
        edits := edits - {req};
        assert readings - {req} == readings;
        return Some(Cancelled);
      }
      var inv := invoices[e.invoice];
      if !Placeable(inv, e.change) {
        edits := edits - {req};
        r := Refusal(inv, e.change);
        return;
      }
      var amounts := Amounts(Subtotal(Changed(inv.lines, e.change)), inv.tax).value;
      edits := edits[req := Placed(e.invoice, e.change, e.at, inv.version, amounts.0, amounts.1)];
      r := None;
    }

    /** Why a line change was refused, in the order of the statements. */
    static method Refusal(inv: Invoice, c: Change) returns (r: Option<EditResult>)
      requires !Placeable(inv, c)
      ensures r == Some(NotDraft) <==> !inv.status.Draft?
      ensures r == Some(NoSuchItem) <==> inv.status.Draft? && c.Drop? && !Applicable(inv.lines, c)
      ensures r == Some(PositionTaken) <==> inv.status.Draft? && c.Add? && !Applicable(inv.lines, c)
      ensures r.Some? && (r.value.NotDraft? || r.value.TooBig? || r.value.NoSuchItem? || r.value.PositionTaken?)
    {
      if !inv.status.Draft? {
        return Some(NotDraft);
      }
      r := Some(if Applicable(inv.lines, c) then TooBig else if c.Drop? then NoSuchItem else PositionTaken);
    }

    /** The rest of an edit: the line change, recomputeTotals, and the commit. */
    method Finish(req: Request, before: seq<Step>, between: seq<Step>) returns (r: EditResult, ghost trace: seq<Step>)
      requires req in edits && edits[req].Opened? && edits[req].invoice in invoices && req !in readings
      requires Avoids(req, before) && Avoids(req, between)
      modifies this
      ensures View() == Run(old(View()), trace) && req !in edits
      ensures var e := old(edits)[req];
              var s := Run(old(View()), before);
              var end := Run(Apply(s, Step.Place(req)), between);
              && e.invoice in s.invoices
              && (r.Cancelled? <==> Blocked(s, req))
              && (r.Edited? <==>
                    !Blocked(s, req) && Placeable(s.invoices[e.invoice], e.change) && CommitHits(end, req))
              && (r.Edited? ==>
                    && e.invoice in end.invoices && e.invoice in invoices && r.invoice == invoices[e.invoice]
                    && r.invoice == Committed(end.invoices[e.invoice], PlacedOn(s.invoices[e.invoice], e)))
      ensures !r.NotFound? && !r.BadItem?
      ensures var s := Run(old(View()), before);
              req in s.edits && s.edits[req] == old(edits)[req] && EditOutcome(s, req, between, r, View())
    {
      hide Apply, Conflict, Placeable, Amounts, Committed, Blocked, Waits, Suits, Payable, Summed, CommitOutcome,
           Applicable;
      ghost var start := View();
      OthersLeaveRequestAlone(start, before, req, edits[req].invoice);
      RunSnoc(start, before, Step.Place(req));
      ghost var s, e := Run(start, before), edits[req];
      BlockedMeans(s, req);
      PlaceableMeans(s.invoices[e.invoice], e);
      var placed := PlaceLine(req, before);
      ghost var place := PlaceStep(req, placed);
      if placed.Some? {
        return placed.value, before + [place];
      }
      r := Update(req, between);
      trace := (before + [place]) + (between + [Step.CommitEdit(req)]);
      RunAppend(start, before + [place], between + [Step.CommitEdit(req)]);
    }

    /** The guarded UPDATE of an edit, its log entry and the commit. */
    method Update(req: Request, between: seq<Step>) returns (r: EditResult)
      requires req in edits && edits[req].Placed? && edits[req].invoice in invoices && Avoids(req, between)
      modifies this
      ensures View() == Run(old(View()), between + [Step.CommitEdit(req)]) && req !in edits
      ensures r.Edited? <==> CommitHits(Run(old(View()), between), req)
      ensures r.Edited? || r.NotDraft?
      ensures CommitOutcome(Run(old(View()), between), req, r, View())
      ensures var e := old(edits)[req];
              var s := Run(old(View()), between);
              && e.invoice in s.invoices && e.invoice in invoices
              && (r.Edited? ==> r.invoice == invoices[e.invoice] && r.invoice == Committed(s.invoices[e.invoice], e))
    {
      hide Subtotal, Changed, EditedTo;
      var e := edits[req];
      OthersLeaveRequestAlone(View(), between, req, e.invoice);
      RunSnoc(View(), between, Step.CommitEdit(req));
      Others(between);
      edits := edits - {req};
      var inv := invoices[e.invoice];
      if inv.status != Draft {
        return NotDraft;
      }
      CommittedMeans(inv, e);
      var lines := Changed(inv.lines, e.change);
      var after := inv.(lines := lines, subtotal := e.subtotal, total := e.total, version := inv.version + 1,
                        past := inv.past + [Past(Subtotal(lines) - Subtotal(inv.lines), e.seen)],
                        log := inv.log + [Entry(KindOf(e.change), None, None)]);
      invoices := invoices[e.invoice := after];
      r := Edited(after);
    }

    /** The guarded UPDATE of a transition, with its log entry and notifications, after `between` was
        committed by others; when it misses, the version is read again after `late`. */
    method WriteStatus(req: Request, expected: int, between: seq<Step>, late: seq<Step>)
      returns (r: MoveResult, ghost trace: seq<Step>)
      requires req in readings && readings[req].invoice in invoices && Avoids(req, between) && Avoids(req, late)
      modifies this
      ensures View() == Run(old(View()), trace)
      ensures req !in readings
      ensures var done := Apply(Run(old(View()), between), Step.Write(req, expected));
              View() == if r.VersionConflict? then Run(done, late) else done
      ensures var was := old(readings)[req];
              var s := Run(old(View()), between);
              && was.invoice in s.invoices
              && (r.Moved? <==> WriteHits(s, Step.Write(req, expected)))
              && (r.PayloadTooLarge? <==>
                    Matches(s, Step.Write(req, expected)) && !WriteHits(s, Step.Write(req, expected)))
              && (r.Moved? || r.PayloadTooLarge? || r.VersionConflict?)
              && (r.VersionConflict? ==> was.invoice in invoices && r.current == invoices[was.invoice].version)
              && (r.Moved? ==> was.invoice in invoices && invoices[was.invoice] == r.invoice
                                   && r.invoice.status == TransitionTo(was.t) && r.invoice.version == expected + 1
                               && size(r.invoice) <= Outbox.MAX_PAYLOAD_BYTES)
    {
      hide Apply, WriteHits, Matches, Fits, Moving;
      ghost var start := View();
      ghost var step := Step.Write(req, expected);
      RunSnoc(View(), between, step);
      OthersLeaveRequestAlone(View(), between, req, readings[req].invoice);
      Others(between);
      trace := between + [step];
      var invoice := readings[req].invoice;
      var outcome := GuardedMove(req, expected);
      if outcome.None? {
        OthersLeaveRequestAlone(View(), late, req, invoice);
        RunAppend(start, trace, late);
        Others(late);
        trace := trace + late;
        return VersionConflict(invoices[invoice].version), trace;
      }
      r := outcome.value;
    }

    /** The UPDATE itself; None when it matches no row. */
    method GuardedMove(req: Request, expected: int) returns (r: Option<MoveResult>)
      requires req in readings && readings[req].invoice in invoices
      modifies this
      ensures View() == Apply(old(View()), Step.Write(req, expected)) && req !in readings
      ensures forall id :: id in invoices <==> id in old(invoices)
      ensures var was := old(readings)[req];
              var s, step := old(View()), Step.Write(req, expected);
              && (r.None? <==> !Matches(s, step)) && (r.None? ==> !WriteHits(s, step))
              && (r.Some? ==> (r.value.Moved? <==> WriteHits(s, step))
                              && (r.value.PayloadTooLarge? <==> !WriteHits(s, step)))
              && (r.Some? && r.value.Moved? ==>
                    && invoices[was.invoice] == r.value.invoice
                    && r.value.invoice.status == TransitionTo(was.t) && r.value.invoice.version == expected + 1
                    && size(r.value.invoice) <= Outbox.MAX_PAYLOAD_BYTES)
    {
      hide Notices, CanTransition, Committed, Begun, Blocked, Placeable, PlacedOn, NewInvoice, Creates;
      var was := readings[req];
      readings := readings - {req};
      var row := invoices[was.invoice];
      if row.version != expected || row.status != was.status {
        return None;
      }
      var updated := row.(status := TransitionTo(was.t), version := row.version + 1,
                          log := row.log + [Entry(Kind.Moved(was.t), Some(was.status), Some(TransitionTo(was.t)))]);
      if size(updated) > Outbox.MAX_PAYLOAD_BYTES {
        return Some(PayloadTooLarge);
      }
      invoices := invoices[was.invoice := updated];
      outbox := outbox + Notices(endpoints, EventFor(was.t), was.invoice);
      r := Some(MoveResult.Moved(updated));
    }

    /** Transition: read for the message, then the guarded UPDATE. Only the UPDATE decides. */
    method Transition(req: Request, id: Id, t: Transition, expected: int, between: seq<Step>, late: seq<Step>)
      returns (r: MoveResult, ghost trace: seq<Step>)
      requires req !in readings && Avoids(req, between) && Avoids(req, late)
      modifies this
      ensures View() == Run(old(View()), trace)
      ensures r.BadVersion? <==> expected <= 0
      ensures r.Missing? <==> expected > 0 && id !in old(invoices)
      ensures r.Illegal? <==> expected > 0 && id in old(invoices) && !Legal(old(invoices)[id].status, t)
      ensures r.BadVersion? || r.Missing? || r.Illegal? ==> View() == old(View())
      ensures expected > 0 && id in old(invoices) && Legal(old(invoices)[id].status, t) ==>
                var read := old(invoices)[id].status;
                var s := Run(old(View()).(readings := old(readings)[req := Reading(id, read, t)]), between);
                MoveOutcome(s, req, id, t, read, expected, late, r, View())
    {
      trace := [];
      if expected <= 0 {
        return BadVersion, trace;
      }
      if id !in invoices {
        return Missing, trace;
      }
      var before := invoices[id];
      LegalIff(before.status, t);
      if !CanTransition(before.status, TransitionTo(t)) {
        return Illegal, trace;
      }
      ghost var s := View();
      readings := readings[req := Reading(id, before.status, t)];
      assert View() == Apply(s, Step.Read(req, id, t));
      hide Apply, WriteHits, Matches, Fits, Moving, MovedRow, Notified, Announcement, Unmoved;
      ghost var rest;
      ghost var found := Run(View(), between);
      OthersLeaveRequestAlone(View(), between, req, id);
      r, rest := WriteStatus(req, expected, between, late);
      MatchesMeans(found, req, expected);
      WriteMeans(found, req, expected);
      trace := Prepend(s, Step.Read(req, id, t), rest);
    }
  }

  lemma Prepend(s: State, step: Step, rest: seq<Step>) returns (trace: seq<Step>)
    ensures Run(s, trace) == Run(Apply(s, step), rest)
  {
    trace := [step] + rest;
    assert trace[1..] == rest;
  }

  lemma {:induction false} RunKeepsSize(s: State, steps: seq<Step>)
    ensures Run(s, steps).size == s.size
    decreases |steps|
  {
    if steps != [] {
      hide Apply;
      StepKeepsSize(s, steps[0]);
      RunKeepsSize(Apply(s, steps[0]), steps[1..]);
    }
  }
}
