/** Invoices of one tenant as a state machine (internal/invoice/store.go, internal/invoice/invoice.go).

    Every transaction runs under READ COMMITTED, so its statements interleave with other commits. An
    edit opens with its reads, then makes its line change and sums the lines it sees, then runs the
    guarded UPDATE; a transition reads, then runs its guarded UPDATE. Nothing of a transaction is
    visible before its last step, which commits; from its UPDATE on it holds the row lock, so UPDATE,
    log entry, notifications and commit are one step. */
module Invoices {
  import opened Prelude
  import opened Money
  import Outbox

  type Id = nat
  type Request = nat

  datatype Status = Draft | Open | Paid | Void

  datatype Transition = Issue | Pay | VoidIt

  function TransitionTo(t: Transition): Status {
    match t case Issue => Open case Pay => Paid case VoidIt => Void
  }

  function EventFor(t: Transition): Outbox.Event {
    match t
    case Issue => Outbox.InvoiceIssued
    case Pay => Outbox.InvoicePaid
    case VoidIt => Outbox.InvoiceVoided
  }

  predicate CanTransition(from: Status, to: Status) {
    match from
    case Draft => to == Open || to == Void
    case Open => to == Paid || to == Void
    case _ => false
  }

  datatype Line = Line(id: Id, position: int, quantity: Int64, unitPrice: Int64, total: Int64)

  datatype Kind = Created | ItemAdded | ItemRemoved | Moved(t: Transition)

  /** An entry of the invoice's own log. Item changes record no status. */
  datatype Entry = Entry(kind: Kind, from: Option<Status>, to: Option<Status>)

  /** A committed edit: what it added to the sum of the lines, and the version of the invoice when it
      summed them. */
  datatype Past = Past(net: int, seen: int)

  /** The row with its lines (in order of commit) and its log. `past` is the history of its edits, no
      column: it serves the statements about runs. */
  datatype Invoice = Invoice(number: nat, status: Status, lines: seq<Line>, subtotal: Int64, tax: Int64,
                             total: Int64, version: int, log: seq<Entry>, past: seq<Past>)

  datatype Item = Item(quantity: Int64, unitPrice: Int64)

  const MAX_QUANTITY: Int64 := 1_000_000
  const MAX_UNIT_PRICE: Int64 := 1_000_000_000_000
  const MAX_TAX: Int64 := 1_000_000_000_000_000
  const MAX_ITEMS := 500

  predicate ValidItem(it: Item) {
    && 0 < it.quantity <= MAX_QUANTITY && 0 <= it.unitPrice <= MAX_UNIT_PRICE
    && LineTotal(it.quantity, it.unitPrice).Ok?
  }

  /** A row of the outbox, as far as this module is concerned. */
  datatype Notice = Notice(endpoint: Id, event: Outbox.Event, invoice: Id)

  datatype Endpoint = Endpoint(active: bool, events: set<Outbox.Event>)

  /** What a transition read before its UPDATE. */
  datatype Reading = Reading(invoice: Id, status: Status, t: Transition)

  datatype Change = Add(line: Line) | Drop(item: Id)

  /** An edit under way: the version it opened at; once placed, also the version at which it summed the
      lines and the amounts it is going to write. */
  datatype Edit =
    | Opened(invoice: Id, change: Change, at: int)
    | Placed(invoice: Id, change: Change, at: int, seen: int, subtotal: Int64, total: Int64)

  datatype State = State(invoices: map<Id, Invoice>, next: nat, endpoints: map<Id, Endpoint>,
                         outbox: multiset<Notice>, readings: map<Request, Reading>, edits: map<Request, Edit>,
                         size: Invoice -> nat)

  /** `size` is the size in bytes of the event payload of an invoice; JSON is not modelled further. */
  function Init(size: Invoice -> nat): State { State(map[], 1, map[], multiset{}, map[], map[], size) }

  /** The notification of an invoice can be queued. */
  predicate Fits(s: State, inv: Invoice) { s.size(inv) <= Outbox.MAX_PAYLOAD_BYTES }

  function Listening(endpoints: map<Id, Endpoint>, event: Outbox.Event): set<Id> {
    set e | e in endpoints && endpoints[e].active && event in endpoints[e].events
  }

  /** The fan-out of one event: one row for each endpoint listening at that moment. */
  function Notices(endpoints: map<Id, Endpoint>, event: Outbox.Event, invoice: Id): multiset<Notice> {
    multiset(set e | e in Listening(endpoints, event) :: Notice(e, event, invoice))
  }

  // --------------------------------------------------------------------- lines

  function Totals(lines: seq<Line>): seq<Int64> { seq(|lines|, i requires 0 <= i < |lines| => lines[i].total) }

  function Subtotal(lines: seq<Line>): int { Sum(Totals(lines)) }

  function LineOf(id: Id, position: int, it: Item): Line
    requires ValidItem(it)
  {
    Line(id, position, it.quantity, it.unitPrice, LineTotal(it.quantity, it.unitPrice).value)
  }

  function LinesOf(items: seq<Item>, ids: seq<Id>): seq<Line>
    requires |ids| == |items| && forall i :: 0 <= i < |items| ==> ValidItem(items[i])
  {
    seq(|items|, i requires 0 <= i < |items| => LineOf(ids[i], i, items[i]))
  }

  /** One more than the greatest position. */
  function NextPosition(lines: seq<Line>): int {
    if lines == [] then 0
    else
      var rest, p := NextPosition(lines[..|lines| - 1]), lines[|lines| - 1].position + 1;
      if |lines| == 1 || p > rest then p else rest
  }

  function Without(lines: seq<Line>, item: Id): seq<Line> {
    if lines == [] then []
    else
      var rest := Without(lines[..|lines| - 1], item);
      if lines[|lines| - 1].id == item then rest else rest + [lines[|lines| - 1]]
  }

  predicate HasLine(lines: seq<Line>, item: Id) {
    exists i :: 0 <= i < |lines| && lines[i].id == item
  }

  predicate HasPosition(lines: seq<Line>, position: int) {
    exists i :: 0 <= i < |lines| && lines[i].position == position
  }

  function Changed(lines: seq<Line>, c: Change): seq<Line> {
    match c
    case Add(line) => lines + [line]
    case Drop(item) => Without(lines, item)
  }

  function KindOf(c: Change): Kind { if c.Add? then ItemAdded else ItemRemoved }

  function ItemOf(c: Change): Id { if c.Add? then c.line.id else c.item }

  /** Two uncommitted changes of one invoice that would hold one row lock or one unique position. */
  predicate Conflict(a: Change, b: Change) {
    ItemOf(a) == ItemOf(b) || (a.Add? && b.Add? && a.line.position == b.line.position)
  }

  /** The statement finds its row (a removal), or its id and position free (an addition). */
  predicate Applicable(lines: seq<Line>, c: Change) {
    match c
    case Add(line) => !HasLine(lines, line.id) && !HasPosition(lines, line.position)
    case Drop(item) => HasLine(lines, item)
  }

  /** Subtotal and total as recomputeTotals derives them from a sum, None when they do not fit. */
  function Amounts(sum: int, tax: Int64): Option<(Int64, Int64)> {
    if 0 <= sum <= MAX_INT64 as int && InvoiceTotal(sum as Int64, tax).Ok?
    then Some((sum as Int64, InvoiceTotal(sum as Int64, tax).value)) else None
  }

  // --------------------------------------------------------------------- steps

  datatype Step =
    | Create(id: Id, tax: Int64, items: seq<Item>, ids: seq<Id>, fails: bool)
    | OpenAdd(req: Request, id: Id, item: Id, it: Item)
    | OpenRemove(req: Request, id: Id, item: Id)
    | Place(req: Request)
    | CommitEdit(req: Request)
    | Abandon(req: Request)
    | Read(req: Request, id: Id, t: Transition)
    | Write(req: Request, expected: int)
    | Register(endpoint: Id, e: Endpoint)

  /** Validation before the transaction opens. */
  predicate Creatable(step: Step)
    requires step.Create?
  {
    && 0 <= step.tax <= MAX_TAX && |step.items| <= MAX_ITEMS && |step.ids| == |step.items|
    && (forall i :: 0 <= i < |step.items| ==> ValidItem(step.items[i]))
    && Amounts(Subtotal(LinesOf(step.items, step.ids)), step.tax).Some?
  }

  /** The row a creation commits. */
  function NewInvoice(number: nat, step: Step): Invoice
    requires step.Create? && Creatable(step)
  {
    var lines := LinesOf(step.items, step.ids);
    var amounts := Amounts(Subtotal(lines), step.tax).value;
    Invoice(number, Draft, lines, amounts.0, step.tax, amounts.1, 1, [Entry(Created, None, Some(Draft))], [])
  }

  /** An edit opens on a draft. */
  function Begun(s: State, req: Request, id: Id, c: Change): State {
    if req !in s.edits && id in s.invoices && s.invoices[id].status.Draft?
    then s.(edits := s.edits[req := Opened(id, c, s.invoices[id].version)]) else s
  }

  /** Another transaction's uncommitted change makes this statement wait. */
  predicate Blocked(s: State, req: Request) {
    req in s.edits &&
    exists q :: q in s.edits && q != req && s.edits[q].Placed? && s.edits[q].invoice == s.edits[req].invoice
                && Conflict(s.edits[q].change, s.edits[req].change)
  }

  /** The line change and the sum succeed: the trigger sees a draft, the keys are free, the new amounts
      fit. */
  predicate Placeable(inv: Invoice, c: Change) {
    inv.status.Draft? && Applicable(inv.lines, c) && Amounts(Subtotal(Changed(inv.lines, c)), inv.tax).Some?
  }

  function PlacedOn(inv: Invoice, e: Edit): Edit
    requires Placeable(inv, e.change)
  {
    var amounts := Amounts(Subtotal(Changed(inv.lines, e.change)), inv.tax).value;
    Placed(e.invoice, e.change, e.at, inv.version, amounts.0, amounts.1)
  }

  /** The guarded UPDATE of an edit matches: the invoice is still a draft. */
  predicate CommitHits(s: State, req: Request) {
    && req in s.edits && s.edits[req].Placed? && s.edits[req].invoice in s.invoices
    && s.invoices[s.edits[req].invoice].status.Draft?
  }

  function Logged(inv: Invoice, e: Entry): Invoice { inv.(log := inv.log + [e]) }

  function Committed(inv: Invoice, e: Edit): Invoice
    requires e.Placed?
  {
    var lines := Changed(inv.lines, e.change);
    Logged(inv.(lines := lines, subtotal := e.subtotal, total := e.total, version := inv.version + 1,
                past := inv.past + [Past(Subtotal(lines) - Subtotal(inv.lines), e.seen)]),
           Entry(KindOf(e.change), None, None))
  }

  function Moving(inv: Invoice, t: Transition): Invoice {
    Logged(inv.(status := TransitionTo(t), version := inv.version + 1),
           Entry(Moved(t), Some(inv.status), Some(TransitionTo(t))))
  }

  /** The guarded UPDATE of a transition matches the row. */
  predicate Matches(s: State, step: Step) {
    && step.Write? && step.req in s.readings && s.readings[step.req].invoice in s.invoices
    && var inv := s.invoices[s.readings[step.req].invoice];
       inv.version == step.expected && inv.status == s.readings[step.req].status
  }

  /** It matches, and its notification can be queued; else the transaction rolls back. */
  predicate WriteHits(s: State, step: Step) {
    Matches(s, step)
    && var r := s.readings[step.req];
       Fits(s, Moving(s.invoices[r.invoice], r.t))
  }

  /** The creation commits. */
  predicate Creates(s: State, step: Step) {
    step.Create? && !step.fails && step.id !in s.invoices && Creatable(step) && Fits(s, NewInvoice(s.next, step))
  }

  function Apply(s: State, step: Step): State {
    match step
    case Create(id, _, _, _, _) =>
      if !Creates(s, step) then s
      else s.(invoices := s.invoices[id := NewInvoice(s.next, step)], next := s.next + 1,
              outbox := s.outbox + Notices(s.endpoints, Outbox.InvoiceCreated, id))
    case OpenAdd(req, id, item, it) =>
      if id in s.invoices && ValidItem(it)
      then Begun(s, req, id, Add(LineOf(item, NextPosition(s.invoices[id].lines), it))) else s
    case OpenRemove(req, id, item) => Begun(s, req, id, Drop(item))
    case Place(req) =>
      if req !in s.edits || s.edits[req].Placed? || Blocked(s, req) then s
      else
        var e := s.edits[req];
        if e.invoice in s.invoices && Placeable(s.invoices[e.invoice], e.change)
        then s.(edits := s.edits[req := PlacedOn(s.invoices[e.invoice], e)]) else s.(edits := s.edits - {req})
    case CommitEdit(req) =>
      var done := s.(edits := s.edits - {req});
      if CommitHits(s, req) then
        var e := s.edits[req];
        done.(invoices := s.invoices[e.invoice := Committed(s.invoices[e.invoice], e)])
      else done
    case Abandon(req) => s.(edits := s.edits - {req}, readings := s.readings - {req})
    case Read(req, id, t) =>
      if req !in s.readings && id in s.invoices && CanTransition(s.invoices[id].status, TransitionTo(t))
      then s.(readings := s.readings[req := Reading(id, s.invoices[id].status, t)]) else s
    case Write(req, _) =>
      var done := s.(readings := s.readings - {req});
      if WriteHits(s, step) then
        var r := s.readings[req];
        done.(invoices := s.invoices[r.invoice := Moving(s.invoices[r.invoice], r.t)],
              outbox := s.outbox + Notices(s.endpoints, EventFor(r.t), r.invoice))
      else done
    case Register(endpoint, e) => s.(endpoints := s.endpoints[endpoint := e])
  }

  function Run(s: State, steps: seq<Step>): State
    decreases |steps|
  {
    if steps == [] then s else Run(Apply(s, steps[0]), steps[1..])
  }

  lemma {:induction false} RunAppend(s: State, a: seq<Step>, b: seq<Step>)
    ensures Run(s, a + b) == Run(Run(s, a), b)
    decreases |a|
  {
    hide Apply;
    if a == [] {
      assert a + b == b;
    } else {
      assert (a + b)[1..] == a[1..] + b;
      RunAppend(Apply(s, a[0]), a[1..], b);
    }
  }

  lemma RunSnoc(s: State, steps: seq<Step>, last: Step)
    ensures Run(s, steps + [last]) == Apply(Run(s, steps), last)
  {
    hide Apply;
    RunAppend(s, steps, [last]);
    assert [last][1..] == [];
  }

  // ------------------------------------------------------------- the lifecycle

  /** The status the log leads to, or None if some entry does not continue from the one before. */
  function Replay(log: seq<Entry>): Option<Status> {
    if log == [] then None
    else
      var e, prior := log[|log| - 1], Replay(log[..|log| - 1]);
      if |log| == 1 then (if e == Entry(Created, None, Some(Draft)) then Some(Draft) else None)
      else if prior.None? then None
      else if e.to.None? then prior
      else if e.from == prior && e.kind.Moved? && e.to == Some(TransitionTo(e.kind.t))
              && CanTransition(prior.value, e.to.value) then e.to
      else None
  }

  function Rank(st: Status): nat {
    match st case Draft => 0 case Open => 1 case _ => 2
  }

  function TimesEntered(log: seq<Entry>, st: Status): nat {
    if log == [] then 0
    else TimesEntered(log[..|log| - 1], st) + if log[|log| - 1].to == Some(st) then 1 else 0
  }

  /** A log that replays enters each status at most once, and none above the present one. */
  lemma {:induction false} EntersEachStatusOnce(log: seq<Entry>, st: Status)
    requires Replay(log).Some?
    ensures TimesEntered(log, st) <= 1
    ensures Rank(st) > Rank(Replay(log).value) ==> TimesEntered(log, st) == 0
    ensures Rank(st) == Rank(Replay(log).value) && st != Replay(log).value ==> TimesEntered(log, st) == 0
    decreases |log|
  {
    if |log| > 1 {
      EntersEachStatusOnce(log[..|log| - 1], st);
    } else {
      assert log[..0] == [];
    }
  }

  predicate LineExact(line: Line) {
    line.total as int == line.quantity as int * line.unitPrice as int && line.total >= 0
  }

  predicate LinesExact(lines: seq<Line>) {
    forall i :: 0 <= i < |lines| ==> LineExact(lines[i])
  }

  predicate PositionsDistinct(lines: seq<Line>) {
    forall i, j :: 0 <= i < j < |lines| ==> lines[i].position != lines[j].position
  }

  predicate ChangeExact(c: Change) { c.Add? ==> LineExact(c.line) }

  /** What holds of an invoice row after every commit, however transactions interleave. (That the
      subtotal is the sum of the lines is not part of it: see Drift.) */
  predicate Sound(inv: Invoice) {
    && Replay(inv.log) == Some(inv.status)
    && inv.version == |inv.log|
    && LinesExact(inv.lines)
    && inv.subtotal >= 0 && inv.tax >= 0 && inv.total as int == inv.subtotal as int + inv.tax as int
    && |inv.past| < inv.version && (inv.status.Draft? ==> inv.version == |inv.past| + 1)
  }

  /** An edit under way carries an exact line and amounts that add up with the invoice's tax. */
  predicate EditOk(s: State, e: Edit) {
    && e.invoice in s.invoices && ChangeExact(e.change)
    && (e.Placed? ==> e.subtotal >= 0 && e.total as int == e.subtotal as int + s.invoices[e.invoice].tax as int)
  }

  /** The reachable states. */
  predicate Ok(s: State) {
    && (forall id :: id in s.invoices ==> Sound(s.invoices[id]))
    && (forall r :: r in s.readings ==> CanTransition(s.readings[r].status, TransitionTo(s.readings[r].t)))
    && (forall r :: r in s.edits ==> EditOk(s, s.edits[r]))
  }

  lemma {:induction false} WithoutKeepsLines(lines: seq<Line>, item: Id, other: Id, position: int)
    ensures LinesExact(lines) ==> LinesExact(Without(lines, item))
    ensures HasLine(Without(lines, item), other) <==> HasLine(lines, other) && other != item
    ensures HasPosition(Without(lines, item), position) ==> HasPosition(lines, position)
    decreases |lines|
  {
    if lines != [] {
      var n := |lines| - 1;
      WithoutKeepsLines(lines[..n], item, other, position);
      SnocHas(lines[..n], lines[n], other, position);
      SnocHas(Without(lines[..n], item), lines[n], other, position);
      assert lines == lines[..n] + [lines[n]];
    }
  }

  lemma SnocHas(lines: seq<Line>, line: Line, item: Id, position: int)
    ensures HasLine(lines + [line], item) <==> HasLine(lines, item) || line.id == item
    ensures HasPosition(lines + [line], position) <==> HasPosition(lines, position) || line.position == position
  {
    var longer := lines + [line];
    assert longer[|lines|] == line && forall i :: 0 <= i < |lines| ==> longer[i] == lines[i];
  }

  lemma ChangedIsExact(lines: seq<Line>, c: Change)
    requires LinesExact(lines) && ChangeExact(c)
    ensures LinesExact(Changed(lines, c))
  {
    if c.Drop? {
      WithoutKeepsLines(lines, c.item, 0, 0);
    }
  }

  lemma LineOfIsExact(id: Id, position: int, it: Item)
    requires ValidItem(it)
    ensures LineExact(LineOf(id, position, it))
  {
  }

  lemma NewIsSound(number: nat, step: Step)
    requires step.Create? && Creatable(step)
    ensures Sound(NewInvoice(number, step))
  {
    var lines := LinesOf(step.items, step.ids);
    forall i | 0 <= i < |lines| ensures LineExact(lines[i]) {
      LineOfIsExact(step.ids[i], i, step.items[i]);
    }
    hide LinesOf, LineExact, Sum, Totals;
    assert NewInvoice(number, step).log[..0] == [];
  }

  lemma CommittedIsSound(inv: Invoice, e: Edit)
    requires Sound(inv) && inv.status.Draft? && e.Placed? && ChangeExact(e.change)
    requires e.subtotal >= 0 && e.total as int == e.subtotal as int + inv.tax as int
    ensures Sound(Committed(inv, e))
  {
    ChangedIsExact(inv.lines, e.change);
    hide Changed, LinesExact, Subtotal;
    assert Committed(inv, e).log[..|inv.log|] == inv.log;
  }

  lemma MovingIsSound(inv: Invoice, t: Transition)
    requires Sound(inv) && CanTransition(inv.status, TransitionTo(t))
    ensures Sound(Moving(inv, t))
  {
    assert Moving(inv, t).log[..|inv.log|] == inv.log;
  }

  // ------------------------------------------------------------ what a step does

  /** The row a step leaves of an existing one. */
  function RowAfter(s: State, step: Step, id: Id): Invoice
    requires id in s.invoices
  {
    if step.CommitEdit? && CommitHits(s, step.req) && s.edits[step.req].invoice == id
    then Committed(s.invoices[id], s.edits[step.req])
    else if WriteHits(s, step) && s.readings[step.req].invoice == id
    then Moving(s.invoices[id], s.readings[step.req].t)
    else s.invoices[id]
  }

  lemma StepRow(s: State, step: Step, id: Id)
    requires id in s.invoices
    ensures id in Apply(s, step).invoices && Apply(s, step).invoices[id] == RowAfter(s, step, id)
  {
    hide Committed, Moving, Placeable, Blocked, Notices, NewInvoice, Creatable, Fits;
  }

  lemma StepNewRow(s: State, step: Step, id: Id)
    requires id !in s.invoices && id in Apply(s, step).invoices
    ensures Creates(s, step) && step.id == id
    ensures Apply(s, step).invoices[id] == NewInvoice(s.next, step)
  {
    hide Committed, Moving, Placeable, Blocked, Notices, NewInvoice;
  }

  /** Where an edit of the state after a step comes from. */
  predicate EditAfter(s: State, step: Step, r: Request, e: Edit) {
    || (r in s.edits && s.edits[r] == e)
    || (e.Opened? && e.invoice in s.invoices && s.invoices[e.invoice].status.Draft? && ChangeExact(e.change)
        && e.at == s.invoices[e.invoice].version
        && (e.change.Add? ==> e.change.line.position == NextPosition(s.invoices[e.invoice].lines)))
    || (step == Place(r) && r in s.edits && s.edits[r].Opened? && !Blocked(s, r) && s.edits[r].invoice in s.invoices
        && Placeable(s.invoices[s.edits[r].invoice], s.edits[r].change)
        && e == PlacedOn(s.invoices[s.edits[r].invoice], s.edits[r]))
  }

  lemma StepEdit(s: State, step: Step, r: Request)
    requires r in Apply(s, step).edits
    ensures EditAfter(s, step, r, Apply(s, step).edits[r])
  {
    hide Committed, Moving, Placeable, PlacedOn, Blocked, Notices, NewInvoice, Creates, LineOf;
    if step.OpenAdd? && ValidItem(step.it) && step.id in s.invoices {
      var line := LineOf(step.item, NextPosition(s.invoices[step.id].lines), step.it);
      LineOfIsExact(step.item, NextPosition(s.invoices[step.id].lines), step.it);
      LineOfPosition(step.item, NextPosition(s.invoices[step.id].lines), step.it);
    }
  }

  lemma LineOfPosition(id: Id, position: int, it: Item)
    requires ValidItem(it)
    ensures LineOf(id, position, it).position == position && LineOf(id, position, it).id == id
  {
  }

  lemma StepReading(s: State, step: Step, r: Request)
    requires r in Apply(s, step).readings
    ensures var a := Apply(s, step).readings[r];
            (r in s.readings && s.readings[r] == a) || CanTransition(a.status, TransitionTo(a.t))
  {
    hide Committed, Moving, Placeable, PlacedOn, Blocked, Notices, NewInvoice, Creates;
  }

  lemma RowKeepsSound(s: State, step: Step, id: Id)
    requires Ok(s) && id in s.invoices
    ensures Sound(RowAfter(s, step, id)) && RowAfter(s, step, id).tax == s.invoices[id].tax
  {
    hide Sound;
    if step.CommitEdit? && CommitHits(s, step.req) && s.edits[step.req].invoice == id {
      assert EditOk(s, s.edits[step.req]);
      CommittedIsSound(s.invoices[id], s.edits[step.req]);
    } else if WriteHits(s, step) && s.readings[step.req].invoice == id {
      MovingIsSound(s.invoices[id], s.readings[step.req].t);
    }
  }

  lemma PlacedIsOk(s: State, inv: Invoice, e: Edit)
    requires e.Opened? && Placeable(inv, e.change)
    ensures var p := PlacedOn(inv, e);
            p.subtotal >= 0 && p.total as int == p.subtotal as int + inv.tax as int
    ensures PlacedOn(inv, e).subtotal as int == Subtotal(Changed(inv.lines, e.change))
  {
  }

  lemma EditKeepsOk(s: State, step: Step, r: Request)
    requires Ok(s) && r in Apply(s, step).edits
    ensures EditOk(Apply(s, step), Apply(s, step).edits[r])
  {
    hide Apply, Sound, Placeable, NextPosition, Amounts;
    StepEdit(s, step, r);
    var e := Apply(s, step).edits[r];
    if r in s.edits {
      assert EditOk(s, s.edits[r]);
      if e != s.edits[r] && e.Placed? {
        PlacedIsOk(s, s.invoices[s.edits[r].invoice], s.edits[r]);
      }
    }
    PlacedKeeps(s, step, r, e);
    StepRow(s, step, e.invoice);
    RowKeepsSound(s, step, e.invoice);
  }

  /** Placing changes neither the invoice nor the change of an edit. */
  lemma PlacedKeeps(s: State, step: Step, r: Request, e: Edit)
    requires EditAfter(s, step, r, e)
    ensures e.invoice in s.invoices || (r in s.edits && s.edits[r] == e)
    ensures r in s.edits && s.edits[r] != e && e.Placed? ==>
              e.invoice == s.edits[r].invoice && e.change == s.edits[r].change
  {
  }

  lemma StepKeepsOk(s: State, step: Step)
    requires Ok(s)
    ensures Ok(Apply(s, step))
  {
    hide Apply, Sound, EditOk, EditAfter, RowAfter, CanTransition, TransitionTo;
    var t := Apply(s, step);
    forall id | id in t.invoices ensures Sound(t.invoices[id]) {
      if id in s.invoices {
        StepRow(s, step, id);
        RowKeepsSound(s, step, id);
      } else {
        StepNewRow(s, step, id);
        NewIsSound(s.next, step);
      }
    }
    forall r | r in t.readings ensures CanTransition(t.readings[r].status, TransitionTo(t.readings[r].t)) {
      StepReading(s, step, r);
    }
    forall r | r in t.edits ensures EditOk(t, t.edits[r]) {
      EditKeepsOk(s, step, r);
    }
  }

  /** Every reachable invoice, whatever edits and transitions interleave: its log replays, each change
      obeying CanTransition, to its present status, which is therefore entered at most once; its
      version counts its committed mutations; every line is exact and the total is subtotal plus
      tax. */
  lemma {:induction false} ReachableInvoicesAreSound(s: State, steps: seq<Step>, id: Id, st: Status)
    requires Ok(s)
    ensures Ok(Run(s, steps))
    ensures id in Run(s, steps).invoices ==> TimesEntered(Run(s, steps).invoices[id].log, st) <= 1
    decreases |steps|
  {
    if steps == [] {
      if id in s.invoices {
        EntersEachStatusOnce(s.invoices[id].log, st);
      }
    } else {
      hide Apply, Ok, TimesEntered;
      StepKeepsOk(s, steps[0]);
      ReachableInvoicesAreSound(Apply(s, steps[0]), steps[1..], id, st);
    }
  }

  // ---------------------------------------------------------- frozen once issued

  /** `b` is a later state of the row `a`: the log only grew, and from issue on money and lines are
      the same. */
  predicate Continues(a: Invoice, b: Invoice) {
    && b.number == a.number && b.tax == a.tax && a.log <= b.log && a.version <= b.version
    && (!a.status.Draft? ==>
          !b.status.Draft? && b.lines == a.lines && b.subtotal == a.subtotal && b.total == a.total
          && b.past == a.past)
  }

  lemma MovingContinues(inv: Invoice, t: Transition)
    requires CanTransition(inv.status, TransitionTo(t))
    ensures Continues(inv, Moving(inv, t)) && Moving(inv, t).version == inv.version + 1
  {
  }

  lemma CommittedContinues(inv: Invoice, e: Edit)
    requires inv.status.Draft? && e.Placed?
    ensures Continues(inv, Committed(inv, e)) && Committed(inv, e).version == inv.version + 1
  {
  }

  lemma StepContinues(s: State, step: Step, id: Id)
    requires Ok(s) && id in s.invoices
    ensures id in Apply(s, step).invoices && Continues(s.invoices[id], Apply(s, step).invoices[id])
    ensures WriteHits(s, step) && s.readings[step.req].invoice == id
            ==> Apply(s, step).invoices[id].version > s.invoices[id].version
  {
    hide Apply, Committed, Moving, Sound;
    StepRow(s, step, id);
    if step.CommitEdit? && CommitHits(s, step.req) && s.edits[step.req].invoice == id {
      CommittedContinues(s.invoices[id], s.edits[step.req]);
    } else if WriteHits(s, step) && s.readings[step.req].invoice == id {
      MovingContinues(s.invoices[id], s.readings[step.req].t);
    }
  }

  /** From issue onward the money and the lines are frozen, edits in flight at the issue included, and
      the log only grows. */
  lemma {:induction false} IssuedMoneyIsFrozen(s: State, steps: seq<Step>, id: Id)
    requires Ok(s) && id in s.invoices
    ensures id in Run(s, steps).invoices && Continues(s.invoices[id], Run(s, steps).invoices[id])
    decreases |steps|
  {
    if steps != [] {
      hide Apply, Ok;
      StepKeepsOk(s, steps[0]);
      StepContinues(s, steps[0], id);
      IssuedMoneyIsFrozen(Apply(s, steps[0]), steps[1..], id);
    }
  }

  // ------------------------------------------------------- too large to move

  /** A draft can move iff its notification fits: for the request that read it, at its version. */
  lemma MovesIffItFits(s: State, req: Request)
    requires req in s.readings && s.readings[req].invoice in s.invoices
    requires s.invoices[s.readings[req].invoice].status == s.readings[req].status
    ensures var r := s.readings[req];
            var inv := s.invoices[r.invoice];
            && (WriteHits(s, Write(req, inv.version)) <==> Fits(s, Moving(inv, r.t)))
            && (Apply(s, Write(req, inv.version)).invoices[r.invoice] != inv <==> Fits(s, Moving(inv, r.t)))
  {
    MovingContinuesVersion(s.invoices[s.readings[req].invoice], s.readings[req].t);
  }

  lemma MovingContinuesVersion(inv: Invoice, t: Transition)
    ensures Moving(inv, t).version == inv.version + 1 && |Moving(inv, t).lines| == |inv.lines|
  {
  }

  /** Every line costs at least a byte. */
  ghost predicate GrowsByLine(size: Invoice -> nat) { forall inv :: size(inv) >= |inv.lines| }

  /** No removal is under way on the invoice, and none opens. */
  predicate NoRemoval(s: State, steps: seq<Step>, id: Id) {
    && (forall r :: r in s.edits && s.edits[r].invoice == id ==> s.edits[r].change.Add?)
    && (forall i :: 0 <= i < |steps| ==> !(steps[i].OpenRemove? && steps[i].id == id))
  }

  lemma StepKeepsNoRemoval(s: State, step: Step, rest: seq<Step>, id: Id)
    requires NoRemoval(s, [step] + rest, id)
    ensures NoRemoval(Apply(s, step), rest, id)
  {
    hide Committed, Moving, Placeable, Blocked, Notices, NewInvoice, Creates, LineOf;
    assert ([step] + rest)[0] == step && forall i :: 0 <= i < |rest| ==> ([step] + rest)[i + 1] == rest[i];
  }

  lemma LinesOnlyGrow(s: State, step: Step, id: Id)
    requires id in s.invoices && NoRemoval(s, [step], id)
    ensures |s.invoices[id].lines| <= |RowAfter(s, step, id).lines|
  {
    hide Subtotal;
  }

  /** A draft with more lines than the payload has bytes is stuck: no run moves it, neither to issue nor
      to void it, as long as no line is removed. */
  lemma {:induction false} OversizedDraftIsStuck(s: State, steps: seq<Step>, id: Id)
    requires GrowsByLine(s.size) && NoRemoval(s, steps, id)
    requires id in s.invoices && s.invoices[id].status.Draft? && |s.invoices[id].lines| > Outbox.MAX_PAYLOAD_BYTES
    ensures id in Run(s, steps).invoices && Run(s, steps).invoices[id].status.Draft?
    decreases |steps|
  {
    if steps != [] {
      assert steps == [steps[0]] + steps[1..];
      StepKeepsNoRemoval(s, steps[0], steps[1..], id);
      assert NoRemoval(s, [steps[0]], id);
      StepRow(s, steps[0], id);
      LinesOnlyGrow(s, steps[0], id);
      OversizedStays(s, steps[0], id);
      StepKeepsSize(s, steps[0]);
      hide Apply, NoRemoval, RowAfter;
      OversizedDraftIsStuck(Apply(s, steps[0]), steps[1..], id);
    }
  }

  lemma OversizedDoesNotFit(s: State, inv: Invoice, t: Transition)
    requires GrowsByLine(s.size) && |inv.lines| > Outbox.MAX_PAYLOAD_BYTES
    ensures !Fits(s, Moving(inv, t))
  {
    MovingContinuesVersion(inv, t);
    hide Moving;
    assert s.size(Moving(inv, t)) >= |Moving(inv, t).lines|;
  }

  lemma OversizedStays(s: State, step: Step, id: Id)
    requires GrowsByLine(s.size)
    requires id in s.invoices && s.invoices[id].status.Draft? && |s.invoices[id].lines| > Outbox.MAX_PAYLOAD_BYTES
    ensures RowAfter(s, step, id).status.Draft?
  {
    if Matches(s, step) && s.readings[step.req].invoice == id {
      OversizedDoesNotFit(s, s.invoices[id], s.readings[step.req].t);
    }
  }

  lemma StepKeepsSize(s: State, step: Step)
    ensures Apply(s, step).size == s.size
  {
    hide Committed, Moving, Placeable, Blocked, Notices, NewInvoice, Creates;
  }

  // ------------------------------------------------------- competing transitions

  function Winners(s: State, steps: seq<Step>, id: Id, version: int): nat
    decreases |steps|
  {
    if steps == [] then 0
    else
      (if WriteHits(s, steps[0]) && s.readings[steps[0].req].invoice == id && steps[0].expected == version
       then 1 else 0)
      + Winners(Apply(s, steps[0]), steps[1..], id, version)
  }

  /** Of all the requests that act on one version of an invoice, at most one wins. */
  lemma {:induction false} OneWinnerPerVersion(s: State, steps: seq<Step>, id: Id, version: int)
    requires Ok(s)
    ensures Winners(s, steps, id, version) <= 1
    ensures id in s.invoices && s.invoices[id].version > version ==> Winners(s, steps, id, version) == 0
    decreases |steps|
  {
    if steps != [] {
      StepKeepsOk(s, steps[0]);
      if id in s.invoices {
        StepContinues(s, steps[0], id);
      }
      OneWinnerPerVersion(Apply(s, steps[0]), steps[1..], id, version);
    }
  }

  // -------------------------------------------------------------- notifications

  /** A committed transition queues exactly one row for each endpoint listening at that moment; a
      refused one queues none. */
  lemma TransitionNotifiesEachListenerOnce(s: State, req: Request, expected: int, n: Notice)
    ensures var step := Write(req, expected);
            Apply(s, step).outbox[n] == s.outbox[n] +
              (if WriteHits(s, step) && n.invoice == s.readings[req].invoice
                  && n.event == EventFor(s.readings[req].t) && n.endpoint in Listening(s.endpoints, n.event)
               then 1 else 0)
  {
    if WriteHits(s, Write(req, expected)) {
      FanOutCount(s.endpoints, EventFor(s.readings[req].t), s.readings[req].invoice, n);
    }
  }

  lemma FanOutCount(endpoints: map<Id, Endpoint>, event: Outbox.Event, invoice: Id, n: Notice)
    ensures Notices(endpoints, event, invoice)[n] ==
              if n.invoice == invoice && n.event == event && n.endpoint in Listening(endpoints, event) then 1 else 0
  {
    var rows := set e | e in Listening(endpoints, event) :: Notice(e, event, invoice);
    assert n in rows <==> n.invoice == invoice && n.event == event && n.endpoint in Listening(endpoints, event);
  }

  /** The status whose entry announces the event. */
  function Announces(event: Outbox.Event): Option<Status> {
    match event
    case InvoiceCreated => Some(Draft)
    case InvoiceIssued => Some(Open)
    case InvoicePaid => Some(Paid)
    case InvoiceVoided => Some(Void)
    case Unlisted(_) => None
  }

  function Bound(s: State, n: Notice): nat {
    if n.invoice in s.invoices && Announces(n.event).Some?
    then TimesEntered(s.invoices[n.invoice].log, Announces(n.event).value) else 0
  }

  lemma LogGrows(log: seq<Entry>, longer: seq<Entry>, st: Status)
    requires log <= longer && |longer| <= |log| + 1
    ensures TimesEntered(longer, st)
            == TimesEntered(log, st) + if |longer| > |log| && longer[|log|].to == Some(st) then 1 else 0
  {
    if |longer| > |log| {
      assert longer[..|log|] == log;
    } else {
      assert longer == log;
    }
  }

  lemma LogStep(s: State, step: Step, id: Id)
    requires id in s.invoices
    ensures var t := Apply(s, step).invoices;
            && id in t && s.invoices[id].log <= t[id].log && |t[id].log| <= |s.invoices[id].log| + 1
            && (WriteHits(s, step) && s.readings[step.req].invoice == id ==>
                  |t[id].log| == |s.invoices[id].log| + 1
                  && t[id].log[|s.invoices[id].log|].to == Some(TransitionTo(s.readings[step.req].t)))
  {
    hide Apply;
    StepRow(s, step, id);
  }

  lemma CreationNotice(s: State, step: Step, n: Notice)
    requires Creates(s, step)
    ensures Apply(s, step).outbox[n] == s.outbox[n] +
              (if n.invoice == step.id && n.event.InvoiceCreated?
                  && n.endpoint in Listening(s.endpoints, n.event) then 1 else 0)
    ensures Apply(s, step).invoices[step.id].log == [Entry(Created, None, Some(Draft))]
    ensures TimesEntered([Entry(Created, None, Some(Draft))], Draft) == 1
  {
    FanOutCount(s.endpoints, Outbox.InvoiceCreated, step.id, n);
    assert [Entry(Created, None, Some(Draft))][..0] == [];
  }

  lemma StepKeepsNoticesBounded(s: State, step: Step, n: Notice)
    requires s.outbox[n] <= Bound(s, n)
    ensures Apply(s, step).outbox[n] <= Bound(Apply(s, step), n)
  {
    hide Committed, Moving, NewInvoice, Notices, Placeable, Blocked;
    var to := Announces(n.event);
    if n.invoice in s.invoices && to.Some? {
      LogStep(s, step, n.invoice);
      LogGrows(s.invoices[n.invoice].log, Apply(s, step).invoices[n.invoice].log, to.value);
    }
    if Creates(s, step) {
      CreationNotice(s, step, n);
    } else if step.Write? {
      TransitionNotifiesEachListenerOnce(s, step.req, step.expected, n);
    } else {
      assert Apply(s, step).outbox == s.outbox;
    }
  }

  /** No endpoint hears twice of one invoice's being created, issued, paid or voided: over every run,
      at most one outbox row exists for an endpoint, an event and an invoice. */
  lemma {:induction false} EachEventIsQueuedOnce(s: State, steps: seq<Step>, n: Notice)
    requires Ok(s) && s.outbox[n] <= Bound(s, n)
    ensures Run(s, steps).outbox[n] <= Bound(Run(s, steps), n) <= 1
    decreases |steps|
  {
    if steps == [] {
      if n.invoice in s.invoices && Announces(n.event).Some? {
        EntersEachStatusOnce(s.invoices[n.invoice].log, Announces(n.event).value);
      }
    } else {
      StepKeepsOk(s, steps[0]);
      StepKeepsNoticesBounded(s, steps[0], n);
      EachEventIsQueuedOnce(Apply(s, steps[0]), steps[1..], n);
    }
  }

  // ------------------------------------------------------------- invoice numbers

  predicate HandedOut(s: State, n: nat) {
    exists id :: id in s.invoices && s.invoices[id].number == n
  }

  /** Numbers are handed out densely: exactly 1 .. next - 1, each to one invoice. */
  predicate NumbersDense(s: State) {
    && s.next >= 1
    && (forall id :: id in s.invoices ==> 1 <= s.invoices[id].number < s.next)
    && (forall a, b :: a in s.invoices && b in s.invoices && s.invoices[a].number == s.invoices[b].number ==> a == b)
    && (forall n: nat :: 1 <= n < s.next ==> HandedOut(s, n))
  }

  lemma NumberIsFixed(s: State, step: Step, id: Id)
    requires id in s.invoices
    ensures id in Apply(s, step).invoices && Apply(s, step).invoices[id].number == s.invoices[id].number
  {
    hide Apply;
    StepRow(s, step, id);
  }

  /** The only new number is the next one, and it goes to the new invoice. */
  lemma NextMoves(s: State, step: Step)
    ensures var t := Apply(s, step);
            || (t.next == s.next && t.invoices.Keys == s.invoices.Keys)
            || (t.next == s.next + 1 && step.Create? && step.id !in s.invoices
                && t.invoices.Keys == s.invoices.Keys + {step.id} && t.invoices[step.id].number == s.next)
  {
    hide Committed, Moving, Placeable, PlacedOn, Blocked, Notices, Fits, Begun, Amounts, LinesOf;
    if step.OpenAdd? || step.OpenRemove? {
      BegunKeepsRows(s, step);
    }
  }

  lemma BegunKeepsRows(s: State, step: Step)
    requires step.OpenAdd? || step.OpenRemove?
    ensures Apply(s, step).next == s.next && Apply(s, step).invoices == s.invoices
  {
  }

  lemma StaysHandedOut(s: State, step: Step, n: nat)
    requires n < s.next ==> HandedOut(s, n)
    requires n < Apply(s, step).next
    ensures HandedOut(Apply(s, step), n)
  {
    NextMoves(s, step);
    var t := Apply(s, step);
    if n < s.next {
      var id :| id in s.invoices && s.invoices[id].number == n;
      NumberIsFixed(s, step, id);
      assert t.invoices[id].number == n;
    } else {
      assert t.invoices[step.id].number == n;
    }
  }

  lemma StepKeepsNumbersDense(s: State, step: Step)
    requires NumbersDense(s)
    ensures NumbersDense(Apply(s, step))
  {
    hide Committed, Moving, Notices, HandedOut, Placeable, Blocked;
    var t := Apply(s, step);
    NextMoves(s, step);
    hide Apply;
    forall id | id in s.invoices ensures id in t.invoices && t.invoices[id].number == s.invoices[id].number {
      NumberIsFixed(s, step, id);
    }
    forall n: nat | 1 <= n < t.next ensures HandedOut(t, n) {
      StaysHandedOut(s, step, n);
    }
  }

  /** The counter lives in the creating transaction, so a creation that fails gives its number back:
      numbers are unique and, despite the comment on the allocator, without gaps. */
  lemma {:induction false} NumbersHaveNoGaps(s: State, steps: seq<Step>)
    requires NumbersDense(s)
    ensures NumbersDense(Run(s, steps))
    decreases |steps|
  {
    if steps != [] {
      StepKeepsNumbersDense(s, steps[0]);
      NumbersHaveNoGaps(Apply(s, steps[0]), steps[1..]);
    }
  }
}
