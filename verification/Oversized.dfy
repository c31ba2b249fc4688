/** A draft that can be neither issued nor voided (internal/invoice/store.go, internal/webhook/store.go):
    nothing limits how many lines are added one by one, but the notification of a transition carries
    all of them and is limited to 64 KiB. */
module Oversized {
  import opened Prelude
  import opened Invoices
  import opened Drift
  import opened DraftRace
  import Outbox

  /** Lines without a price, numbered by id. */
  predicate Free(lines: seq<Line>) {
    forall i :: 0 <= i < |lines| ==> lines[i].total == 0 && lines[i].id <= |lines|
  }

  lemma {:induction false} FreeSubtotal(lines: seq<Line>)
    requires forall i :: 0 <= i < |lines| ==> lines[i].total == 0
    ensures Subtotal(lines) == 0
    decreases |lines|
  {
    if lines == [] {
      assert Totals(lines) == [];
    } else {
      var n := |lines| - 1;
      FreeSubtotal(lines[..n]);
      assert lines == lines[..n] + [lines[n]];
      SubtotalSnoc(lines[..n], lines[n]);
    }
  }

  lemma FreshLine(lines: seq<Line>, line: Line)
    requires Free(lines) && line.id == |lines| + 1 && line.position == NextPosition(lines) && line.total == 0
    ensures Applicable(lines, Add(line)) && Free(lines + [line]) && Amounts(Subtotal(lines + [line]), 0).Some?
  {
    forall i | 0 <= i < |lines| ensures lines[i].position != line.position {
      NextPositionIsBeyond(lines, i);
    }
    ApplicableTo(lines, line);
    FreeSubtotal(lines + [line]);
  }

  /** One more line without a price, by an edit that meets no other. */
  lemma OneMoreLine(steps: seq<Step>, s: State, lines: seq<Line>, free: Int64)
    returns (longer: seq<Step>, t: State, more: seq<Line>)
    requires Reached(steps, s) && DraftOf(s, lines) && s.edits == map[] && Free(lines) && free == 0
    ensures Reached(longer, t) && DraftOf(t, more) && t.edits == map[] && Free(more) && t.size == s.size
    ensures |more| == |lines| + 1
  {
    var line := PricedLine(|lines| + 1, NextPosition(lines), free);
    FreshLine(lines, line);
    hide Apply, Run, Reached, Applicable, Subtotal, NextPosition, Free, Amounts;
    more := lines + [line];
    longer, t := OpensAt(steps, s, 1, |lines| + 1, free, lines, line.position);
    assert !Blocked(t, 1);
    assert Changed(lines, Add(line)) == more;
    longer, t := Placing(longer, t, 1);
    longer, t := Committing(longer, t, 1);
  }

  /** From the first invoice on, drafts of any number of lines can be reached. */
  lemma AnyNumberOfLines(size: Invoice -> nat, n: nat, free: Int64)
    returns (steps: seq<Step>, s: State, lines: seq<Line>)
    requires SmallFit(size) && n >= 2 && free == 0
    ensures Reached(steps, s) && s.size == size && DraftOf(s, lines) && |lines| == n && s.edits == map[]
  {
    lines := TwoLines(free, free);
    assert Free(lines);
    hide Apply, Run, Reached, SmallFit, Free, TwoLines;
    steps, s := DraftIsMade(size, free, free);
    for k := 2 to n
      invariant Reached(steps, s) && s.size == size && DraftOf(s, lines) && |lines| == k
      invariant s.edits == map[] && Free(lines)
    {
      steps, s, lines := OneMoreLine(steps, s, lines, free);
    }
  }

  predicate NoRemovalOpens(steps: seq<Step>, id: Id) {
    forall i :: 0 <= i < |steps| ==> !(steps[i].OpenRemove? && steps[i].id == id)
  }

  /** Invoice 7 is still a draft after the run. */
  predicate StaysDraft(s: State, more: seq<Step>) {
    var end := Run(s, more);
    7 in end.invoices && end.invoices[7].status.Draft?
  }

  /** Whatever the size of a notification, as long as each line costs a byte: there is a run to a draft
      that no further run ever moves, unless a line is removed. */
  lemma StuckDraft(size: Invoice -> nat) returns (steps: seq<Step>)
    requires SmallFit(size) && GrowsByLine(size)
    ensures forall more :: NoRemovalOpens(more, 7) ==> StaysDraft(Run(Init(size), steps), more)
  {
    var s, lines;
    hide Run, SmallFit, GrowsByLine;
    steps, s, lines := AnyNumberOfLines(size, Outbox.MAX_PAYLOAD_BYTES + 1, 0);
    forall more | NoRemovalOpens(more, 7) ensures StaysDraft(s, more) {
      OversizedDraftIsStuck(s, more, 7);
    }
  }
}
