/** Keyset pagination over a table that changes between pages: the List methods of
    internal/project/store.go, internal/audit/reader.go, internal/invoice/store.go and
    internal/webhook/store.go, which are one query. */
module Keyset {
  import opened Prelude

  /** What a listing is ordered by. Both parts of a row's key are fixed when the row is inserted. */
  datatype Key = Key(created: int, id: nat)

  /** SQL's row comparison `(created_at, id) < (...)`. */
  predicate Less(a: Key, b: Key) {
    a.created < b.created || (a.created == b.created && a.id < b.id)
  }

  predicate Descending(ks: seq<Key>) {
    forall i, j :: 0 <= i < j < |ks| ==> Less(ks[j], ks[i])
  }

  predicate Beyond(after: Option<Key>, k: Key) { after.Some? ==> Less(k, after.value) }

  /** The rows a query sees: those that match at that moment and lie beyond the cursor. */
  function Eligible(rows: set<Key>, after: Option<Key>): set<Key> {
    set k | k in rows && Beyond(after, k)
  }

  /** One page, as a client may rely on it. `next` is given iff a further row then existed. */
  predicate IsPage(rows: set<Key>, after: Option<Key>, limit: nat, page: seq<Key>, next: Option<Key>) {
    && Descending(page) && |page| <= limit
    && (forall i :: 0 <= i < |page| ==> page[i] in Eligible(rows, after))
    && (next.None? ==> forall k :: k in Eligible(rows, after) ==> k in page)
    && (next.Some? ==>
          && |page| == limit > 0 && next.value == page[limit - 1]
          && (forall k :: k in Eligible(rows, after) ==> k in page || Less(k, next.value))
          && exists k :: k in Eligible(rows, after) && Less(k, next.value))
  }

  /** The page in the client's terms: rows of the table, newest first and by id within one instant, none of them
      at or before the cursor; every further row is older than all of them and is left for the next page. */
  ghost predicate NewestFirst(rows: set<Key>, after: Option<Key>, limit: nat, page: seq<Key>, next: Option<Key>) {
    && (forall i, j :: 0 <= i < j < |page| ==>
          page[j].created < page[i].created || (page[j].created == page[i].created && page[j].id < page[i].id))
    && (forall i :: 0 <= i < |page| ==> page[i] in rows && Follows(page[i], after))
    && (forall k :: k in rows && Follows(k, after) && k !in page ==> next.Some? && Follows(k, next))
    && (next.Some? ==> |page| == limit > 0 && next.value == page[limit - 1])
    && (next.Some? ==> exists k :: k in rows && Follows(k, after) && Follows(k, next))
  }

  ghost predicate Follows(k: Key, after: Option<Key>) {
    after.Some? ==>
      k.created < after.value.created || (k.created == after.value.created && k.id < after.value.id)
  }

  lemma PageIsNewestFirst(rows: set<Key>, after: Option<Key>, limit: nat, page: seq<Key>, next: Option<Key>)
    requires IsPage(rows, after, limit, page, next)
    ensures NewestFirst(rows, after, limit, page, next)
  {
    assert forall k :: k in Eligible(rows, after) <==> k in rows && Follows(k, after);
    forall i, j | 0 <= i < j < |page|
      ensures page[j].created < page[i].created || (page[j].created == page[i].created && page[j].id < page[i].id)
    {
      assert Less(page[j], page[i]);
    }
    if next.Some? {
      var k :| k in Eligible(rows, after) && Less(k, next.value);
      assert k in rows && Follows(k, after) && Follows(k, next);
    }
  }

  /** The order of a listing: greater keys first. */
  predicate Ahead(a: Key, b: Key) { a == b || Less(b, a) }

  lemma Greatest(ks: set<Key>) returns (m: Key)
    requires ks != {}
    ensures m in ks && forall o :: o in ks && o != m ==> Less(o, m)
  {
    AheadOrders(ks);
    m := First(Ahead, ks);
    hide Less;
    forall o | o in ks && o != m ensures Less(o, m) {
      assert Ahead(m, o);
    }
  }

  lemma AheadOrders(ks: set<Key>)
    ensures Orders(Ahead, ks)
  {
  }

  /** ORDER BY created_at DESC, id DESC LIMIT n. */
  method Query(rows: set<Key>, after: Option<Key>, n: nat) returns (out: seq<Key>)
    ensures Descending(out)
    ensures |out| == if |Eligible(rows, after)| < n then |Eligible(rows, after)| else n
    ensures forall i :: 0 <= i < |out| ==> out[i] in Eligible(rows, after)
    ensures forall i, k :: 0 <= i < |out| && k in Eligible(rows, after) && k !in out ==> Less(k, out[i])
  {
    var left := Eligible(rows, after);
    out := [];
    while |out| < n && left != {}
      invariant left <= Eligible(rows, after) && |out| + |left| == |Eligible(rows, after)| && |out| <= n
      invariant forall i :: 0 <= i < |out| ==> out[i] in Eligible(rows, after) - left
      invariant forall k :: k in Eligible(rows, after) - left ==> k in out
      invariant forall i, k :: 0 <= i < |out| && k in left ==> Less(k, out[i])
      invariant Descending(out)
      decreases |left|
    {
      ghost var first := Greatest(left);
      var m :| m in left && forall o :: o in left && o != m ==> Less(o, m);
      out := out + [m];
      left := left - {m};
    }
  }

  /** What `Query` was asked for one row more than the page. */
  ghost predicate Fetched(rows: set<Key>, after: Option<Key>, n: nat, out: seq<Key>) {
    && Descending(out) && |out| == (if |Eligible(rows, after)| < n then |Eligible(rows, after)| else n)
    && (forall i :: 0 <= i < |out| ==> out[i] in Eligible(rows, after))
    && (forall i, k :: 0 <= i < |out| && k in Eligible(rows, after) && k !in out ==> Less(k, out[i]))
  }

  lemma FetchedLeavesOne(rows: set<Key>, after: Option<Key>, limit: nat, out: seq<Key>)
    requires limit > 0 && Fetched(rows, after, limit + 1, out) && |out| > limit
    ensures IsPage(rows, after, limit, out[..limit], Some(out[limit - 1]))
  {
    var page := out[..limit];
    assert Less(out[limit], out[limit - 1]) && out[limit] in Eligible(rows, after);
    forall k | k in Eligible(rows, after) ensures k in page || Less(k, out[limit - 1]) {
      if k in out {
        var i :| 0 <= i < |out| && out[i] == k;
        assert i < limit ==> page[i] == k;
      }
    }
  }

  lemma FetchedAll(rows: set<Key>, after: Option<Key>, limit: nat, out: seq<Key>)
    requires Fetched(rows, after, limit + 1, out) && |out| <= limit
    ensures IsPage(rows, after, limit, out, None)
  {
    QueryTookAll(Eligible(rows, after), out);
  }

  /** A listing method: fetch one row more than the page, drop it again, and point at the last row
      the client received. */
  method List(rows: set<Key>, after: Option<Key>, limit: nat) returns (page: seq<Key>, next: Option<Key>)
    requires limit > 0
    ensures IsPage(rows, after, limit, page, next) && NewestFirst(rows, after, limit, page, next)
  {
    hide NewestFirst, IsPage, Descending;
    var fetched := Query(rows, after, limit + 1);
    page := [];
    for i := 0 to |fetched|
      invariant page == fetched[..i]
    {
      page := page + [fetched[i]];
    }
    assert fetched[..|fetched|] == fetched;
    next := None;
    if |page| > limit {
      page := page[..limit];
      next := Some(page[limit - 1]);
      FetchedLeavesOne(rows, after, limit, fetched);
    } else {
      FetchedAll(rows, after, limit, fetched);
    }
    PageIsNewestFirst(rows, after, limit, page, next);
  }

  /** A list of distinct members as long as the set holds all of it. */
  lemma QueryTookAll(ks: set<Key>, out: seq<Key>)
    requires Descending(out) && |out| == |ks| && forall i :: 0 <= i < |out| ==> out[i] in ks
    ensures forall k :: k in ks ==> k in out
    decreases |out|
  {
    if out != [] {
      var n := |out| - 1;
      assert out == out[..n] + [out[n]];
      forall i | 0 <= i < n ensures out[..n][i] in ks - {out[n]} {
        assert Less(out[n], out[i]);
      }
      QueryTookAll(ks - {out[n]}, out[..n]);
    }
  }

  // -------------------------------------------------------------------- the walk

  /** Page i was read from the table as it was at that moment, `tables[i]`; rows may have been
      inserted, hidden or shown in between. */
  predicate Walk(tables: seq<set<Key>>, limit: nat, pages: seq<seq<Key>>, nexts: seq<Option<Key>>) {
    && |tables| == |pages| == |nexts|
    && (forall i :: 0 <= i < |pages| ==> PageAt(tables, limit, pages, nexts, i))
    && (forall i :: 0 <= i < |pages| - 1 ==> nexts[i].Some?)
  }

  predicate PageAt(tables: seq<set<Key>>, limit: nat, pages: seq<seq<Key>>, nexts: seq<Option<Key>>, i: nat) {
    i < |tables| == |pages| == |nexts| && IsPage(tables[i], CursorAt(nexts, i), limit, pages[i], nexts[i])
  }

  function CursorAt(nexts: seq<Option<Key>>, i: nat): Option<Key>
    requires i <= |nexts|
  {
    if i == 0 then None else nexts[i - 1]
  }

  function Flatten(pages: seq<seq<Key>>): seq<Key> {
    if pages == [] then [] else Flatten(pages[..|pages| - 1]) + pages[|pages| - 1]
  }

  lemma WalkPrefix(tables: seq<set<Key>>, limit: nat, pages: seq<seq<Key>>, nexts: seq<Option<Key>>)
    requires Walk(tables, limit, pages, nexts) && pages != []
    ensures var n := |pages| - 1; Walk(tables[..n], limit, pages[..n], nexts[..n])
    ensures var n := |pages| - 1; CursorAt(nexts[..n], n) == CursorAt(nexts, n)
  {
    var n := |pages| - 1;
    forall i | 0 <= i < n ensures PageAt(tables[..n], limit, pages[..n], nexts[..n], i) {
      assert PageAt(tables, limit, pages, nexts, i) && CursorAt(nexts[..n], i) == CursorAt(nexts, i);
    }
  }

  /** Nothing comes twice: whatever happens to the table meanwhile, the rows of a walk, page after
      page, are strictly descending; and all of them lie before where the walk stands. */
  lemma {:induction false} WalkNeverRepeats(tables: seq<set<Key>>, limit: nat, pages: seq<seq<Key>>,
                                            nexts: seq<Option<Key>>)
    requires Walk(tables, limit, pages, nexts)
    ensures Descending(Flatten(pages))
    ensures pages != [] && nexts[|nexts| - 1].Some? ==>
              forall i :: 0 <= i < |Flatten(pages)| ==> !Less(Flatten(pages)[i], nexts[|nexts| - 1].value)
    decreases |pages|
  {
    if pages != [] {
      var n := |pages| - 1;
      WalkPrefix(tables, limit, pages, nexts);
      WalkNeverRepeats(tables[..n], limit, pages[..n], nexts[..n]);
      assert PageAt(tables, limit, pages, nexts, n);
      PageBounds(tables[n], CursorAt(nexts, n), limit, pages[n], nexts[n]);
      hide IsPage, Descending;
      if n > 0 {
        var c := nexts[n - 1].value;
        assert nexts[..n][n - 1] == nexts[n - 1];
        PageExtends(Flatten(pages[..n]), pages[n], c);
      } else {
        assert Flatten(pages) == pages[0];
      }
    }
  }

  lemma PageBounds(rows: set<Key>, after: Option<Key>, limit: nat, page: seq<Key>, next: Option<Key>)
    requires IsPage(rows, after, limit, page, next)
    ensures Descending(page)
    ensures after.Some? ==> forall i :: 0 <= i < |page| ==> Less(page[i], after.value)
    ensures next.Some? ==> page != [] && next.value == page[|page| - 1]
                           && forall i :: 0 <= i < |page| ==> !Less(page[i], page[|page| - 1])
  {
  }

  lemma PageExtends(before: seq<Key>, page: seq<Key>, c: Key)
    requires Descending(before) && Descending(page)
    requires forall i :: 0 <= i < |before| ==> !Less(before[i], c)
    requires forall i :: 0 <= i < |page| ==> Less(page[i], c)
    ensures Descending(before + page)
    ensures page != [] ==> forall i :: 0 <= i < |before + page| ==> !Less((before + page)[i], page[|page| - 1])
  {
  }

  /** Nothing is missed: a row that matches at every page of the walk is either already among the
      returned rows or still ahead of the cursor; once the walk has ended, it was returned. */
  lemma {:induction false} WalkMissesNothing(tables: seq<set<Key>>, limit: nat, pages: seq<seq<Key>>,
                                             nexts: seq<Option<Key>>, k: Key)
    requires Walk(tables, limit, pages, nexts) && pages != []
    requires forall i :: 0 <= i < |tables| ==> k in tables[i]
    ensures k in Flatten(pages) || (nexts[|nexts| - 1].Some? && Less(k, nexts[|nexts| - 1].value))
    decreases |pages|
  {
    var n := |pages| - 1;
    WalkPrefix(tables, limit, pages, nexts);
    assert PageAt(tables, limit, pages, nexts, n);
    if n > 0 {
      WalkMissesNothing(tables[..n], limit, pages[..n], nexts[..n], k);
    }
    if n == 0 || k !in Flatten(pages[..n]) {
      assert k in Eligible(tables[n], CursorAt(nexts, n));
    }
  }

  function Times(ks: seq<Key>, k: Key): nat {
    if ks == [] then 0 else Times(ks[..|ks| - 1], k) + if ks[|ks| - 1] == k then 1 else 0
  }

  lemma {:induction false} OnceInDescending(ks: seq<Key>, k: Key)
    requires Descending(ks)
    ensures Times(ks, k) == if k in ks then 1 else 0
    decreases |ks|
  {
    if ks != [] {
      var n := |ks| - 1;
      OnceInDescending(ks[..n], k);
      assert ks == ks[..n] + [ks[n]];
      if ks[n] == k {
        assert forall i :: 0 <= i < n ==> Less(ks[n], ks[i]);
      }
    }
  }

  /** The contract of a finished walk: every row that matched throughout comes exactly once, and a
      row that never matched never does. */
  lemma FinishedWalkIsExact(tables: seq<set<Key>>, limit: nat, pages: seq<seq<Key>>, nexts: seq<Option<Key>>, k: Key)
    requires Walk(tables, limit, pages, nexts) && pages != [] && nexts[|nexts| - 1].None?
    ensures (forall i :: 0 <= i < |tables| ==> k in tables[i]) ==> Times(Flatten(pages), k) == 1
    ensures (forall i :: 0 <= i < |tables| ==> k !in tables[i]) ==> Times(Flatten(pages), k) == 0
  {
    WalkNeverRepeats(tables, limit, pages, nexts);
    OnceInDescending(Flatten(pages), k);
    if forall i :: 0 <= i < |tables| ==> k in tables[i] {
      WalkMissesNothing(tables, limit, pages, nexts, k);
    }
    if k in Flatten(pages) {
      RowsComeFromTables(tables, limit, pages, nexts, k);
    }
  }

  lemma {:induction false} RowsComeFromTables(tables: seq<set<Key>>, limit: nat, pages: seq<seq<Key>>,
                                              nexts: seq<Option<Key>>, k: Key)
    requires Walk(tables, limit, pages, nexts) && k in Flatten(pages)
    ensures exists i :: 0 <= i < |tables| && k in tables[i]
    decreases |pages|
  {
    var n := |pages| - 1;
    assert PageAt(tables, limit, pages, nexts, n);
    if k in pages[n] {
      assert k in tables[n];
    } else {
      WalkPrefix(tables, limit, pages, nexts);
      RowsComeFromTables(tables[..n], limit, pages[..n], nexts[..n], k);
      var i :| 0 <= i < |tables[..n]| && k in tables[..n][i];
      assert k in tables[i];
    }
  }

  /** No row appeared ahead of the cursor between two pages. */
  predicate NothingInsertedAhead(tables: seq<set<Key>>, nexts: seq<Option<Key>>)
    requires |tables| == |nexts|
  {
    forall i :: 0 < i < |tables| ==> Eligible(tables[i], nexts[i - 1]) <= tables[i - 1]
  }

  lemma PageShrinksTheRest(rows: set<Key>, after: Option<Key>, limit: nat, page: seq<Key>, next: Option<Key>)
    requires IsPage(rows, after, limit, page, next) && next.Some?
    ensures |Eligible(rows, next)| + limit <= |Eligible(rows, after)|
  {
    var taken := KeysOf(page);
    DistinctCount(page);
    assert taken !! Eligible(rows, next) by {
      forall k | k in taken ensures k !in Eligible(rows, next) {
        var i :| 0 <= i < |page| && page[i] == k;
        assert i < limit - 1 ==> Less(page[limit - 1], page[i]);
      }
    }
    forall k | k in Eligible(rows, next) ensures k in Eligible(rows, after) {
      assert next.value in Eligible(rows, after);
    }
    SubsetCount(taken + Eligible(rows, next), Eligible(rows, after));
  }

  lemma SubsetCount(a: set<Key>, b: set<Key>)
    requires a <= b
    ensures |a| <= |b|
  {
    assert b == a + (b - a);
  }

  function KeysOf(page: seq<Key>): (ks: set<Key>)
    ensures forall k :: k in ks <==> k in page
  {
    if page == [] then {} else
      assert page == page[..|page| - 1] + [page[|page| - 1]];
      KeysOf(page[..|page| - 1]) + {page[|page| - 1]}
  }

  lemma {:induction false} DistinctCount(page: seq<Key>)
    requires Descending(page)
    ensures |KeysOf(page)| == |page|
    decreases |page|
  {
    if page != [] {
      var n := |page| - 1;
      assert page[n] !in page[..n] by {
        assert forall i :: 0 <= i < n ==> Less(page[n], page[i]);
      }
      DistinctCount(page[..n]);
    }
  }

  /** The walk ends: if nothing is inserted ahead of it, a walk of `n` pages that still has a next one
      has used up `n * limit` of the rows the first page saw. */
  lemma {:induction false} WalkEnds(tables: seq<set<Key>>, limit: nat, pages: seq<seq<Key>>, nexts: seq<Option<Key>>)
    requires Walk(tables, limit, pages, nexts) && pages != [] && nexts[|nexts| - 1].Some?
    requires NothingInsertedAhead(tables, nexts)
    ensures |pages| * limit + |Eligible(tables[|tables| - 1], nexts[|nexts| - 1])| <= |tables[0]|
    decreases |pages|
  {
    hide IsPage;
    var n := |pages| - 1;
    assert PageAt(tables, limit, pages, nexts, n);
    PageShrinksTheRest(tables[n], CursorAt(nexts, n), limit, pages[n], nexts[n]);
    if n == 0 {
      assert Eligible(tables[0], None) == tables[0];
    } else {
      WalkPrefix(tables, limit, pages, nexts);
      WalkEnds(tables[..n], limit, pages[..n], nexts[..n]);
      SubsetCount(Eligible(tables[n], nexts[n - 1]), Eligible(tables[n - 1], nexts[n - 1]));
      assert (n + 1) * limit == n * limit + limit;
    }
  }
}
