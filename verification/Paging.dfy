/**
 Reading the diagnostic events of the broker page by page, while events are added and deleted.
 */
module Paging {
  import opened Cookies

  const PAGE := 100
  const LONGEST_PAGE := 200

  datatype Event = Event(id: int, scope: Scope, installation: string, severity: string, kind: string, timestamp: int, text: string)

  /** An empty string or a missing time does not filter. */
  datatype Query = Query(scope: Scope, installation: string, severity: string, kind: string, from: Option<int>, to: Option<int>)

  /** The rows in the order of their ids, which the database hands out upwards from 1. */
  ghost predicate Table(rows: seq<Event>) {
    (forall i | 0 <= i < |rows| :: rows[i].id > 0) && forall i, j | 0 <= i < j < |rows| :: rows[i].id < rows[j].id
  }

  predicate Matches(q: Query, e: Event) {
    && e.scope == q.scope
    && (q.installation != "" ==> e.installation == q.installation)
    && (q.severity != "" ==> e.severity == q.severity)
    && (q.kind != "" ==> e.kind == q.kind)
    && (q.from.Some? ==> e.timestamp >= q.from.value)
    && (q.to.Some? ==> e.timestamp <= q.to.value)
  }

  predicate Before(cursor: int, e: Event) {
    cursor > 0 ==> e.id < cursor
  }

  predicate Falling(events: seq<Event>) {
    forall i, j | 0 <= i < j < |events| :: events[i].id > events[j].id
  }

  function PageLength(limit: int): (n: int)
    ensures 1 <= n <= LONGEST_PAGE
  {
    if limit < 1 || limit > LONGEST_PAGE then PAGE else limit
  }

  /** A page: matching events before the cursor, newest first, and no newer one is left out. */
  ghost predicate IsPage(rows: seq<Event>, q: Query, cursor: int, limit: int, page: seq<Event>) {
    && |page| <= PageLength(limit) && Falling(page)
    && (forall e | e in page :: e in rows && Matches(q, e) && Before(cursor, e))
    && (forall e | e in rows && Matches(q, e) && Before(cursor, e) && e !in page ::
          |page| == PageLength(limit) && forall p | p in page :: e.id < p.id)
  }

  /** The query, ORDER BY id DESC LIMIT limit, and the loop over its rows. */
  method Diagnostics(rows: seq<Event>, q: Query, cursor: int, limit: int) returns (page: seq<Event>, next: int)
    requires Table(rows)
    ensures IsPage(rows, q, cursor, limit, page)
    ensures next == NextCursor(page)
  {
    page := [];
    var n := |rows|;
    while n > 0 && |page| < PageLength(limit)
      invariant 0 <= n <= |rows| && |page| <= PageLength(limit) && Falling(page)
      invariant forall e | e in page :: e in rows && Matches(q, e) && Before(cursor, e)
      invariant forall e, i | e in page && 0 <= i < n :: rows[i].id < e.id
      invariant forall i | n <= i < |rows| && Matches(q, rows[i]) && Before(cursor, rows[i]) :: rows[i] in page
    {
      n := n - 1;
      if Matches(q, rows[n]) && Before(cursor, rows[n]) {
        page := page + [rows[n]];
      }
    }
    next := NextCursor(page);
  }

  /** A limit between 1 and 200 is the length of a page, and 100 stands for any other: a page is shorter only when it
      has all there is. */
  lemma LimitIsHonoured(rows: seq<Event>, q: Query, cursor: int, limit: int, page: seq<Event>, e: Event)
    requires IsPage(rows, q, cursor, limit, page)
    ensures 1 <= limit <= 200 ==> |page| <= limit
    ensures limit < 1 || limit > 200 ==> |page| <= 100
    ensures e in rows && Matches(q, e) && Before(cursor, e) && e !in page ==>
      |page| == if 1 <= limit <= 200 then limit else 100
  {
  }

  /** The event is of this scope and no filter speaks against it. */
  predicate Wanted(q: Query, e: Event) {
    && e.scope.provider == q.scope.provider && e.scope.profile == q.scope.profile
    && q.installation in {"", e.installation} && q.severity in {"", e.severity} && q.kind in {"", e.kind}
    && (q.from.None? || q.from.value <= e.timestamp) && (q.to.None? || e.timestamp <= q.to.value)
  }

  /** A page that is not full holds exactly the wanted events with smaller ids than the cursor, if there is one; and no
      page holds another event. */
  lemma PageIsFiltered(rows: seq<Event>, q: Query, cursor: int, limit: int, page: seq<Event>, e: Event)
    requires IsPage(rows, q, cursor, limit, page)
    ensures e in page ==> e in rows && Wanted(q, e) && (cursor <= 0 || e.id < cursor)
    ensures |page| < (if 1 <= limit <= 200 then limit else 100) ==>
      (e in page <==> e in rows && Wanted(q, e) && (cursor <= 0 || e.id < cursor))
  {
    assert Matches(q, e) <==> Wanted(q, e);
  }

  /** next_before_id: the last id of the page, or 0. */
  function NextCursor(page: seq<Event>): int {
    if page == [] then 0 else page[|page|-1].id
  }

  /** The cursor of the k-th request: none at first, then the one that came with the page before. */
  function CursorAt(pages: seq<seq<Event>>, k: nat): int
    requires k <= |pages|
  {
    if k == 0 then 0 else NextCursor(pages[k-1])
  }

  /** A reader follows the cursors and stops at an empty page.  The k-th request finds the rows tables[k]. */
  ghost predicate Read(tables: seq<seq<Event>>, q: Query, limit: int, pages: seq<seq<Event>>)
    decreases |pages|
  {
    && |tables| == |pages| > 0
    && var n := |pages| - 1;
    && Table(tables[n]) && IsPage(tables[n], q, CursorAt(pages, n), limit, pages[n])
    && (n > 0 ==> pages[n-1] != [] && Read(tables[..n], q, limit, pages[..n]))
  }

  function Joined(pages: seq<seq<Event>>): seq<Event> {
    if pages == [] then [] else Joined(pages[..|pages|-1]) + pages[|pages|-1]
  }

  lemma CursorIsPositive(rows: seq<Event>, q: Query, cursor: int, limit: int, page: seq<Event>)
    requires Table(rows) && IsPage(rows, q, cursor, limit, page) && page != []
    ensures NextCursor(page) > 0
  {
    assert page[|page|-1] in page;
  }

  /** However the rows change meanwhile, the ids fall over the whole read: no event is returned twice. */
  lemma {:induction false} ReadNeverRepeats(tables: seq<seq<Event>>, q: Query, limit: int, pages: seq<seq<Event>>)
    requires Read(tables, q, limit, pages)
    ensures Falling(Joined(pages))
    ensures pages[|pages|-1] != [] ==> NextCursor(Joined(pages)) == NextCursor(pages[|pages|-1])
    decreases |pages|
  {
    var n := |pages| - 1;
    if n == 0 {
      assert Joined(pages) == pages[0];
    } else {
      ReadNeverRepeats(tables[..n], q, limit, pages[..n]);
      CursorIsPositive(tables[n-1], q, CursorAt(pages[..n], n - 1), limit, pages[n-1]);
      FallingJoins(Joined(pages[..n]), pages[n], NextCursor(pages[n-1]));
    }
  }

  lemma FallingJoins(a: seq<Event>, b: seq<Event>, cursor: int)
    requires Falling(a) && Falling(b) && a != [] && NextCursor(a) == cursor > 0 && forall e | e in b :: Before(cursor, e)
    ensures Falling(a + b)
  {
    forall i, j | 0 <= i < j < |a + b| ensures (a + b)[i].id > (a + b)[j].id {
      if i < |a| <= j {
        assert b[j - |a|] in b;
        assert a[i].id >= cursor > b[j - |a|].id;
      }
    }
  }

  /** An event that was there all along and has not been returned is older than the cursor. */
  lemma {:induction false} MissedIsOlder(tables: seq<seq<Event>>, q: Query, limit: int, pages: seq<seq<Event>>, e: Event)
    requires Read(tables, q, limit, pages) && Matches(q, e) && (forall k | 0 <= k < |tables| :: e in tables[k])
    requires e !in Joined(pages)
    ensures pages[|pages|-1] != [] && e.id < NextCursor(pages[|pages|-1])
    decreases |pages|
  {
    var n := |pages| - 1;
    var cursor := CursorAt(pages, n);
    assert e in tables[n] && e !in pages[n];
    if n > 0 {
      forall k | 0 <= k < n ensures e in tables[..n][k] { assert e in tables[k]; }
      MissedIsOlder(tables[..n], q, limit, pages[..n], e);
    }
    assert Before(cursor, e);
    assert pages[n][|pages[n]|-1] in pages[n];
  }

  /** A finished read returned every matching event that was there all along. */
  lemma ReadIsComplete(tables: seq<seq<Event>>, q: Query, limit: int, pages: seq<seq<Event>>, e: Event)
    requires Read(tables, q, limit, pages) && pages[|pages|-1] == []
    requires Matches(q, e) && forall k | 0 <= k < |tables| :: e in tables[k]
    ensures e in Joined(pages)
  {
    if e !in Joined(pages) { MissedIsOlder(tables, q, limit, pages, e); }
  }

  /** Nothing else is returned: each event was there and matched when its page was read. */
  lemma {:induction false} ReadIsSound(tables: seq<seq<Event>>, q: Query, limit: int, pages: seq<seq<Event>>, e: Event)
    requires Read(tables, q, limit, pages) && e in Joined(pages)
    ensures exists k :: 0 <= k < |tables| && e in tables[k] && e in pages[k] && Matches(q, e)
    decreases |pages|
  {
    var n := |pages| - 1;
    if e in pages[n] {
      assert e in tables[n];
    } else {
      assert n > 0;
      ReadIsSound(tables[..n], q, limit, pages[..n], e);
      var k :| 0 <= k < n && e in tables[..n][k] && e in pages[..n][k];
      assert e in tables[k] && e in pages[k];
    }
  }
}
