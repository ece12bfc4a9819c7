/** The keyset pages of the listing tools: runs and schedules newest first, environments by scope and name.
    A listing is the database's ordered result; a cursor is the key of the last row already seen. */
module Pagination {
  import opened Common

  /** Scope and name stand for their ranks in the database's collation. */
  datatype Key = TimeKey(created: int, id: nat) | NameKey(scope: nat, name: nat, id: nat)

  datatype Row = Row(key: Key, repos: seq<string>, status: string, enabled: bool)

  datatype Filter = Filter(repo: Option<string>, status: Option<string>, enabledOnly: bool)

  /** The listing order: newest first with the larger id first on a tie, or by scope, name and id. */
  predicate Precedes(a: Key, b: Key) {
    if a.TimeKey? && b.TimeKey? then a.created > b.created || (a.created == b.created && a.id > b.id)
    else if a.NameKey? && b.NameKey? then
      a.scope < b.scope || (a.scope == b.scope && (a.name < b.name || (a.name == b.name && a.id < b.id)))
    else a.TimeKey? && b.NameKey?
  }

  ghost predicate Ordered(rows: seq<Row>) {
    forall i, j | 0 <= i < j < |rows| :: Precedes(rows[i].key, rows[j].key)
  }

  predicate Matches(r: Row, f: Filter) {
    && (f.repo.Some? ==> f.repo.value in r.repos)
    && (f.status.Some? ==> r.status == f.status.value)
    && (f.enabledOnly ==> r.enabled)
  }

  predicate Beyond(r: Row, cursor: Option<Key>) {
    cursor.Some? ==> Precedes(cursor.value, r.key)
  }

  /** The matching rows beyond the cursor. */
  function Rest(rows: seq<Row>, f: Filter, cursor: Option<Key>): seq<Row> {
    if rows == [] then [] else Chosen(rows[0], f, cursor) + Rest(rows[1..], f, cursor)
  }

  function Chosen(r: Row, f: Filter, cursor: Option<Key>): seq<Row> {
    if Matches(r, f) && Beyond(r, cursor) then [r] else []
  }

  lemma {:induction false} RestMeans(rows: seq<Row>, f: Filter, cursor: Option<Key>)
    ensures forall r :: r in Rest(rows, f, cursor) <==> r in rows && Matches(r, f) && Beyond(r, cursor)
  {
    hide Matches, Beyond;
    if rows != [] {
      RestMeans(rows[1..], f, cursor);
      assert forall r :: r in rows <==> r == rows[0] || r in rows[1..];
    }
  }

  lemma RestCons(r: Row, rows: seq<Row>, f: Filter, cursor: Option<Key>)
    ensures Rest([r] + rows, f, cursor) == Chosen(r, f, cursor) + Rest(rows, f, cursor)
  {
    hide Chosen;
    assert ([r] + rows)[1..] == rows;
  }

  function Take(rows: seq<Row>, n: nat): (taken: seq<Row>)
    ensures taken <= rows && |taken| == if n < |rows| then n else |rows|
  {
    if n < |rows| then rows[..n] else rows
  }

  function Limited(rows: seq<Row>, limit: Option<nat>): seq<Row> {
    if limit.Some? then Take(rows, limit.value) else rows
  }

  lemma {:induction false} RestIsOrdered(rows: seq<Row>, f: Filter, cursor: Option<Key>)
    requires Ordered(rows)
    ensures Ordered(Rest(rows, f, cursor))
  {
    hide Matches, Beyond, Precedes;
    if rows != [] {
      RestIsOrdered(rows[1..], f, cursor);
      RestMeans(rows[1..], f, cursor);
      forall r | r in Rest(rows[1..], f, cursor) ensures Precedes(rows[0].key, r.key) {
        var i :| 0 <= i < |rows[1..]| && rows[1..][i] == r;
        assert rows[i + 1] == r;
      }
    }
  }

  // ---------------------------------------------------------------- the schedule loop

  /** `alist_scheduled_jobs`: with a repository the filter runs in a loop that stops early. */
  method ListScheduledJobs(rows: seq<Row>, enabledOnly: bool, repo: Option<string>, limit: Option<nat>,
                           before: Option<Key>) returns (listed: seq<Row>)
    ensures var matching := Rest(rows, Filter(repo, None, enabledOnly), before);
            listed == if repo.Some? then Collected(matching, limit, []) else Limited(matching, limit)
  {
    hide Rest, Matches, Collected;
    var candidates := Rest(rows, Filter(None, None, enabledOnly), before);
    if repo.None? {
      return Limited(candidates, limit);
    }
    ghost var f := Filter(repo, None, false);
    ghost var matching := Rest(candidates, f, None);
    RestOfRest(rows, enabledOnly, repo.value, before);
    listed := [];
    assert candidates[0..] == candidates;
    for i := 0 to |candidates|
      invariant Collected(matching, limit, []) == Collected(Rest(candidates[i..], f, None), limit, listed)
    {
      LoopStep(candidates, i, repo.value, limit, listed);
      if repo.value in candidates[i].repos {
        listed := listed + [candidates[i]];
        if limit.Some? && |listed| >= limit.value {
          return;
        }
      }
    }
    assert candidates[|candidates|..] == [];
    NothingLeft(f, limit, listed);
  }

  /** Taking matching rows one by one onto those taken so far; the limit is looked at after each. */
  function Collected(matching: seq<Row>, limit: Option<nat>, taken: seq<Row>): seq<Row> {
    if matching == [] then taken else
      var more := taken + [matching[0]];
      if limit.Some? && |more| >= limit.value then more else Collected(matching[1..], limit, more)
  }

  lemma NothingLeft(f: Filter, limit: Option<nat>, taken: seq<Row>)
    ensures Collected(Rest([], f, None), limit, taken) == taken
  {
  }

  /** One turn of the loop, at a row that matches or not. */
  lemma LoopStep(rows: seq<Row>, i: nat, repo: string, limit: Option<nat>, taken: seq<Row>)
    requires i < |rows|
    ensures var f := Filter(Some(repo), None, false);
            var more := taken + [rows[i]];
            Collected(Rest(rows[i..], f, None), limit, taken) ==
            if repo !in rows[i].repos then Collected(Rest(rows[i + 1..], f, None), limit, taken)
            else if limit.Some? && |more| >= limit.value then more
            else Collected(Rest(rows[i + 1..], f, None), limit, more)
  {
    var f := Filter(Some(repo), None, false);
    var rest := Rest(rows[i + 1..], f, None);
    assert rows[i..] == [rows[i]] + rows[i + 1..];
    RestCons(rows[i], rows[i + 1..], f, None);
    hide Rest;
    if repo in rows[i].repos {
      assert ([rows[i]] + rest)[1..] == rest;
    } else {
      assert [] + rest == rest;
    }
  }

  lemma ChosenThenRest(r: Row, rows: seq<Row>, f: Filter, cursor: Option<Key>, g: Filter, next: Option<Key>)
    ensures Rest(Chosen(r, f, cursor) + rows, g, next) ==
            (if Chosen(r, f, cursor) == [] then [] else Chosen(r, g, next)) + Rest(rows, g, next)
  {
    hide Matches, Beyond, Rest;
    RestCons(r, rows, g, next);
    assert [] + rows == rows;
  }

  /** Filtering in the database and then in the loop is filtering once. */
  lemma {:induction false} RestOfRest(rows: seq<Row>, enabledOnly: bool, repo: string, before: Option<Key>)
    ensures Rest(Rest(rows, Filter(None, None, enabledOnly), before), Filter(Some(repo), None, false), None) ==
            Rest(rows, Filter(Some(repo), None, enabledOnly), before)
  {
    if rows != [] {
      RestOfRest(rows[1..], enabledOnly, repo, before);
      ChosenThenRest(rows[0], Rest(rows[1..], Filter(None, None, enabledOnly), before),
                     Filter(None, None, enabledOnly), before, Filter(Some(repo), None, false), None);
    }
  }

  function Room(limit: Option<nat>, taken: nat): Option<nat>
    requires limit.Some? ==> taken <= limit.value
  {
    if limit.Some? then Some(limit.value - taken) else None
  }

  lemma LimitedCons(matching: seq<Row>, limit: Option<nat>)
    requires matching != [] && limit != Some(0)
    ensures Limited(matching, limit) == [matching[0]] + Limited(matching[1..], Room(limit, 1))
  {
    assert matching == [matching[0]] + matching[1..];
  }

  lemma {:induction false} CollectedIsTake(matching: seq<Row>, limit: Option<nat>, taken: seq<Row>)
    requires limit.Some? ==> |taken| < limit.value
    ensures Collected(matching, limit, taken) == taken + Limited(matching, Room(limit, |taken|))
  {
    if matching != [] {
      var more, rest := taken + [matching[0]], matching[1..];
      var left := Limited(rest, Room(limit, |more|));
      LimitedCons(matching, Room(limit, |taken|));
      if limit.None? || |more| < limit.value {
        CollectedIsTake(rest, limit, more);
      }
      hide Collected, Limited;
      assert more + left == taken + ([matching[0]] + left);
    }
  }

  /** Stopping early is filter-then-take, except at limit 0: there one row slips through if any matches. */
  lemma LoopIsTakeUnlessZero(matching: seq<Row>, limit: Option<nat>)
    ensures Collected(matching, limit, []) == Limited(matching, limit) <==> limit != Some(0) || matching == []
    ensures limit == Some(0) && matching != [] ==> Collected(matching, limit, []) == [matching[0]]
  {
    if limit != Some(0) {
      CollectedIsTake(matching, limit, []);
    }
  }

  // ---------------------------------------------------------------- one page

  const MAX_LIST_LIMIT := 50

  function CapLimit(limit: int): (n: nat)
    ensures 1 <= n <= MAX_LIST_LIMIT
    ensures 1 <= limit <= MAX_LIST_LIMIT ==> n == limit
  {
    var low := if limit < MAX_LIST_LIMIT then limit else MAX_LIST_LIMIT;
    if low > 1 then low else 1
  }

  datatype Page = Page(rows: seq<Row>, next: Option<Key>)

  /** A listing tool: one row more than the page is fetched, and there is a next page if it came. */
  function PageOf(rows: seq<Row>, f: Filter, limit: int, cursor: Option<Key>): (p: Page)
    ensures p.next.Some? ==> p.rows != []
  {
    var capped := CapLimit(limit);
    var fetched := Take(Rest(rows, f, cursor), capped + 1);
    var page := Take(fetched, capped);
    Page(page, if |fetched| > capped then Some(page[|page| - 1].key) else None)
  }

  /** `list_scheduled_jobs` gives the page of the common description on both of the listing's paths. */
  method ListScheduledJobsPage(rows: seq<Row>, enabledOnly: bool, repo: Option<string>, limit: int, cursor: Option<Key>)
      returns (p: Page)
    ensures p == PageOf(rows, Filter(repo, None, enabledOnly), limit, cursor)
  {
    hide Rest;
    var capped := CapLimit(limit);
    LoopIsTakeUnlessZero(Rest(rows, Filter(repo, None, enabledOnly), cursor), Some(capped + 1));
    var fetched := ListScheduledJobs(rows, enabledOnly, repo, Some(capped + 1), cursor);
    var page := Take(fetched, capped);
    var next := if |fetched| > capped then Some(page[|page| - 1].key) else None;
    return Page(page, next);
  }

  /** A page holds the first rows of what is left, and its cursor leaves exactly the others. */
  lemma PageSplitsRest(rows: seq<Row>, f: Filter, limit: int, cursor: Option<Key>)
    requires Ordered(rows)
    ensures var p := PageOf(rows, f, limit, cursor);
            && p.rows == Take(Rest(rows, f, cursor), CapLimit(limit))
            && (p.next.None? ==> Rest(rows, f, cursor) == p.rows)
            && (p.next.Some? ==> Rest(rows, f, cursor) == p.rows + Rest(rows, f, p.next))
  {
    hide Matches, Precedes, Rest, Beyond, Ordered;
    var rest, p := Rest(rows, f, cursor), PageOf(rows, f, limit, cursor);
    if p.next.Some? {
      var n := |p.rows|;
      assert p.rows == rest[..n];
      assert p.next.value == rest[n - 1].key;
      RestMeans(rows, f, cursor);
      assert rest[n - 1] in rest;
      RestAfterRest(rows, f, cursor, rest[n - 1]);
      RestIsOrdered(rows, f, cursor);
      RestAtIndex(rest, f, n - 1);
      assert rest == rest[..n] + rest[n..];
    }
  }

  /** A later cursor cuts the same rows from what was left as from everything. */
  lemma {:induction false} RestAfterRest(rows: seq<Row>, f: Filter, cursor: Option<Key>, r: Row)
    requires Beyond(r, cursor)
    ensures Rest(Rest(rows, f, cursor), f, Some(r.key)) == Rest(rows, f, Some(r.key))
  {
    hide Matches;
    if rows != [] {
      RestAfterRest(rows[1..], f, cursor, r);
      ChosenThenRest(rows[0], Rest(rows[1..], f, cursor), f, cursor, f, Some(r.key));
    }
  }

  /** In an ordered list the rows beyond its i-th are those after it. */
  lemma {:induction false} RestAtIndex(rows: seq<Row>, f: Filter, i: nat)
    requires Ordered(rows) && i < |rows| && forall r | r in rows :: Matches(r, f)
    ensures Rest(rows, f, Some(rows[i].key)) == rows[i + 1..]
  {
    hide Matches;
    if i > 0 {
      RestAtIndex(rows[1..], f, i - 1);
      assert rows[1..][i - 1] == rows[i] && rows[1..][i..] == rows[i + 1..];
    } else {
      AllBeyond(rows[1..], f, rows[0].key);
    }
  }

  lemma {:induction false} AllBeyond(rows: seq<Row>, f: Filter, key: Key)
    requires forall r | r in rows :: Matches(r, f) && Precedes(key, r.key)
    ensures Rest(rows, f, Some(key)) == rows
  {
    hide Matches, Precedes;
    if rows != [] {
      assert rows[0] in rows;
      AllBeyond(rows[1..], f, key);
    }
  }

  // ---------------------------------------------------------------- following the cursor

  /** The rows of all pages from page k on, when the table stays as it is; limit(k) is what page k asks for. */
  ghost function Walk(rows: seq<Row>, f: Filter, limit: nat -> int, k: nat, cursor: Option<Key>): seq<Row>
    requires Ordered(rows)
    decreases |Rest(rows, f, cursor)|
  {
    PageSplitsRest(rows, f, limit(k), cursor);
    var p := PageOf(rows, f, limit(k), cursor);
    if p.next.None? then p.rows else p.rows + Walk(rows, f, limit, k + 1, p.next)
  }

  /** Following the cursor ends and returns every matching row exactly once, in order, whatever the limits. */
  lemma {:induction false} WalkIsEverything(rows: seq<Row>, f: Filter, limit: nat -> int, k: nat, cursor: Option<Key>)
    requires Ordered(rows)
    ensures Walk(rows, f, limit, k, cursor) == Rest(rows, f, cursor)
    decreases |Rest(rows, f, cursor)|
  {
    PageSplitsRest(rows, f, limit(k), cursor);
    var p := PageOf(rows, f, limit(k), cursor);
    if p.next.Some? {
      WalkIsEverything(rows, f, limit, k + 1, p.next);
    }
  }

  /** What a walk from the start returns: the rows of the table that pass the filters, and newer ones before older
      ones, or by scope and name, each tie broken by the id. */
  lemma WalkMeans(rows: seq<Row>, f: Filter, limit: nat -> int, r: Row, i: nat, j: nat)
    requires Ordered(rows)
    ensures r in Walk(rows, f, limit, 0, None) <==>
            && r in rows
            && (f.repo == None || f.repo.value in r.repos)
            && (f.status == None || f.status.value == r.status)
            && (f.enabledOnly ==> r.enabled)
    ensures var walk := Walk(rows, f, limit, 0, None);
            i < j < |walk| ==>
              match (walk[i].key, walk[j].key)
              case (TimeKey(c, x), TimeKey(d, y)) => c > d || (c == d && x > y)
              case (NameKey(s, m, x), NameKey(t, n, y)) => s < t || (s == t && (m < n || (m == n && x < y)))
              case _ => true
  {
    WalkIsEverything(rows, f, limit, 0, None);
    hide Walk;
    RestMeans(rows, f, None);
    RestIsOrdered(rows, f, None);
    hide Rest;
  }

  // ---------------------------------------------------------------- while the table changes

  /** Pages fetched one after the other, the k-th when the table held tables[k]. */
  ghost predicate Fetched(tables: seq<seq<Row>>, f: Filter, limits: seq<int>, pages: seq<Page>) {
    && |tables| == |limits| == |pages|
    && (forall k | 0 <= k < |pages| :: Ordered(tables[k]))
    && (forall k | 0 <= k < |pages| :: pages[k] == PageOf(tables[k], f, limits[k], CursorAt(pages, k)))
    && (forall k | 0 <= k < |pages| - 1 :: pages[k].next.Some?)
  }

  function CursorAt(pages: seq<Page>, k: nat): Option<Key>
    requires k <= |pages|
  {
    if k == 0 then None else pages[k - 1].next
  }

  function AllRows(pages: seq<Page>, n: nat): seq<Row>
    requires n <= |pages|
  {
    if n == 0 then [] else AllRows(pages, n - 1) + pages[n - 1].rows
  }

  lemma OrderedPage(rows: seq<Row>, f: Filter, limit: int, cursor: Option<Key>)
    requires Ordered(rows)
    ensures var p := PageOf(rows, f, limit, cursor);
            && Ordered(p.rows) && (forall r | r in p.rows :: r in rows && Matches(r, f) && Beyond(r, cursor))
            && (p.next.Some? ==> p.next.value == p.rows[|p.rows| - 1].key)
  {
    hide Matches, Precedes, Rest;
    RestIsOrdered(rows, f, cursor);
    RestMeans(rows, f, cursor);
  }

  /** However the table changes between pages, what has been returned is in listing order without repeats,
      and the next cursor is the key of the last row. Rows are told apart by key: a row whose key changes meanwhile
      counts as another. */
  lemma {:induction false} NeverRepeats(tables: seq<seq<Row>>, f: Filter, limits: seq<int>, pages: seq<Page>, n: nat)
    requires Fetched(tables, f, limits, pages) && n <= |pages|
    ensures Ordered(AllRows(pages, n))
    ensures 0 < n && CursorAt(pages, n).Some? ==>
              AllRows(pages, n) != [] && AllRows(pages, n)[|AllRows(pages, n)| - 1].key == CursorAt(pages, n).value
    ensures n < |pages| ==> forall r | r in AllRows(pages, n) :: NotAfter(r, CursorAt(pages, n))
  {
    hide Matches, Precedes, PageOf;
    if n > 0 {
      NeverRepeats(tables, f, limits, pages, n - 1);
      OrderedPage(tables[n - 1], f, limits[n - 1], CursorAt(pages, n - 1));
      Joined(AllRows(pages, n - 1), pages[n - 1].rows, CursorAt(pages, n - 1));
      if n < |pages| {
        LastIsLast(AllRows(pages, n));
      }
    }
  }

  predicate NotAfter(r: Row, cursor: Option<Key>) {
    cursor.Some? && (r.key == cursor.value || Precedes(r.key, cursor.value))
  }

  lemma Joined(a: seq<Row>, b: seq<Row>, cursor: Option<Key>)
    requires Ordered(a) && Ordered(b)
    requires a != [] ==> forall r | r in a :: NotAfter(r, cursor)
    requires forall r | r in b :: Beyond(r, cursor)
    ensures Ordered(a + b)
  {
    forall i, j | 0 <= i < j < |a + b| ensures Precedes((a + b)[i].key, (a + b)[j].key) {
      if i < |a| <= j {
        assert a[i] in a && b[j - |a|] in b;
      }
    }
  }

  lemma LastIsLast(rows: seq<Row>)
    requires Ordered(rows) && rows != []
    ensures forall r | r in rows :: NotAfter(r, Some(rows[|rows| - 1].key))
  {
    hide Precedes;
  }

  /** The table holds a row with this key that matches. */
  ghost predicate Holds(rows: seq<Row>, f: Filter, key: Key) {
    exists r | r in rows :: r.key == key && Matches(r, f)
  }

  /** A row that is there and matches whenever a page is fetched is returned, or still lies beyond the cursor, also
      if its other fields change from page to page: rows inserted, deleted or altered meanwhile, ahead of the cursor
      or behind it, never make the walk skip it. */
  lemma {:induction false} NeverSkips(tables: seq<seq<Row>>, f: Filter, limits: seq<int>, pages: seq<Page>, key: Key,
                                      n: nat)
    requires Fetched(tables, f, limits, pages) && n <= |pages|
    requires forall k | 0 <= k < |pages| :: Holds(tables[k], f, key)
    ensures Holds(AllRows(pages, n), f, key) || n == 0
            || (CursorAt(pages, n).Some? && Precedes(CursorAt(pages, n).value, key))
  {
    hide Matches, Precedes, PageOf, Rest, Ordered;
    if n > 0 {
      NeverSkips(tables, f, limits, pages, key, n - 1);
      var r :| r in tables[n - 1] && r.key == key && Matches(r, f);
      PageSplitsRest(tables[n - 1], f, limits[n - 1], CursorAt(pages, n - 1));
      RestMeans(tables[n - 1], f, CursorAt(pages, n - 1));
      RestMeans(tables[n - 1], f, pages[n - 1].next);
      assert Holds(AllRows(pages, n - 1), f, key) ==> Holds(AllRows(pages, n), f, key);
      assert r in AllRows(pages, n) ==> Holds(AllRows(pages, n), f, key);
    }
  }

  /** A complete walk returns every key that is there and matches throughout, and none twice. */
  lemma CompleteWalkReturnsIt(tables: seq<seq<Row>>, f: Filter, limits: seq<int>, pages: seq<Page>, key: Key)
    requires Fetched(tables, f, limits, pages) && pages != [] && pages[|pages| - 1].next.None?
    requires forall k | 0 <= k < |pages| :: Holds(tables[k], f, key)
    ensures Holds(AllRows(pages, |pages|), f, key)
    ensures var all := AllRows(pages, |pages|);
            forall i, j | 0 <= i < j < |all| :: all[i].key != all[j].key
  {
    hide Matches, PageOf, Fetched, Holds;
    NeverSkips(tables, f, limits, pages, key, |pages|);
    NeverRepeats(tables, f, limits, pages, |pages|);
  }

  /** Created-and-id keys never change, so for runs and schedules no row comes twice under any change of the table;
      for environments that needs that none is renamed or moved to another scope meanwhile. */
  lemma NoRowTwice(tables: seq<seq<Row>>, f: Filter, limits: seq<int>, pages: seq<Page>, n: nat, i: nat, j: nat)
    requires Fetched(tables, f, limits, pages) && n <= |pages|
    requires forall k, l, r, q | 0 <= k < |tables| && 0 <= l < |tables| && r in tables[k] && q in tables[l]
               && r.key.id == q.key.id :: r.key == q.key
    requires i < j < |AllRows(pages, n)|
    ensures AllRows(pages, n)[i].key.id != AllRows(pages, n)[j].key.id
  {
    hide Matches, PageOf, Fetched;
    NeverRepeats(tables, f, limits, pages, n);
    var a, b := AllRows(pages, n)[i], AllRows(pages, n)[j];
    assert Precedes(a.key, b.key);
    var k := ReturnedIsListed(tables, f, limits, pages, n, a);
    var l := ReturnedIsListed(tables, f, limits, pages, n, b);
  }

  lemma {:induction false} ReturnedIsListed(tables: seq<seq<Row>>, f: Filter, limits: seq<int>, pages: seq<Page>,
                                            n: nat, r: Row) returns (k: nat)
    requires Fetched(tables, f, limits, pages) && n <= |pages| && r in AllRows(pages, n)
    ensures k < |tables| && r in tables[k]
  {
    hide Matches, Precedes, PageOf;
    OrderedPage(tables[n - 1], f, limits[n - 1], CursorAt(pages, n - 1));
    if r in pages[n - 1].rows {
      k := n - 1;
    } else {
      k := ReturnedIsListed(tables, f, limits, pages, n - 1, r);
    }
  }

  /** An environment renamed between two pages can come twice: here the one with id 0 moves behind the other. */
  lemma RenamedComesTwice()
    ensures var f := Filter(None, None, false);
            var a, b, renamed := Row(NameKey(0, 1, 0), [], "", true), Row(NameKey(0, 2, 1), [], "", true),
                                 Row(NameKey(0, 3, 0), [], "", true);
            var tables := [[a, b], [b, renamed]];
            var pages := [Page([a], Some(a.key)), Page([b, renamed], None)];
            Fetched(tables, f, [1, 2], pages) && AllRows(pages, 2) == [a, b, renamed]
  {
    TwoFetches(Row(NameKey(0, 1, 0), [], "", true), Row(NameKey(0, 2, 1), [], "", true),
               Row(NameKey(0, 3, 0), [], "", true), Filter(None, None, false));
  }

  /** The last of the first page is replaced by a later row before the second is fetched. */
  lemma TwoFetches(a: Row, b: Row, c: Row, f: Filter)
    requires Matches(a, f) && Matches(b, f) && Matches(c, f)
    requires Precedes(a.key, b.key) && Precedes(b.key, c.key) && Precedes(a.key, c.key)
    ensures var pages := [Page([a], Some(a.key)), Page([b, c], None)];
            Fetched([[a, b], [b, c]], f, [1, 2], pages) && AllRows(pages, 2) == [a, b, c]
  {
    PagesOfTwo(a, b, f, None);
    PagesOfTwo(b, c, f, Some(a.key));
    var pages := [Page([a], Some(a.key)), Page([b, c], None)];
    RowsOfTwo(pages[0], pages[1]);
    assert [a] + [b, c] == [a, b, c];
    assert Ordered([a, b]) && Ordered([b, c]);
    assert CursorAt(pages, 0) == None && CursorAt(pages, 1) == Some(a.key);
    hide PageOf, Matches, Precedes, Ordered, CursorAt, AllRows, Beyond;
    var tables, limits := [[a, b], [b, c]], [1, 2];
    forall k | 0 <= k < 2 ensures pages[k] == PageOf(tables[k], f, limits[k], CursorAt(pages, k)) {
      if k == 0 {
        assert tables[k] == [a, b] && limits[k] == 1;
      } else {
        assert tables[k] == [b, c] && limits[k] == 2;
      }
    }
  }

  lemma RowsOfTwo(p: Page, q: Page)
    ensures AllRows([p, q], 2) == p.rows + q.rows
  {
    assert AllRows([p, q], 1) == [] + p.rows == p.rows;
  }

  lemma PagesOfTwo(a: Row, b: Row, f: Filter, cursor: Option<Key>)
    requires Matches(a, f) && Beyond(a, cursor) && Matches(b, f) && Beyond(b, cursor)
    ensures PageOf([a, b], f, 1, cursor) == Page([a], Some(a.key))
    ensures PageOf([a, b], f, 2, cursor) == Page([a, b], None)
  {
    RestOfTwo(a, b, f, cursor);
    hide Rest, Matches, Beyond;
    assert [a, b][..1] == [a];
  }

  lemma RestOfTwo(a: Row, b: Row, f: Filter, cursor: Option<Key>)
    requires Matches(a, f) && Beyond(a, cursor) && Matches(b, f) && Beyond(b, cursor)
    ensures Rest([a, b], f, cursor) == [a, b]
  {
    hide Matches, Beyond;
    assert [a, b][1..] == [b] && [b][1..] == [];
    assert Rest([b], f, cursor) == [b] + Rest([], f, cursor) == [b];
    assert [a] + [b] == [a, b];
  }
}
