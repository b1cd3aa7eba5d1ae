/** Listing export jobs page by page: list of server/export_store.py and list_exports of server/export_service.py. */
module ExportPaging {
  import opened Options
  import opened Sets

  /** A job is listed by its time of creation, and by its id among jobs created at the same time. */
  datatype Key = Key(createdAt: int, id: nat)

  predicate Below(a: Key, b: Key) {
    a.createdAt < b.createdAt || (a.createdAt == b.createdAt && a.id < b.id)
  }

  /** The condition of a query with a cursor. */
  predicate BelowCursor(k: Key, cursor: Option<Key>) {
    cursor.Some? ==> Below(k, cursor.value)
  }

  predicate Descends(keys: seq<Key>) {
    forall i, j :: 0 <= i < j < |keys| ==> Below(keys[j], keys[i])
  }

  ghost predicate IsNewest(newest: Key, keys: set<Key>) {
    newest in keys && forall k :: k in keys && k != newest ==> Below(k, newest)
  }

  lemma {:induction false} NewestExists(keys: set<Key>) returns (newest: Key)
    requires keys != {}
    ensures IsNewest(newest, keys)
  {
    var x :| x in keys;
    newest := x;
    if keys - {x} != {} {
      var other := NewestExists(keys - {x});
      newest := if Below(x, other) then other else x;
      forall k | k in keys && k != newest
        ensures Below(k, newest)
      {
        assert k == x || k in keys - {x};
      }
    } else {
      assert forall k :: k in keys ==> k == x || k in keys - {x};
    }
  }

  /** The newest key. */
  ghost function Newest(keys: set<Key>): (newest: Key)
    requires keys != {}
    ensures IsNewest(newest, keys)
  {
    assert exists newest :: IsNewest(newest, keys) by {
      var newest := NewestExists(keys);
    }
    var newest :| IsNewest(newest, keys);
    newest
  }

  /** ORDER BY created_at DESC, id DESC. */
  ghost function Ordered(keys: set<Key>): seq<Key> {
    if keys == {} then [] else var newest := Newest(keys); [newest] + Ordered(keys - {newest})
  }

  lemma {:induction false} OrderedFacts(keys: set<Key>)
    ensures Descends(Ordered(keys)) && forall k :: k in Ordered(keys) <==> k in keys
  {
    if keys != {} {
      OrderedFacts(keys - {Newest(keys)});
    }
  }

  function Matching(table: set<Key>, cursor: Option<Key>): set<Key> {
    set k | k in table && BelowCursor(k, cursor)
  }

  /** The query: the newest jobs below the cursor, at most `limit` of them. */
  ghost function Selected(table: set<Key>, cursor: Option<Key>, limit: nat): seq<Key> {
    var all := Ordered(Matching(table, cursor));
    if |all| <= limit then all else all[..limit]
  }

  /** `jobs` are jobs of the table below the cursor, newest first, as many as asked for or else all; none left out is
    * newer than one of them. */
  ghost predicate AreNewest(table: set<Key>, cursor: Option<Key>, limit: nat, jobs: seq<Key>) {
    && Descends(jobs) && |jobs| <= limit
    && (forall k :: k in jobs ==> k in table && BelowCursor(k, cursor))
    && (forall k :: k in table && BelowCursor(k, cursor) && k !in jobs ==>
          |jobs| == limit && forall j :: j in jobs ==> Below(k, j))
  }

  lemma {:induction false} SelectedAreNewest(table: set<Key>, cursor: Option<Key>, limit: nat)
    ensures AreNewest(table, cursor, limit, Selected(table, cursor, limit))
  {
    var all, jobs := Ordered(Matching(table, cursor)), Selected(table, cursor, limit);
    OrderedFacts(Matching(table, cursor));
    forall k | k in jobs
      ensures k in table && BelowCursor(k, cursor)
    {
      assert k in all;
    }
    assert forall m :: 0 <= m < |jobs| ==> jobs[m] == all[m] && all[m] in jobs;
    forall k | k in table && BelowCursor(k, cursor) && k !in jobs
      ensures |jobs| == limit && forall j :: j in jobs ==> Below(k, j)
    {
      assert k in Matching(table, cursor);
      var i :| 0 <= i < |all| && all[i] == k;
    }
  }

  /** Take the newest matching job until there are enough. */
  method List(table: set<Key>, cursor: Option<Key>, limit: nat) returns (jobs: seq<Key>)
    ensures jobs == Selected(table, cursor, limit)
    ensures AreNewest(table, cursor, limit, jobs)
  {
    SelectedAreNewest(table, cursor, limit);
    jobs := [];
    var rest := Matching(table, cursor);
    while rest != {} && |jobs| < limit
      invariant jobs + Ordered(rest) == Ordered(Matching(table, cursor)) && |jobs| <= limit
      decreases rest
    {
      var newest := FindNewest(rest);
      jobs := jobs + [newest];
      rest := rest - {newest};
    }
    assert rest == {} ==> jobs == Ordered(Matching(table, cursor));
  }

  method FindNewest(keys: set<Key>) returns (newest: Key)
    requires keys != {}
    ensures newest == Newest(keys)
  {
    newest :| newest in keys;
    var rest := keys - {newest};
    while rest != {}
      invariant newest in keys && rest <= keys && newest !in rest
      invariant forall k :: k in keys && k !in rest && k != newest ==> Below(k, newest)
      decreases rest
    {
      var k :| k in rest;
      rest := rest - {k};
      if Below(newest, k) {
        newest := k;
      }
    }
    assert newest == Newest(keys) || Below(newest, Newest(keys));
  }

  /** One request: one job more than the limit tells whether a next page is worth asking for. */
  method ListExports(table: set<Key>, cursor: Option<Key>, limit: nat) returns (jobs: seq<Key>, next: Option<Key>)
    requires limit >= 1
    ensures (jobs, next) == Page(table, cursor, limit)
    ensures AreNewest(table, cursor, limit, jobs)
    ensures next == if exists k :: k in table && BelowCursor(k, cursor) && k !in jobs then Some(jobs[|jobs| - 1])
                    else None
  {
    PageIsNewest(table, cursor, limit);
    jobs := List(table, cursor, limit + 1);
    next := None;
    if |jobs| > limit {
      next := Some(jobs[limit - 1]);
      jobs := jobs[..limit];
      assert jobs == Ordered(Matching(table, cursor))[..limit];
    }
  }

  /** A page, and the cursor of the next one if older jobs are left. */
  ghost function Page(table: set<Key>, cursor: Option<Key>, limit: nat): (r: (seq<Key>, Option<Key>))
    requires limit >= 1
  {
    var all := Ordered(Matching(table, cursor));
    if |all| > limit then (all[..limit], Some(all[limit - 1])) else (all, None)
  }

  lemma {:induction false} PageIsNewest(table: set<Key>, cursor: Option<Key>, limit: nat)
    requires limit >= 1
    ensures var (page, next) := Page(table, cursor, limit);
      && AreNewest(table, cursor, limit, page)
      && (next.Some? ==> page != [] && next.value == page[|page| - 1])
      && (next.Some? <==> exists k :: k in table && BelowCursor(k, cursor) && k !in page)
  {
    var all := Ordered(Matching(table, cursor));
    var (page, next) := Page(table, cursor, limit);
    OrderedFacts(Matching(table, cursor));
    SelectedAreNewest(table, cursor, limit);
    assert page == Selected(table, cursor, limit);
    if next.Some? {
      assert all[limit] in all && all[limit] in Matching(table, cursor);
      assert all[limit] !in page;
    } else {
      assert forall k :: k in Matching(table, cursor) ==> k in page;
    }
  }

  lemma {:induction false} PageFacts(table: set<Key>, cursor: Option<Key>, limit: nat)
    requires limit >= 1
    ensures var (page, next) := Page(table, cursor, limit);
      && |page| <= limit && Descends(page)
      && (forall k :: k in page ==> k in table && BelowCursor(k, cursor))
      && (next.Some? ==> page != [] && next.value == page[|page| - 1])
      && (forall k :: k in table && BelowCursor(k, cursor) && !BelowCursor(k, next) ==> k in page)
      && (next.None? ==> forall k :: k in table && BelowCursor(k, cursor) ==> k in page)
  {
    var all := Ordered(Matching(table, cursor));
    var (page, next) := Page(table, cursor, limit);
    OrderedFacts(Matching(table, cursor));
    forall k | k in page
      ensures k in table && BelowCursor(k, cursor)
    {
      assert k in all;
    }
    assert next.Some? ==> forall m :: |page| <= m < |all| ==> Below(all[m], all[limit - 1]);
    forall k | k in table && BelowCursor(k, cursor) && (next.None? || !BelowCursor(k, next))
      ensures k in page
    {
      assert k in Matching(table, cursor);
      var i :| 0 <= i < |all| && all[i] == k;
      assert i < |page| && page[i] == k;
    }
  }

  /** Following the cursors while the table changes: `tables[n]` is the table at the n-th request. The crawl is
    * finished when a page comes without a cursor. */
  ghost function Crawl(tables: seq<set<Key>>, cursor: Option<Key>, limit: nat): (r: (seq<seq<Key>>, bool))
    requires limit >= 1
    decreases |tables|
  {
    if tables == [] then ([], false)
    else
      var (page, next) := Page(tables[0], cursor, limit);
      if next.None? then ([page], true)
      else
        var (pages, finished) := Crawl(tables[1..], next, limit);
        ([page] + pages, finished)
  }

  function Flat(pages: seq<seq<Key>>): seq<Key> {
    if pages == [] then [] else pages[0] + Flat(pages[1..])
  }

  predicate InAll(k: Key, tables: seq<set<Key>>) {
    forall n :: 0 <= n < |tables| ==> k in tables[n]
  }

  lemma {:induction false} DescendsOn(a: seq<Key>, b: seq<Key>)
    requires Descends(a) && Descends(b) && (a != [] ==> forall k :: k in b ==> Below(k, a[|a| - 1]))
    ensures Descends(a + b)
  {
    forall i, j | 0 <= i < j < |a + b|
      ensures Below((a + b)[j], (a + b)[i])
    {
      if i < |a| <= j {
        assert b[j - |a|] in b;
        assert i == |a| - 1 || Below(a[|a| - 1], a[i]);
      }
    }
  }

  /** What is visited goes down strictly, from below the cursor: nothing is visited twice, across all pages. */
  lemma {:induction false} CrawlDescends(tables: seq<set<Key>>, cursor: Option<Key>, limit: nat)
    requires limit >= 1
    ensures var visited := Flat(Crawl(tables, cursor, limit).0);
      Descends(visited) && forall k :: k in visited ==> BelowCursor(k, cursor)
    decreases |tables|
  {
    if tables != [] {
      var (page, next) := Page(tables[0], cursor, limit);
      PageFacts(tables[0], cursor, limit);
      if next.Some? {
        CrawlDescends(tables[1..], next, limit);
        var others := Flat(Crawl(tables[1..], next, limit).0);
        DescendsOn(page, others);
        forall k | k in others
          ensures BelowCursor(k, cursor)
        {
          assert next.value in page && Below(k, next.value);
        }
      } else {
        assert page + [] == page;
      }
    }
  }

  /** Every job on a page was in the table when the page was asked for. */
  lemma {:induction false} CrawlIsSound(tables: seq<set<Key>>, cursor: Option<Key>, limit: nat, n: nat, k: Key)
    requires limit >= 1 && n < |Crawl(tables, cursor, limit).0| && k in Crawl(tables, cursor, limit).0[n]
    ensures |Crawl(tables, cursor, limit).0| <= |tables| && k in tables[n]
    ensures |Crawl(tables, cursor, limit).0[n]| <= limit
    decreases |tables|
  {
    CrawlLength(tables, cursor, limit);
    var (page, next) := Page(tables[0], cursor, limit);
    PageFacts(tables[0], cursor, limit);
    if n > 0 {
      CrawlIsSound(tables[1..], next, limit, n - 1, k);
    }
  }

  lemma {:induction false} CrawlLength(tables: seq<set<Key>>, cursor: Option<Key>, limit: nat)
    requires limit >= 1
    ensures |Crawl(tables, cursor, limit).0| <= |tables|
    decreases |tables|
  {
    if tables != [] {
      var (page, next) := Page(tables[0], cursor, limit);
      if next.Some? {
        CrawlLength(tables[1..], next, limit);
      }
    }
  }

  /** A finished crawl has visited every job that was there throughout. */
  lemma {:induction false} CrawlIsComplete(tables: seq<set<Key>>, cursor: Option<Key>, limit: nat, k: Key)
    requires limit >= 1 && Crawl(tables, cursor, limit).1
    requires InAll(k, tables) && BelowCursor(k, cursor)
    ensures k in Flat(Crawl(tables, cursor, limit).0)
    decreases |tables|
  {
    var (page, next) := Page(tables[0], cursor, limit);
    PageFacts(tables[0], cursor, limit);
    if next.None? {
      assert page + [] == page;
    } else if BelowCursor(k, next) {
      CrawlIsComplete(tables[1..], next, limit, k);
    }
  }

  lemma {:induction false} OnceInDescending(keys: seq<Key>, k: Key)
    requires Descends(keys) && k in keys
    ensures multiset(keys)[k] == 1
  {
    if keys[0] == k {
      assert k !in keys[1..];
      assert keys == [keys[0]] + keys[1..];
    } else {
      OnceInDescending(keys[1..], k);
      assert keys == [keys[0]] + keys[1..];
    }
  }

  /** However the table changes between the requests, a finished crawl visits every job that was there throughout
    * exactly once, newest first. */
  lemma {:induction false} EveryLastingJobOnce(tables: seq<set<Key>>, limit: nat, k: Key)
    requires limit >= 1 && Crawl(tables, None, limit).1 && InAll(k, tables)
    ensures var visited := Flat(Crawl(tables, None, limit).0);
      Descends(visited) && k in visited && multiset(visited)[k] == 1
  {
    CrawlDescends(tables, None, limit);
    CrawlIsComplete(tables, None, limit, k);
    OnceInDescending(Flat(Crawl(tables, None, limit).0), k);
  }

  // ---------------------------------------------------------------- a table that does not change

  function Same(table: set<Key>, n: nat): (tables: seq<set<Key>>)
    ensures |tables| == n && forall i :: 0 <= i < n ==> tables[i] == table
  {
    if n == 0 then [] else [table] + Same(table, n - 1)
  }

  /** Every page but the last goes on below some job of the table. */
  lemma {:induction false} CrawlFinishes(table: set<Key>, cursor: Option<Key>, limit: nat, n: nat)
    requires limit >= 1 && n > |Matching(table, cursor)|
    ensures Crawl(Same(table, n), cursor, limit).1
    decreases n
  {
    var (page, next) := Page(table, cursor, limit);
    PageFacts(table, cursor, limit);
    assert Same(table, n)[1..] == Same(table, n - 1);
    if next.Some? {
      assert next.value in page;
      SubsetIsSmaller(Matching(table, next), Matching(table, cursor) - {next.value});
      CrawlFinishes(table, next, limit, n - 1);
    }
  }

  lemma {:induction false} DescendingIsUnique(a: seq<Key>, b: seq<Key>)
    requires Descends(a) && Descends(b) && forall k :: k in a <==> k in b
    ensures a == b
  {
    if b != [] {
      assert b[0] in b;
      assert a != [] && a[0] in b && a[0] == b[0];
      forall k
        ensures k in a[1..] <==> k in b[1..]
      {
        assert k in a[1..] ==> k in a && k != a[0];
        assert k in b[1..] ==> k in b && k != b[0];
      }
      DescendingIsUnique(a[1..], b[1..]);
    } else {
      SomeElement(a);
    }
  }

  lemma {:induction false} SomeElement(a: seq<Key>)
    ensures a != [] ==> exists k :: k in a
  {
    if a != [] {
      assert a[0] in a;
    }
  }

  /** Paging through a table that does not change gives what one query without a limit gives, for every limit. */
  lemma {:induction false} PagesAreTheWholeList(table: set<Key>, limit: nat)
    requires limit >= 1
    ensures var (pages, finished) := Crawl(Same(table, |table| + 1), None, limit);
      finished && Flat(pages) == Ordered(table)
  {
    var tables := Same(table, |table| + 1);
    assert Matching(table, None) == table;
    CrawlFinishes(table, None, limit, |table| + 1);
    CrawlDescends(tables, None, limit);
    OrderedFacts(table);
    var visited := Flat(Crawl(tables, None, limit).0);
    forall k
      ensures k in visited <==> k in Ordered(table)
    {
      if k in table {
        CrawlIsComplete(tables, None, limit, k);
      }
      if k in visited {
        var n := PageOf(Crawl(tables, None, limit).0, k);
        CrawlIsSound(tables, None, limit, n, k);
      }
    }
    DescendingIsUnique(visited, Ordered(table));
  }

  lemma {:induction false} PageOf(pages: seq<seq<Key>>, k: Key) returns (n: nat)
    requires k in Flat(pages)
    ensures n < |pages| && k in pages[n]
  {
    if k in pages[0] {
      n := 0;
    } else {
      n := PageOf(pages[1..], k);
      n := n + 1;
    }
  }
}
