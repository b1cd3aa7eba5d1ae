/** What a tuple cache that evicts still finds: the tuples and counts that src/DataSet/CellSet.js asks it for. */
module TupleLookup {
  import opened ClientCache
  import opened Options
  import opened Recency
  import opened TupleCache

  /** An axis: whether there are items on it, all its tuples, how they are rendered, and what their last columns parse
    * to. */
  datatype Axis = Axis(hasItems: bool, tuples: seq<Tuple>, render: Render, lastColumn: Tuple -> Parsed)

  /** The settings of a tuple set. */
  datatype Limits = Limits(entries: int, bytes: int, pageSize: nat)

  /** What a tuple set remembers of its axis. */
  datatype Cache = Cache(contents: State, count: Count)

  const Fresh := Cache(Empty, Unknown)

  ghost predicate Valid(cache: Cache, axis: Axis) {
    Consistent(cache.contents, axis.render) && Agrees(cache.contents, axis.tuples)
  }

  lemma {:induction false} FreshIsValid(axis: Axis)
    ensures Valid(Fresh, axis)
  {
  }

  function CacheOf(tupleSet: TupleSet): Cache
    reads tupleSet
  {
    Cache(tupleSet.Contents(), tupleSet.tupleCount)
  }

  /** The object is the tuple set of the axis, with these settings. */
  ghost predicate Serving(tupleSet: TupleSet, axis: Axis, limits: Limits)
    reads tupleSet
  {
    && tupleSet.render == axis.render && tupleSet.lastColumn == axis.lastColumn && tupleSet.pageSize == limits.pageSize
    && Valid(CacheOf(tupleSet), axis)
  }

  // ---------------------------------------------------------------- the count over runs of calls

  /** A call for a page, with the settings at that time. */
  datatype PageCall = PageCall(count: int, offset: nat, limits: Limits)

  function After(cache: Cache, call: PageCall, axis: Axis): Cache {
    var request := ToFetch(cache.contents, cache.count, call.count, call.offset, call.limits.pageSize);
    if request.None? then cache
    else
      Cache(Enforced(Queried(cache.contents, request.value, axis.tuples, axis.render), call.limits.entries,
                     call.limits.bytes),
            CountAfter(cache.count, request.value.first == 0, axis.tuples, axis.lastColumn))
  }

  function AfterAll(calls: seq<PageCall>, axis: Axis): Cache {
    if calls == [] then Fresh else After(AfterAll(calls[..|calls| - 1], axis), calls[|calls| - 1], axis)
  }

  /** A call on the object is a step of the run. */
  method Call(tupleSet: TupleSet, call: PageCall, axis: Axis) returns (page: seq<Option<Tuple>>)
    requires Serving(tupleSet, axis, call.limits)
    modifies tupleSet
    ensures Serving(tupleSet, axis, call.limits)
    ensures CacheOf(tupleSet) == After(old(CacheOf(tupleSet)), call, axis)
    ensures var before := old(CacheOf(tupleSet));
      |page| == Max(0, Min(Clamped(before.count, call.count, call.offset), |axis.tuples| - call.offset))
      && page == PageOf(tupleSet.tuples, call.offset, |page|)
  {
    hide Enforced, Queried, Agrees, ToFetch, CountAfter, Consistent;
    ghost var loaded;
    page, loaded := tupleSet.GetTuples(call.count, call.offset, axis.tuples, call.limits.entries, call.limits.bytes);
  }

  lemma {:induction false} AfterIsValid(cache: Cache, call: PageCall, axis: Axis)
    requires Valid(cache, axis)
    ensures Valid(After(cache, call, axis), axis)
  {
    var request := ToFetch(cache.contents, cache.count, call.count, call.offset, call.limits.pageSize);
    hide Consistent, Agrees, ToFetch, CountAfter;
    if request.Some? {
      QueryFacts(cache.contents, axis.tuples, request.value.first, request.value.limit, axis.render,
                 call.limits.entries, call.limits.bytes);
    }
  }

  predicate CountRight(c: Count, axis: Axis) {
    c == Unknown || c == Known(|axis.tuples|)
  }

  /** The last column of the first row happens to hold the count. */
  predicate ColumnCounts(axis: Axis) {
    axis.tuples == [] || axis.lastColumn(axis.tuples[0]) == Known(|axis.tuples|)
  }

  lemma {:induction false} CountStaysRight(calls: seq<PageCall>, axis: Axis)
    requires ColumnCounts(axis)
    ensures CountRight(AfterAll(calls, axis).count, axis)
  {
    hide ToFetch, Queried, Enforced;
    if calls != [] {
      CountStaysRight(calls[..|calls| - 1], axis);
    }
  }

  lemma {:induction false} NothingFits(s: State, render: Render)
    requires Consistent(s, render)
    ensures Enforced(s, 0, 0).tuples == map[]
  {
    EnforcedKeepsTheLongestRecentRun(s, render, 0, 0);
    var r := Enforced(s, 0, 0);
    SurvivorsAreLongest(Live(s.order, s.sizes), Fits(0, 0));
    assert r.order == [];
  }

  /** A read of the start of an axis, none of which is cached, under limits that keep nothing. */
  lemma {:induction false} ReadStart(cache: Cache, axis: Axis, pageSize: nat)
    requires Valid(cache, axis) && cache.contents.tuples == map[] && axis.tuples != [] && CountRight(cache.count, axis)
    ensures var r := After(cache, PageCall(1, 0, Limits(0, 0, pageSize)), axis);
      && Valid(r, axis) && r.contents.tuples == map[]
      && r.count == if cache.count == Unknown then Known(|axis.tuples|) else axis.lastColumn(axis.tuples[0])
  {
    var s := cache.contents;
    assert Gaps(s.tuples, 0, 1) == [0] by {
      assert Gaps(s.tuples, 0, 0) == [];
    }
    var request := ToFetch(s, cache.count, 1, 0, pageSize).value;
    assert request.first == 0;
    AfterIsValid(cache, PageCall(1, 0, Limits(0, 0, pageSize)), axis);
    hide ToFetch, Consistent, Gaps, Agrees;
    LoadedKeepsConsistent(s, Fetch(axis.tuples, 0, request.limit), 0, axis.render);
    NothingFits(Queried(s, request, axis.tuples, axis.render), axis.render);
  }

  /** Reading the start of the axis twice under a limit of no tuples takes the count from the last column. */
  lemma {:induction false} ReadTwiceReadsTheColumn(axis: Axis, pageSize: nat)
    requires axis.tuples != []
    ensures var call := PageCall(1, 0, Limits(0, 0, pageSize));
      AfterAll([call, call], axis).count == axis.lastColumn(axis.tuples[0])
  {
    hide After, Valid;
    var call := PageCall(1, 0, Limits(0, 0, pageSize));
    assert [call, call][..1] == [call] && [call][..0] == [];
    assert AfterAll([], axis) == Fresh;
    var once := After(Fresh, call, axis);
    assert AfterAll([call], axis) == once;
    FreshIsValid(axis);
    ReadStart(Fresh, axis, pageSize);
    ReadStart(once, axis, pageSize);
  }

  /** The count is right after all runs of calls, under whatever limits, exactly if the axis is empty or the last
    * column of its first row happens to hold the count. */
  lemma {:induction false} CountAlwaysRightIff(axis: Axis)
    ensures (forall calls: seq<PageCall> :: CountRight(AfterAll(calls, axis).count, axis)) <==> ColumnCounts(axis)
  {
    hide AfterAll;
    if ColumnCounts(axis) {
      forall calls: seq<PageCall>
        ensures CountRight(AfterAll(calls, axis).count, axis)
      {
        CountStaysRight(calls, axis);
      }
    } else {
      ReadTwiceReadsTheColumn(axis, 0);
    }
  }

  // ---------------------------------------------------------------- what is left of what was just loaded

  /** The entries of rows that start at `offset`. */
  function Entries(rows: seq<Tuple>, offset: nat, render: Render): seq<Sized> {
    seq(|rows|, i requires 0 <= i < |rows| => Sized(offset + i, |render(offset + i, rows[i])|))
  }

  function Indices(offset: nat, n: nat): seq<nat> {
    seq(n, i requires 0 <= i < n => offset + i)
  }

  lemma {:induction false} WithoutTail(order: seq<nat>, x: nat, n: nat)
    requires n <= |order| && x !in Latest(order, n)
    ensures n <= |Without(order, x)| && Latest(Without(order, x), n) == Latest(order, n)
  {
    if |order| == n {
      assert Latest(order, n) == order;
      WithoutAbsent(order, x);
    } else {
      assert Latest(order[1..], n) == Latest(order, n);
      WithoutTail(order[1..], x, n);
    }
  }

  /** Rows that were loaded are the most recent tuples, in their order. */
  lemma {:induction false} LoadedIsLatest(s: State, rows: seq<Tuple>, offset: nat, render: Render)
    ensures var order := Loaded(s, rows, offset, render).order;
      |rows| <= |order| && Latest(order, |rows|) == Indices(offset, |rows|)
  {
    if rows != [] {
      var last := |rows| - 1;
      LoadedIsLatest(s, rows[..last], offset, render);
      var before := Loaded(s, rows[..last], offset, render).order;
      assert Loaded(s, rows, offset, render).order == Without(before, offset + last) + [offset + last];
      hide Loaded, Without;
      WithoutTail(before, offset + last, last);
      LatestSnoc(Without(before, offset + last), offset + last, last);
      assert Indices(offset, |rows|) == Indices(offset, last) + [offset + last];
    }
  }

  lemma {:induction false} LatestSnoc(order: seq<nat>, k: nat, n: nat)
    requires n <= |order|
    ensures Latest(order + [k], n + 1) == Latest(order, n) + [k]
  {
  }

  lemma {:induction false} LiveAt(order: seq<nat>, sizes: map<nat, nat>, i: nat)
    requires i < |order| && forall k :: k in order ==> k in sizes
    ensures Live(order, sizes)[i] == Sized(order[i], sizes[order[i]])
  {
    if i > 0 {
      LiveAt(order[1..], sizes, i - 1);
    }
  }

  lemma {:induction false} EntryAt(r: State, render: Render, i: nat)
    requires Consistent(r, render) && i < |r.order|
    ensures forall k :: k in r.order ==> k in r.sizes
    ensures r.order[i] in r.tuples
    ensures Live(r.order, r.sizes)[i] == Sized(r.order[i], |render(r.order[i], r.tuples[r.order[i]])|)
  {
    LiveAt(r.order, r.sizes, i);
  }

  lemma {:induction false} LoadedEntry(s: State, rows: seq<Tuple>, offset: nat, render: Render, i: nat)
    requires Consistent(s, render) && i < |rows|
    ensures var r := Loaded(s, rows, offset, render);
      && (forall k :: k in r.order ==> k in r.sizes) && |rows| <= |r.order|
      && r.order[|r.order| - |rows| + i] == offset + i
      && Live(r.order, r.sizes)[|r.order| - |rows| + i] == Sized(offset + i, |render(offset + i, rows[i])|)
  {
    hide Loaded, Consistent, Live;
    var r := Loaded(s, rows, offset, render);
    LoadedKeepsConsistent(s, rows, offset, render);
    LoadedIsLatest(s, rows, offset, render);
    LoadedContents(s, rows, offset, render, offset + i);
    assert r.order[|r.order| - |rows| + i] == Latest(r.order, |rows|)[i] == Indices(offset, |rows|)[i];
    EntryAt(r, render, |r.order| - |rows| + i);
  }

  lemma {:induction false} LoadedEntries(s: State, rows: seq<Tuple>, offset: nat, render: Render)
    requires Consistent(s, render)
    ensures var r := Loaded(s, rows, offset, render);
      && Consistent(r, render) && (forall k :: k in r.order ==> k in r.sizes) && |rows| <= |r.order|
      && Latest(Live(r.order, r.sizes), |rows|) == Entries(rows, offset, render)
  {
    hide Loaded, Live, Consistent;
    var r := Loaded(s, rows, offset, render);
    LoadedKeepsConsistent(s, rows, offset, render);
    LoadedIsLatest(s, rows, offset, render);
    OrderIsSized(r, render);
    var live, n := Live(r.order, r.sizes), |r.order| - |rows|;
    forall i | 0 <= i < |rows|
      ensures live[n + i] == Sized(offset + i, |render(offset + i, rows[i])|)
    {
      LoadedEntry(s, rows, offset, render, i);
    }
    assert live[n..] == Entries(rows, offset, render);
  }

  lemma {:induction false} OrderIsSized(r: State, render: Render)
    requires Consistent(r, render)
    ensures forall k :: k in r.order ==> k in r.sizes
  {
  }

  lemma {:induction false} WeightConcat(a: seq<Sized>, b: seq<Sized>)
    ensures Weight(a + b) == Weight(a) + Weight(b)
  {
    if a == [] {
      assert a + b == b;
    } else {
      assert (a + b)[1..] == a[1..] + b;
      WeightConcat(a[1..], b);
    }
  }

  /** What fits still does when entries go, at either end. */
  lemma {:induction false} PartFits(a: seq<Sized>, b: seq<Sized>, c: seq<Sized>, maxEntries: int, maxBytes: int)
    requires Fits(maxEntries, maxBytes)(a + b + c)
    ensures b != [] ==> Fits(maxEntries, maxBytes)(b)
  {
    WeightConcat(a, b);
    WeightConcat(a + b, c);
  }

  /** Of rows that were just loaded the first one is still cached exactly if all of them fit. */
  lemma {:induction false} FirstIsKeptIffAllFit(s: State, rows: seq<Tuple>, offset: nat, render: Render,
                                                maxEntries: int, maxBytes: int)
    requires Consistent(s, render) && rows != []
    ensures offset in Enforced(Loaded(s, rows, offset, render), maxEntries, maxBytes).tuples <==>
            Fits(maxEntries, maxBytes)(Entries(rows, offset, render))
  {
    hide Consistent, Loaded, Enforced, Fits, Live, Entries;
    var r := Loaded(s, rows, offset, render);
    LoadedEntries(s, rows, offset, render);
    LoadedIsLatest(s, rows, offset, render);
    var n := KeptFacts(r, render, maxEntries, maxBytes);
    var order, live := r.order, Live(r.order, r.sizes);
    assert order[|order| - |rows|] == offset by {
      assert order[|order| - |rows|] == Latest(order, |rows|)[0] == Indices(offset, |rows|)[0];
    }
    IsKeptIffLonger(r, Enforced(r, maxEntries, maxBytes), render, offset, |rows|);
    if |rows| <= n {
      LatestFits(live, n, |rows|, maxEntries, maxBytes);
    }
  }

  /** How much of a cache is kept by its limits: as much as fits. */
  lemma {:induction false} KeptFacts(r: State, render: Render, maxEntries: int, maxBytes: int) returns (n: nat)
    requires Consistent(r, render)
    ensures forall k :: k in r.order ==> k in r.sizes
    ensures var kept, live := Enforced(r, maxEntries, maxBytes), Live(r.order, r.sizes);
      && Consistent(kept, render) && (forall k :: k in kept.order ==> k in kept.sizes)
      && n == |kept.order| <= |r.order| && Live(kept.order, kept.sizes) == Latest(live, n)
      && (n > 0 ==> Fits(maxEntries, maxBytes)(Latest(live, n)))
      && forall m :: n < m <= |r.order| ==> !Fits(maxEntries, maxBytes)(Latest(live, m))
  {
    EnforcedKeepsTheLongestRecentRun(r, render, maxEntries, maxBytes);
    SurvivorsAreLongest(Live(r.order, r.sizes), Fits(maxEntries, maxBytes));
    n := |Enforced(r, maxEntries, maxBytes).order|;
  }

  lemma {:induction false} LatestFits(live: seq<Sized>, n: nat, m: nat, maxEntries: int, maxBytes: int)
    requires 0 < m <= n <= |live| && Fits(maxEntries, maxBytes)(Latest(live, n))
    ensures Fits(maxEntries, maxBytes)(Latest(live, m))
  {
    var all := Latest(live, n);
    assert all == all[..n - m] + Latest(live, m) + [];
    PartFits(all[..n - m], Latest(live, m), [], maxEntries, maxBytes);
  }

  /** A key is in what is left exactly if that reaches back to its place. */
  lemma {:induction false} IsKeptIffLonger(r: State, kept: State, render: Render, k: nat, m: nat)
    requires Consistent(r, render) && Consistent(kept, render) && |kept.order| <= |r.order| && 0 < m <= |r.order|
    requires Live(kept.order, kept.sizes) == Latest(Live(r.order, r.sizes), |kept.order|)
    requires r.order[|r.order| - m] == k
    ensures k in kept.tuples <==> m <= |kept.order|
  {
    var n := |kept.order|;
    forall i | 0 <= i < n
      ensures kept.order[i] == r.order[|r.order| - n + i]
    {
      LiveAt(kept.order, kept.sizes, i);
      LiveAt(r.order, r.sizes, |r.order| - n + i);
    }
    if m <= n {
      assert kept.order[n - m] == k;
    } else if k in kept.order {
      var i :| 0 <= i < n && kept.order[i] == k;
      Once(r.order, |r.order| - m, |r.order| - n + i);
    }
  }

  lemma {:induction false} Once(order: seq<nat>, i: nat, j: nat)
    requires NoDuplicates(order) && i < |order| && j < |order| && order[i] == order[j]
    ensures i == j
  {
    if i > 0 && j > 0 {
      Once(order[1..], i - 1, j - 1);
    }
  }

  // ---------------------------------------------------------------- looking up the tuple of a cell

  /** How many rows a query for the k-th tuple alone asks for. */
  function RunLength(c: Count, k: nat, pageSize: nat): nat {
    if 1 < pageSize && c.Known? && k + 1 < c.value then pageSize else 1
  }

  /** The rows that are loaded along with the k-th tuple fit the limits. */
  predicate RunFits(c: Count, k: nat, axis: Axis, limits: Limits) {
    var rows := Fetch(axis.tuples, k, RunLength(c, k, limits.pageSize));
    Fits(limits.entries, limits.bytes)(Entries(rows, k, axis.render))
  }

  /** The tuple that an axis has at an index, if there is one. */
  function TupleAt(axis: Axis, k: nat): Option<Tuple> {
    if k < |axis.tuples| then Some(axis.tuples[k]) else None
  }

  /** A tuple is found if it is cached, or if it exists and what is loaded along with it fits the limits. */
  predicate Found(cache: Cache, k: nat, axis: Axis, limits: Limits) {
    k in cache.contents.tuples
    || (axis.hasItems && k < |axis.tuples| && (cache.count.Known? ==> k < cache.count.value)
        && RunFits(cache.count, k, axis, limits))
  }

  function FoundTuple(cache: Cache, k: nat, axis: Axis, limits: Limits): Option<Tuple> {
    if Found(cache, k, axis, limits) then TupleAt(axis, k) else None
  }

  /** What a lookup leaves behind. */
  function Looked(cache: Cache, k: nat, axis: Axis, limits: Limits): Cache {
    if k in cache.contents.tuples then cache.(contents := Touch(cache.contents, k))
    else if axis.hasItems && cache.count != Known(0) then After(cache, PageCall(1, k, limits), axis)
    else cache
  }

  lemma {:induction false} SingleRequest(s: State, c: Count, k: nat, pageSize: nat)
    requires k !in s.tuples
    ensures ToFetch(s, c, 1, k, pageSize)
         == if c.Known? && k >= c.value then None else Some(Request(k, RunLength(c, k, pageSize)))
  {
    assert Gaps(s.tuples, k, 0) == [] && Gaps(s.tuples, k, 1) == [] + [k];
  }

  /** The tuple of a cell, loaded if it is not cached. */
  method TupleFor(tupleSet: TupleSet, k: nat, axis: Axis, limits: Limits) returns (tuple: Option<Tuple>)
    requires Serving(tupleSet, axis, limits)
    modifies tupleSet
    ensures Serving(tupleSet, axis, limits)
    ensures CacheOf(tupleSet) == Looked(old(CacheOf(tupleSet)), k, axis, limits)
    ensures tuple == FoundTuple(old(CacheOf(tupleSet)), k, axis, limits)
  {
    hide Consistent, Agrees, Loaded, Enforced, Fits, Entries, ToFetch, Fetch, RunLength, CountAfter;
    ghost var cache := CacheOf(tupleSet);
    TouchAgrees(cache.contents, axis.tuples, k);
    tuple := tupleSet.GetTupleSync(k);
    if tuple.None? && axis.hasItems && tupleSet.tupleCount != Known(0) {
      SingleRequest(cache.contents, cache.count, k, limits.pageSize);
      var page := Call(tupleSet, PageCall(1, k, limits), axis);
      SingleKept(cache, k, axis, limits);
      TouchAgrees(tupleSet.Contents(), axis.tuples, k);
      if page != [] {
        tuple := page[0];
      } else {
        tuple := tupleSet.GetTupleSync(k);
      }
    }
  }

  lemma {:induction false} TouchAgrees(s: State, axis: seq<Tuple>, k: nat)
    requires Agrees(s, axis)
    ensures k in s.tuples ==> k < |axis| && s.tuples[k] == axis[k]
    ensures Agrees(Touch(s, k), axis)
  {
  }

  lemma {:induction false} SingleKept(cache: Cache, k: nat, axis: Axis, limits: Limits)
    requires Valid(cache, axis) && k !in cache.contents.tuples
    ensures var request := Request(k, RunLength(cache.count, k, limits.pageSize));
            var loaded := Queried(cache.contents, request, axis.tuples, axis.render);
            var kept := Enforced(loaded, limits.entries, limits.bytes);
      k in kept.tuples <==> k < |axis.tuples| && RunFits(cache.count, k, axis, limits)
  {
    var n := RunLength(cache.count, k, limits.pageSize);
    QueryFacts(cache.contents, axis.tuples, k, n, axis.render, limits.entries, limits.bytes);
    hide Enforced, Loaded, Consistent;
    if k < |axis.tuples| {
      FirstIsKeptIffAllFit(cache.contents, Fetch(axis.tuples, k, n), k, axis.render, limits.entries, limits.bytes);
    }
  }

  lemma {:induction false} LookedIsValid(cache: Cache, k: nat, axis: Axis, limits: Limits)
    requires Valid(cache, axis)
    ensures Valid(Looked(cache, k, axis, limits), axis)
  {
    hide Consistent, Agrees, After;
    AfterIsValid(cache, PageCall(1, k, limits), axis);
    TouchAgrees(cache.contents, axis.tuples, k);
    if k in cache.contents.tuples {
      TouchKeepsConsistent(cache.contents, k, axis.render);
    }
  }

  /** Wherever a tuple is looked up, the page loaded along with it fits. */
  predicate Roomy(axis: Axis, limits: Limits) {
    forall k: nat :: k < |axis.tuples| ==> RunFits(Known(|axis.tuples|), k, axis, limits)
  }

  lemma {:induction false} EntriesPart(rows: seq<Tuple>, n: nat, offset: nat, render: Render)
    requires n <= |rows|
    ensures Entries(rows, offset, render)
         == [] + Entries(rows[..n], offset, render) + Entries(rows[n..], offset + n, render)
  {
  }

  lemma {:induction false} RoomyFits(c: Count, k: nat, axis: Axis, limits: Limits)
    requires Roomy(axis, limits) && CountRight(c, axis) && k < |axis.tuples|
    ensures RunFits(c, k, axis, limits)
  {
    assert RunFits(Known(|axis.tuples|), k, axis, limits);
    var rows := Fetch(axis.tuples, k, RunLength(Known(|axis.tuples|), k, limits.pageSize));
    var fewer := Fetch(axis.tuples, k, RunLength(c, k, limits.pageSize));
    assert fewer == rows[..|fewer|];
    EntriesPart(rows, |fewer|, k, axis.render);
    PartFits([], Entries(fewer, k, axis.render), Entries(rows[|fewer|..], k + |fewer|, axis.render), limits.entries,
             limits.bytes);
  }

  /** Every tuple of the axis is always found, whatever is cached and whether or not the axis was counted, exactly if
    * the limits have room for each page that starts at one of them. */
  lemma {:induction false} AlwaysFoundIffRoomy(axis: Axis, limits: Limits)
    requires axis.hasItems
    ensures (forall cache: Cache, k: nat ::
               Valid(cache, axis) && CountRight(cache.count, axis) && k < |axis.tuples| ==>
                 Found(cache, k, axis, limits))
            <==> Roomy(axis, limits)
  {
    if Roomy(axis, limits) {
      forall cache: Cache, k: nat | Valid(cache, axis) && CountRight(cache.count, axis) && k < |axis.tuples|
        ensures Found(cache, k, axis, limits)
      {
        RoomyFits(cache.count, k, axis, limits);
      }
    } else {
      hide RunFits;
      var k: nat :| k < |axis.tuples| && !RunFits(Known(|axis.tuples|), k, axis, limits);
      FreshIsValid(axis);
      assert !Found(Cache(Empty, Known(|axis.tuples|)), k, axis, limits);
    }
  }

  /** With room for fewer tuples than a page holds, a tuple a page before the end of its axis is not found once it was
    * evicted: the rows loaded along with it evict it again. */
  lemma {:induction false} SmallCacheLosesTuples(s: State, k: nat, axis: Axis, limits: Limits)
    requires k !in s.tuples && 1 < limits.pageSize && k + limits.pageSize <= |axis.tuples|
    requires limits.entries < limits.pageSize
    ensures !Found(Cache(s, Known(|axis.tuples|)), k, axis, limits)
  {
    assert |Entries(Fetch(axis.tuples, k, limits.pageSize), k, axis.render)| == limits.pageSize;
  }

  // ---------------------------------------------------------------- limits that hold a whole axis

  predicate Ample(axis: Axis, limits: Limits) {
    Fits(limits.entries, limits.bytes)(Entries(axis.tuples, 0, axis.render))
  }

  lemma {:induction false} EntriesSnoc(rows: seq<Tuple>, n: nat, render: Render)
    requires n < |rows|
    ensures Entries(rows[..n + 1], 0, render) == Entries(rows[..n], 0, render) + [Sized(n, |render(n, rows[n])|)]
  {
  }

  /** Cached tuples of an axis take no more room than all its tuples. */
  lemma {:induction false} PartWeighsLess(order: seq<nat>, sizes: map<nat, nat>, rows: seq<Tuple>, n: nat,
                                          render: Render)
    requires NoDuplicates(order) && n <= |rows|
    requires forall k :: k in order ==> k < n && k in sizes && sizes[k] == |render(k, rows[k])|
    ensures |order| <= n && Weight(Live(order, sizes)) <= Weight(Entries(rows[..n], 0, render))
    decreases n
  {
    assert order != [] ==> order[0] in order;
    if n > 0 {
      EntriesSnoc(rows, n - 1, render);
      WeightAppend(Entries(rows[..n - 1], 0, render), Sized(n - 1, |render(n - 1, rows[n - 1])|));
      hide Weight, Live, Entries, NoDuplicates;
      if n - 1 in order {
        WithoutNoDuplicates(order, n - 1);
        WithoutPresent(order, n - 1);
        WeightWithout(order, sizes, n - 1);
        PartWeighsLess(Without(order, n - 1), sizes, rows, n - 1, render);
      } else {
        PartWeighsLess(order, sizes, rows, n - 1, render);
      }
    }
  }

  /** Nothing is evicted if all tuples fit. */
  lemma {:induction false} AmpleKeepsAll(cache: Cache, axis: Axis, limits: Limits)
    requires Valid(cache, axis) && Ample(axis, limits)
    ensures Enforced(cache.contents, limits.entries, limits.bytes) == cache.contents
  {
    var s, rows := cache.contents, axis.tuples;
    assert rows[..|rows|] == rows;
    PartWeighsLess(s.order, s.sizes, rows, |rows|, axis.render);
    ReportedSizeIsJsonLength(s, axis.render);
  }

  lemma {:induction false} EntriesConcat(a: seq<Tuple>, b: seq<Tuple>, offset: nat, render: Render)
    ensures Entries(a + b, offset, render) == Entries(a, offset, render) + Entries(b, offset + |a|, render)
  {
    var all, parts := Entries(a + b, offset, render), Entries(a, offset, render) + Entries(b, offset + |a|, render);
    assert |all| == |parts|;
    forall i | 0 <= i < |all|
      ensures all[i] == parts[i]
    {
      if i >= |a| {
        assert (a + b)[i] == b[i - |a|];
      }
    }
  }

  lemma {:induction false} AmpleIsRoomy(axis: Axis, limits: Limits)
    requires Ample(axis, limits)
    ensures Roomy(axis, limits)
  {
    forall k: nat | k < |axis.tuples|
      ensures RunFits(Known(|axis.tuples|), k, axis, limits)
    {
      var rows := Fetch(axis.tuples, k, RunLength(Known(|axis.tuples|), k, limits.pageSize));
      var a, c := axis.tuples[..k], axis.tuples[k + |rows|..];
      assert axis.tuples == a + rows + c;
      EntriesConcat(a + rows, c, 0, axis.render);
      EntriesConcat(a, rows, 0, axis.render);
      PartFits(Entries(a, 0, axis.render), Entries(rows, k, axis.render), Entries(c, k + |rows|, axis.render),
               limits.entries, limits.bytes);
    }
  }

  /** With ample room a call loses no tuple, and has those it loaded. */
  lemma {:induction false} AmpleAfter(cache: Cache, call: PageCall, axis: Axis)
    requires Valid(cache, axis) && Ample(axis, call.limits)
    ensures var r := After(cache, call, axis);
      && (forall k :: k in cache.contents.tuples ==> k in r.contents.tuples)
      && var request := ToFetch(cache.contents, cache.count, call.count, call.offset, call.limits.pageSize);
         request.Some? ==>
           forall k :: request.value.first <= k < Min(request.value.first + request.value.limit, |axis.tuples|) ==>
             k in r.contents.tuples
  {
    var request := ToFetch(cache.contents, cache.count, call.count, call.offset, call.limits.pageSize);
    hide Consistent, Agrees, Enforced, Loaded, ToFetch, Ample;
    if request.Some? {
      var loaded := Queried(cache.contents, request.value, axis.tuples, axis.render);
      QueryFacts(cache.contents, axis.tuples, request.value.first, request.value.limit, axis.render,
                 call.limits.entries, call.limits.bytes);
      AmpleKeepsAll(Cache(loaded, cache.count), axis, call.limits);
    }
  }

  // ---------------------------------------------------------------- counts that stay

  /** Nothing is lost of the axis: it has no items and no tuples, or all its tuples fit, or each page of it does and the
    * last column happens to hold the count. */
  predicate Dependable(axis: Axis, limits: Limits) {
    if axis.hasItems then Ample(axis, limits) || (Roomy(axis, limits) && ColumnCounts(axis)) else axis.tuples == []
  }

  /** The axis is counted, and will not be counted wrongly. */
  predicate Settled(cache: Cache, axis: Axis) {
    if axis.hasItems then
      cache.count == Known(|axis.tuples|) && (ColumnCounts(axis) || 0 in cache.contents.tuples)
    else cache.count == Unknown
  }

  lemma {:induction false} SettledStays(cache: Cache, call: PageCall, axis: Axis)
    requires Valid(cache, axis) && Settled(cache, axis) && axis.hasItems && Dependable(axis, call.limits)
    ensures Settled(After(cache, call, axis), axis)
  {
    var c, s := cache.count, cache.contents;
    hide Consistent, Agrees, Enforced, Queried, Ample, Roomy;
    if Ample(axis, call.limits) {
      AmpleAfter(cache, call, axis);
    }
    GapsFacts(s.tuples, call.offset, Clamped(c, call.count, call.offset));
  }

  lemma {:induction false} SettledLooked(cache: Cache, k: nat, axis: Axis, limits: Limits)
    requires Valid(cache, axis) && Settled(cache, axis) && Dependable(axis, limits)
    ensures Settled(Looked(cache, k, axis, limits), axis)
  {
    hide After, Dependable, Valid;
    if axis.hasItems {
      SettledStays(cache, PageCall(1, k, limits), axis);
    }
  }

  /** Reading an axis from its start counts it, if it was not counted yet. */
  lemma {:induction false} StartSettles(cache: Cache, call: PageCall, axis: Axis)
    requires Valid(cache, axis) && cache.count == Unknown && 0 !in cache.contents.tuples && axis.hasItems
    requires call.offset == 0 && call.count > 0 && Dependable(axis, call.limits)
    ensures Settled(After(cache, call, axis), axis)
  {
    GapsFacts(cache.contents.tuples, 0, call.count);
    var gaps := Gaps(cache.contents.tuples, 0, call.count);
    assert 0 in gaps && gaps[0] == 0;
    var request := ToFetch(cache.contents, cache.count, call.count, call.offset, call.limits.pageSize);
    assert request.value.first == 0;
    hide Consistent, Agrees, Enforced, Queried, Ample, Roomy, ToFetch, Gaps;
    if Ample(axis, call.limits) {
      AmpleAfter(cache, call, axis);
    }
  }

  /** The axis was not read from its start yet. */
  predicate Unread(cache: Cache) {
    cache.count == Unknown && 0 !in cache.contents.tuples
  }

  /** Calls add to the cached tuples nothing but what they fetch. */
  lemma {:induction false} AfterAdds(cache: Cache, call: PageCall, axis: Axis, k: nat)
    requires Valid(cache, axis) && k in After(cache, call, axis).contents.tuples
    ensures k in cache.contents.tuples
      || (var request := ToFetch(cache.contents, cache.count, call.count, call.offset, call.limits.pageSize);
          request.Some? && request.value.first <= k < request.value.first + request.value.limit)
  {
    var request := ToFetch(cache.contents, cache.count, call.count, call.offset, call.limits.pageSize);
    hide Consistent, Agrees, Enforced, Loaded, ToFetch;
    if request.Some? {
      var r := request.value;
      QueryFacts(cache.contents, axis.tuples, r.first, r.limit, axis.render, call.limits.entries, call.limits.bytes);
      EnforcedKeepsTheLongestRecentRun(Queried(cache.contents, r, axis.tuples, axis.render), axis.render,
                                       call.limits.entries, call.limits.bytes);
      LoadedContents(cache.contents, Fetch(axis.tuples, r.first, r.limit), r.first, axis.render, k);
    }
  }

  /** Later reads leave it so. */
  lemma {:induction false} UnreadStays(cache: Cache, call: PageCall, axis: Axis)
    requires Valid(cache, axis) && Unread(cache) && call.offset > 0
    ensures Unread(After(cache, call, axis))
  {
    hide Consistent, Agrees, Enforced, Queried, ToFetch;
    if 0 in After(cache, call, axis).contents.tuples {
      AfterAdds(cache, call, axis, 0);
    }
  }

  lemma {:induction false} UnreadLooked(cache: Cache, k: nat, axis: Axis, limits: Limits)
    requires Valid(cache, axis) && Unread(cache) && k > 0
    ensures Unread(Looked(cache, k, axis, limits))
  {
    hide After, Valid;
    UnreadStays(cache, PageCall(1, k, limits), axis);
  }

  /** Then every tuple is found. */
  lemma {:induction false} SettledFinds(cache: Cache, k: nat, axis: Axis, limits: Limits)
    requires Valid(cache, axis) && Settled(cache, axis) && Dependable(axis, limits)
    ensures FoundTuple(cache, k, axis, limits) == TupleAt(axis, k)
  {
    if axis.hasItems && k < |axis.tuples| {
      if Ample(axis, limits) {
        AmpleIsRoomy(axis, limits);
      }
      RoomyFits(cache.count, k, axis, limits);
    }
  }

  // ---------------------------------------------------------------- tuples that are served

  /** Enough for looking up the tuples `asked` of an axis one after the other: all of them are cached; or there is
    * room for the pages that are loaded, and the count is right and stays right; or there are no tuples. */
  predicate Serves(cache: Cache, asked: set<nat>, axis: Axis, limits: Limits) {
    || (forall k :: k in asked ==> k in cache.contents.tuples)
    || (axis.hasItems && CountRight(cache.count, axis) && (0 in asked ==> ColumnCounts(axis)) && Roomy(axis, limits))
    || (!axis.hasItems && axis.tuples == [])
  }

  lemma {:induction false} ServesFinds(cache: Cache, asked: set<nat>, k: nat, axis: Axis, limits: Limits)
    requires Valid(cache, axis) && k in asked && Serves(cache, asked, axis, limits)
    ensures FoundTuple(cache, k, axis, limits) == TupleAt(axis, k)
  {
    hide RunFits, Roomy, Consistent;
    if k !in cache.contents.tuples && axis.hasItems && k < |axis.tuples| {
      RoomyFits(cache.count, k, axis, limits);
    }
  }

  /** A lookup changes the count only by reading the start of an uncached axis. */
  lemma {:induction false} LookedCount(cache: Cache, k: nat, axis: Axis, limits: Limits)
    ensures var r := Looked(cache, k, axis, limits);
      r.count == cache.count
      || (k == 0 && axis.hasItems && 0 !in cache.contents.tuples
          && r.count == CountAfter(cache.count, true, axis.tuples, axis.lastColumn))
    ensures k in cache.contents.tuples || !axis.hasItems ==>
      Looked(cache, k, axis, limits).count == cache.count
      && Looked(cache, k, axis, limits).contents.tuples == cache.contents.tuples
  {
    hide Enforced, Queried, CountAfter, Gaps;
    if k !in cache.contents.tuples {
      SingleRequest(cache.contents, cache.count, k, limits.pageSize);
    }
    assert CountAfter(cache.count, false, axis.tuples, axis.lastColumn) == cache.count by {
      NoCount(cache.count, axis);
    }
  }

  lemma {:induction false} NoCount(c: Count, axis: Axis)
    ensures CountAfter(c, false, axis.tuples, axis.lastColumn) == c
  {
  }

  /** A lookup of one of the tuples leaves it so for the others. */
  lemma {:induction false} ServesOn(cache: Cache, asked: set<nat>, k: nat, axis: Axis, limits: Limits)
    requires Serves(cache, asked, axis, limits) && k in asked
    ensures Serves(Looked(cache, k, axis, limits), asked, axis, limits)
  {
    LookedCount(cache, k, axis, limits);
    hide Roomy, Looked;
  }

  // ---------------------------------------------------------------- the tuples of a cell

  /** What is known of each axis: nothing where it has no such tuple. */
  type Tuples = seq<Option<Tuple>>

  /** The tuples that a cell stands for. */
  function FullTuples(axes: seq<Axis>, at: seq<nat>): Tuples
    requires |at| == |axes|
  {
    seq(|axes|, j requires 0 <= j < |axes| => TupleAt(axes[j], at[j]))
  }

  function AllFound(caches: seq<Cache>, at: seq<nat>, axes: seq<Axis>, limits: seq<Limits>): Tuples
    requires |caches| == |at| == |axes| == |limits|
  {
    seq(|axes|, j requires 0 <= j < |axes| => FoundTuple(caches[j], at[j], axes[j], limits[j]))
  }

  function AllLooked(caches: seq<Cache>, at: seq<nat>, axes: seq<Axis>, limits: seq<Limits>): seq<Cache>
    requires |caches| == |at| == |axes| == |limits|
  {
    seq(|axes|, j requires 0 <= j < |axes| => Looked(caches[j], at[j], axes[j], limits[j]))
  }

  function AllCaches(tupleSets: seq<TupleSet>): seq<Cache>
    reads tupleSets
  {
    seq(|tupleSets|, j requires 0 <= j < |tupleSets| reads tupleSets => CacheOf(tupleSets[j]))
  }

  ghost predicate AllServing(tupleSets: seq<TupleSet>, axes: seq<Axis>, limits: seq<Limits>)
    reads tupleSets
  {
    |axes| == |tupleSets| == |limits| && forall j :: 0 <= j < |axes| ==> Serving(tupleSets[j], axes[j], limits[j])
  }

  predicate Distinct(tupleSets: seq<TupleSet>) {
    forall i, j :: 0 <= i < j < |tupleSets| ==> tupleSets[i] != tupleSets[j]
  }

  /** The tuples of a cell, axis by axis; nothing where an axis has none or it is not found. */
  method TuplesForCell(tupleSets: seq<TupleSet>, at: seq<nat>, axes: seq<Axis>, limits: seq<Limits>)
    returns (tuples: Tuples)
    requires AllServing(tupleSets, axes, limits) && Distinct(tupleSets) && |at| == |axes|
    modifies tupleSets
    ensures AllServing(tupleSets, axes, limits)
    ensures AllCaches(tupleSets) == AllLooked(old(AllCaches(tupleSets)), at, axes, limits)
    ensures tuples == AllFound(old(AllCaches(tupleSets)), at, axes, limits)
  {
    hide Serving, Found, Looked;
    tuples := [];
    for j := 0 to |at|
      invariant AllServing(tupleSets, axes, limits) && |tuples| == j
      invariant forall i :: 0 <= i < j ==>
        && tuples[i] == FoundTuple(old(CacheOf(tupleSets[i])), at[i], axes[i], limits[i])
        && CacheOf(tupleSets[i]) == Looked(old(CacheOf(tupleSets[i])), at[i], axes[i], limits[i])
      invariant forall i :: j <= i < |at| ==> unchanged(tupleSets[i])
    {
      hide CacheOf, FoundTuple;
      var tuple := TupleFor(tupleSets[j], at[j], axes[j], limits[j]);
      tuples := tuples + [tuple];
    }
  }

  /** Every axis serves the tuples asked of it. */
  predicate Served(caches: seq<Cache>, asked: seq<set<nat>>, axes: seq<Axis>, limits: seq<Limits>) {
    |caches| == |axes| == |asked| == |limits|
    && forall j :: 0 <= j < |axes| ==> Serves(caches[j], asked[j], axes[j], limits[j])
  }

  ghost predicate AllValid(caches: seq<Cache>, axes: seq<Axis>) {
    |caches| == |axes| && forall j :: 0 <= j < |axes| ==> Valid(caches[j], axes[j])
  }

  /** Then a cell's tuples are found, and those of the next one still will be. */
  lemma {:induction false} ServedFinds(caches: seq<Cache>, asked: seq<set<nat>>, at: seq<nat>, axes: seq<Axis>,
                                       limits: seq<Limits>)
    requires Served(caches, asked, axes, limits) && AllValid(caches, axes)
    requires |at| == |axes| && forall j :: 0 <= j < |at| ==> at[j] in asked[j]
    ensures AllFound(caches, at, axes, limits) == FullTuples(axes, at)
    ensures Served(AllLooked(caches, at, axes, limits), asked, axes, limits)
    ensures AllValid(AllLooked(caches, at, axes, limits), axes)
  {
    hide Serves, Valid, FoundTuple, Looked, TupleAt;
    forall j | 0 <= j < |axes|
      ensures FoundTuple(caches[j], at[j], axes[j], limits[j]) == TupleAt(axes[j], at[j])
      ensures Serves(Looked(caches[j], at[j], axes[j], limits[j]), asked[j], axes[j], limits[j])
      ensures Valid(Looked(caches[j], at[j], axes[j], limits[j]), axes[j])
    {
      ServesFinds(caches[j], asked[j], at[j], axes[j], limits[j]);
      ServesOn(caches[j], asked[j], at[j], axes[j], limits[j]);
      LookedIsValid(caches[j], at[j], axes[j], limits[j]);
    }
  }
}
