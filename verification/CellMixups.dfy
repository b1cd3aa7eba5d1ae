/** Sessions of getCells calls, src/DataSet/CellSet.js, in which cells are taken for others.
  *
  * In each of them a cell is cached under a number that another cell has later: because the columns were counted in
  * between, because they were counted wrongly, or because a cell without any tuple is known as number 0. The axes are
  * of any tuples, and the limits of the tuple sets hold all of these except where a smaller one is the point.
  */
module CellMixups {
  import opened ClientCache
  import opened Options
  import Recency
  import opened TupleCache
  import opened TupleLookup
  import opened CellRuns
  import opened CellSession
  import CellCache
  import CellNumbering

  const Sum: seq<Measure> := ["sum"]

  /** A request for one measure. */
  function Ask(ranges: seq<Range>, limits: seq<Limits>, kept: set<nat>): CellRequest {
    CellRequest(ranges, Sum, limits, Sum, kept)
  }

  lemma {:induction false} AsksFetch(requests: seq<CellRequest>, axes: seq<Axis>, engine: Engine)
    requires AllShaped(requests, axes)
    requires forall request :: request in requests ==> request.measures == Sum == request.fetch
    ensures AllFetch(requests, axes, engine)
  {
    hide Session, CellCache.Complete, Fetches;
    forall i | 0 <= i < |requests|
      ensures Fetches(CellsAt(requests, i, axes, engine), CallAt(requests, i, axes, engine))
    {
      assert requests[i] in requests;
      FetchesAll(CellsAt(requests, i, axes, engine), CallAt(requests, i, axes, engine));
    }
  }

  // ---------------------------------------------------------------- columns that are counted later

  ghost predicate AllUnread(caches: seq<Cache>, axes: seq<Axis>) {
    |caches| == |axes| && forall j :: 0 <= j < |axes| ==> Valid(caches[j], axes[j]) && Unread(caches[j])
  }

  predicate AllAmple(axes: seq<Axis>, limits: seq<Limits>) {
    |axes| == |limits| && forall j :: 0 <= j < |axes| ==> axes[j].hasItems && Ample(axes[j], limits[j])
  }

  function UnreadSets(axes: seq<Axis>): seq<CellNumbering.TupleSet> {
    seq(|axes|, j requires 0 <= j < |axes| => CellNumbering.TupleSet(Unknown, axes[j].hasItems))
  }

  lemma {:induction false} PreloadUnread(caches: seq<Cache>, ranges: seq<Range>, axes: seq<Axis>, limits: seq<Limits>)
    requires AllUnread(caches, axes) && |ranges| == |limits| == |axes|
    requires forall j :: 0 <= j < |axes| ==> ranges[j].from > 0
    ensures AllUnread(AllPreloaded(caches, ranges, axes, limits), axes)
    ensures SetsOf(AllPreloaded(caches, ranges, axes, limits), axes) == UnreadSets(axes)
  {
    hide Valid, After;
    forall j | 0 <= j < |axes|
      ensures Valid(Preloaded(caches[j], ranges[j], axes[j], limits[j]), axes[j])
      ensures Unread(Preloaded(caches[j], ranges[j], axes[j], limits[j]))
    {
      var call := PageCall(CountOf(ranges[j]), ranges[j].from, limits[j]);
      AfterIsValid(caches[j], call, axes[j]);
      UnreadStays(caches[j], call, axes[j]);
    }
  }

  /** The cell is numbered as if no axis were counted, and its tuples are found. */
  ghost predicate UnreadLookup(x: Lookup, cells: map<nat, CellCache.Cell>, measures: seq<Measure>, axes: seq<Axis>) {
    x.sets == UnreadSets(axes) && FoundLookup(x, cells, measures, axes)
  }

  lemma {:induction false} LoopUnread(all: seq<seq<nat>>, caches: seq<Cache>, cells: map<nat, CellCache.Cell>,
                                      axes: seq<Axis>, measures: seq<Measure>, limits: seq<Limits>)
    requires AllUnread(caches, axes) && AllAmple(axes, limits) && AllSized(all, |axes|)
    requires forall at, j :: at in all && 0 <= j < |at| ==> at[j] > 0
    ensures var r := Loop(all, caches, cells, axes, measures, limits);
      AllUnread(r.1, axes) && forall x :: x in r.0 ==> UnreadLookup(x, cells, measures, axes)
  {
    assert |caches| == |axes| == |limits|;
    if all == [] {
      assert Loop([], caches, cells, axes, measures, limits) == ([], caches);
    } else {
      hide AllUnread, AllAmple, UnreadLookup, Turn, Loop;
      var init, last := all[..|all| - 1], all[|all| - 1];
      assert last in all && forall at :: at in init ==> at in all;
      LoopUnread(init, caches, cells, axes, measures, limits);
      var before := Loop(init, caches, cells, axes, measures, limits);
      LoopStep(all, caches, cells, axes, measures, limits);
      TurnUnread(last, before.1, cells, axes, measures, limits);
      var turn := Turn(last, before.1, cells, axes, measures, limits);
      assert forall x :: x in before.0 + [turn.0] <==> x in before.0 || x == turn.0;
    }
  }

  lemma {:induction false} TurnUnread(at: seq<nat>, caches: seq<Cache>, cells: map<nat, CellCache.Cell>,
                                      axes: seq<Axis>, measures: seq<Measure>, limits: seq<Limits>)
    requires AllUnread(caches, axes) && AllAmple(axes, limits) && |at| == |axes|
    requires forall j :: 0 <= j < |at| ==> at[j] > 0
    ensures var r := Turn(at, caches, cells, axes, measures, limits);
      AllUnread(r.1, axes) && UnreadLookup(r.0, cells, measures, axes)
  {
    assert SetsOf(caches, axes) == UnreadSets(axes);
    hide Valid, Looked, Found, CellCache.Complete, Ample;
    forall j | 0 <= j < |axes|
      ensures Valid(Looked(caches[j], at[j], axes[j], limits[j]), axes[j])
      ensures Unread(Looked(caches[j], at[j], axes[j], limits[j]))
      ensures FoundTuple(caches[j], at[j], axes[j], limits[j]) == TupleAt(axes[j], at[j])
    {
      UnreadLooked(caches[j], at[j], axes[j], limits[j]);
      LookedIsValid(caches[j], at[j], axes[j], limits[j]);
      UnreadFinds(caches[j], at[j], axes[j], limits[j]);
    }
    hide FoundTuple, TupleAt, Unread;
    assert AllFound(caches, at, axes, limits) == FullTuples(axes, at);
  }

  /** A request that reads no axis from its start, before any is counted. */
  lemma {:induction false} UnreadRequest(world: World, request: CellRequest, axes: seq<Axis>)
    requires Shaped(world, request, axes) && AllUnread(world.caches, axes) && AllAmple(axes, request.limits)
    requires forall j :: 0 <= j < |axes| ==> request.ranges[j].from > 0
    ensures var r, all := LoopOf(world, request, axes), Enumerated(world, request, axes);
      && AllUnread(r.1, axes)
      && (forall x :: x in r.0 ==> UnreadLookup(x, world.cells, request.measures, axes) && x.at in all)
      && forall at :: at in all ==> exists x :: x in r.0 && x.at == at
  {
    var caches := AllPreloaded(world.caches, request.ranges, axes, request.limits);
    PreloadUnread(world.caches, request.ranges, axes, request.limits);
    var all := Enumerated(world, request, axes);
    forall at, j | at in all && 0 <= j < |at|
      ensures at[j] > 0
    {
      CellNumbering.EnumeratedIffOffered(SetsOf(caches, axes), request.ranges, at);
    }
    hide AllUnread, AllPreloaded, AllAmple, Enumerated, Loop, UnreadLookup;
    LoopUnread(all, caches, world.cells, axes, request.measures, request.limits);
    LoopMembers(all, caches, world.cells, axes, request.measures, request.limits);
  }

  lemma {:induction false} UnreadFinds(cache: Cache, k: nat, axis: Axis, limits: Limits)
    requires Valid(cache, axis) && Unread(cache) && axis.hasItems && Ample(axis, limits)
    ensures FoundTuple(cache, k, axis, limits) == TupleAt(axis, k)
  {
    AmpleIsRoomy(axis, limits);
    if k < |axis.tuples| {
      RoomyFits(cache.count, k, axis, limits);
    }
  }

  /** Rows and columns, two and four tuples of them, under limits that hold them all. */
  predicate TwoByFour(axes: seq<Axis>, limits: seq<Limits>) {
    |axes| == |limits| == 2 && AllAmple(axes, limits) && |axes[0].tuples| == 2 && |axes[1].tuples| == 4
  }

  /** Row 1 by columns 1 and 2, before anything is counted. */
  const LaterRanges: seq<Range> := [CellNumbering.Range(1, 2), CellNumbering.Range(1, 3)]

  /** Everything. */
  const FullRanges: seq<Range> := [CellNumbering.Range(0, 2), CellNumbering.Range(0, 4)]

  lemma {:induction false} LaterCoordinates(sets: seq<CellNumbering.TupleSet>)
    requires |sets| == 2 && !CellNumbering.Limit(sets[0]).Known? && !CellNumbering.Limit(sets[1]).Known?
    ensures forall at :: at in CellNumbering.Coordinates(sets, LaterRanges) <==> at == [1, 1] || at == [1, 2]
  {
    forall at: seq<nat>
      ensures at in CellNumbering.Coordinates(sets, LaterRanges) <==> at == [1, 1] || at == [1, 2]
    {
      CellNumbering.EnumeratedIffOffered(sets, LaterRanges, at);
      assert |at| == 2 ==> at == [at[0], at[1]];
    }
  }

  lemma {:induction false} TwoIndex(sets: seq<CellNumbering.TupleSet>, at: seq<nat>)
    requires |sets| == |at| == 2
    ensures CellNumbering.Index(sets, at) == at[0] * CellNumbering.Radix(sets[1]) + at[1]
  {
    assert sets[1..][1..] == [] && at[1..][1..] == [];
    assert CellNumbering.Product([]) == 1 && CellNumbering.Index([], []) == 0;
    assert CellNumbering.Product(sets[1..]) == CellNumbering.Radix(sets[1]);
  }

  /** The first call. */
  function LaterRequest(limits: seq<Limits>): CellRequest {
    Ask(LaterRanges, limits, {NameOf(2)})
  }

  /** A lookup of the first call: of a cell at row 1, under a number by which no axis is counted. */
  ghost predicate LaterLookup(x: Lookup, axes: seq<Axis>) {
    (x.at == [1, 1] || x.at == [1, 2]) && Name(x) == NameOf(x.at[0] + x.at[1]) && FoundLookup(x, map[], Sum, axes)
  }

  lemma {:induction false} LaterLookups(axes: seq<Axis>, limits: seq<Limits>)
    requires TwoByFour(axes, limits)
    ensures var r := LoopOf(Start(axes), LaterRequest(limits), axes);
      AllUnread(r.1, axes) && (forall x :: x in r.0 ==> LaterLookup(x, axes)) && exists x :: x in r.0 && x.at == [1, 1]
  {
    hide LoopOf, Enumerated, LaterLookup, UnreadLookup, AllUnread, AllAmple, NameOf;
    LaterStart(axes);
    UnreadRequest(Start(axes), LaterRequest(limits), axes);
    LaterCells(axes, limits);
    var lookups := LoopOf(Start(axes), LaterRequest(limits), axes).0;
    var all := Enumerated(Start(axes), LaterRequest(limits), axes);
    assert [1, 1] in all;
    forall x | x in lookups
      ensures LaterLookup(x, axes)
    {
      assert x.at in all;
      UnreadIsLater(x, axes);
    }
  }

  lemma {:induction false} LaterStart(axes: seq<Axis>)
    ensures AllUnread(Start(axes).caches, axes)
  {
    forall j | 0 <= j < |axes|
      ensures Valid(Fresh, axes[j])
    {
      FreshIsValid(axes[j]);
    }
  }

  lemma {:induction false} UnreadIsLater(x: Lookup, axes: seq<Axis>)
    requires |axes| == 2 && UnreadLookup(x, map[], Sum, axes) && (x.at == [1, 1] || x.at == [1, 2])
    ensures LaterLookup(x, axes)
  {
    TwoIndex(x.sets, x.at);
  }

  /** The cells of the first call, of which no axis is counted. */
  lemma {:induction false} LaterCells(axes: seq<Axis>, limits: seq<Limits>)
    requires TwoByFour(axes, limits)
    ensures forall at :: at in Enumerated(Start(axes), LaterRequest(limits), axes) <==> at == [1, 1] || at == [1, 2]
  {
    LaterStart(axes);
    PreloadUnread(Start(axes).caches, LaterRanges, axes, limits);
    LaterCoordinates(UnreadSets(axes));
  }

  lemma {:induction false} LaterCallIsOwned(axes: seq<Axis>, limits: seq<Limits>, lookups: seq<Lookup>)
    requires TwoByFour(axes, limits) && forall x :: x in lookups ==> LaterLookup(x, axes)
    ensures OnAxes(lookups, 2) && OneCellPerName(lookups, axes) && HaveTuples(lookups, axes)
    ensures FoundWhenAsked(map[], lookups, Sum, axes)
  {
    hide CellCache.Complete, Name;
    forall x | x in lookups
      ensures |x.at| == 2 && Wanted(axes, x.at).Some?
    {
      assert FullTuples(axes, x.at)[0] == TupleAt(axes[0], 1);
    }
  }

  /** The first call caches the cell at (1, 1) under number 2. */
  lemma {:induction false} LaterCall(axes: seq<Axis>, limits: seq<Limits>, engine: Engine)
    requires TwoByFour(axes, limits)
    ensures var after := Next(Start(axes), LaterRequest(limits), axes, engine);
      AllUnread(after.caches, axes) && Cached(after.cells, NameOf(2), engine(FullTuples(axes, [1, 1]), "sum"))
  {
    LaterLookups(axes, limits);
    LaterCallIsOwned(axes, limits, LoopOf(Start(axes), LaterRequest(limits), axes).0);
    hide LaterLookup, LoopOf, TwoByFour, AllUnread, FoundWhenAsked, HaveTuples, OneCellPerName, ResultOf, CellsAfter;
    var call := CallOf(Start(axes), LaterRequest(limits), axes);
    FetchesAll(map[], call);
    var own := (k: nat) => OwnerOf(call.lookups, axes, k);
    OwnersOwn(call.lookups, axes);
    CallIsRight(map[], call, axes, own, engine);
    var x :| x in call.lookups && x.at == [1, 1];
    assert RightFor(x, ResultOf(map[], call, 2, engine), Sum, axes, engine);
    assert "sum" in Sum;
    ReturnedIsMerged(map[], call, 2, engine, NameOf(2));
  }

  /** The second call, which counts the axes. */
  function FullRequest(limits: seq<Limits>): CellRequest {
    Ask(FullRanges, limits, {})
  }

  lemma {:induction false} FullLookup(world: World, axes: seq<Axis>, limits: seq<Limits>) returns (x: Lookup)
    requires TwoByFour(axes, limits) && AllUnread(world.caches, axes)
    ensures x in LoopOf(world, FullRequest(limits), axes).0 && x.at == [0, 2] && Name(x) == NameOf(2)
  {
    forall j | 0 <= j < 2
      ensures Dependable(axes[j], limits[j]) && Settling(world.caches[j], FullRanges[j], axes[j])
    {
    }
    var sets := SettledSets(axes);
    assert [0, 2] in CellNumbering.Coordinates(sets, FullRanges) by {
      CellNumbering.EnumeratedIffOffered(sets, FullRanges, [0, 2]);
    }
    hide LoopOf, TwoByFour, AllUnread, CellNumbering.Coordinates;
    LookupsAreSettled(world, FullRequest(limits), axes);
    x :| x in LoopOf(world, FullRequest(limits), axes).0 && x.at == [0, 2];
    TwoIndex(x.sets, x.at);
  }

  lemma {:induction false} TwoRequests(a: CellRequest, b: CellRequest, axes: seq<Axis>, engine: Engine)
    requires AllShaped([a, b], axes) && Shaped(Start(axes), a, axes)
    ensures Session([a, b][..1], axes, engine) == Next(Start(axes), a, axes, engine)
  {
    hide Next;
    assert [a, b][..1] == [a] && [a][..0] == [];
    assert Session([], axes, engine) == Start(axes);
    assert a in [a] && Session([a], axes, engine) == Next(Session([a][..0], axes, engine), a, axes, engine);
  }

  /** Two rows, four columns. Cells of row 1 are read from column 1 on, before the columns are counted: cell (1, 1) has
    * number 2. Then everything is read, and with it the columns are counted: cell (0, 2) has number 2, is taken to be
    * cached, and gets the value of cell (1, 1). */
  lemma {:induction false} CountingMixesUpCells(axes: seq<Axis>, limits: seq<Limits>, engine: Engine)
    requires TwoByFour(axes, limits)
    ensures var requests := [LaterRequest(limits), FullRequest(limits)];
      && AllShaped(requests, axes) && AllFetch(requests, axes, engine)
      && var call, cells := CallAt(requests, 1, axes, engine), CellsAt(requests, 1, axes, engine);
      && (exists x :: x in call.lookups && x.at == [0, 2] && Name(x) == NameOf(2))
      && Cached(ResultOf(cells, call, 2, engine), NameOf(2), engine(FullTuples(axes, [1, 1]), "sum"))
      && (engine(FullTuples(axes, [1, 1]), "sum") != engine(FullTuples(axes, [0, 2]), "sum") ==>
            !RightAt(requests, 1, axes, engine))
  {
    var a, b := LaterRequest(limits), FullRequest(limits);
    var requests := [a, b];
    assert AllShaped(requests, axes);
    AsksFetch(requests, axes, engine);
    TwoRequests(a, b, axes, engine);
    LaterCall(axes, limits, engine);
    var world := Next(Start(axes), a, axes, engine);
    var x := FullLookup(world, axes, limits);
    hide LoopOf, TwoByFour, AllUnread, Next, Session, LaterRequest, ResultOf, FullTuples, AllFetch;
    ServedWrong(world, b, axes, engine, x, engine(FullTuples(axes, [1, 1]), "sum"));
  }

  /** A cell that is cached under the name of another one is served for it. */
  lemma {:induction false} ServedWrong(world: World, request: CellRequest, axes: seq<Axis>, engine: Engine, x: Lookup,
                                       value: string)
    requires Shaped(world, request, axes) && request.measures == Sum
    requires x in LoopOf(world, request, axes).0 && |x.at| == |axes| && Name(x) != 0
    requires Cached(world.cells, Name(x), value)
    ensures var result := ResultOf(world.cells, CallOf(world, request, axes), |axes|, engine);
      Cached(result, Name(x), value)
      && (value != engine(FullTuples(axes, x.at), "sum") ==> !RightFor(x, result, Sum, axes, engine))
  {
    hide LoopOf, ResultOf;
    var call := CallOf(world, request, axes);
    NameIn(call.lookups, x);
    CompleteIsServed(world.cells, call, |axes|, engine, Name(x));
    assert "sum" in Sum;
  }

  // ---------------------------------------------------------------- columns that are counted wrongly

  /** What a loop keeps of one axis, if each of its lookups does. */
  lemma {:induction false} LoopKeeps(all: seq<seq<nat>>, caches: seq<Cache>, cells: map<nat, CellCache.Cell>,
                                     axes: seq<Axis>, measures: seq<Measure>, limits: seq<Limits>, j: nat,
                                     inv: Cache -> bool, count: Count)
    requires |caches| == |axes| == |limits| && AllSized(all, |axes|) && j < |axes| && inv(caches[j])
    requires forall cache: Cache :: inv(cache) ==> cache.count == count
    requires forall at, cache: Cache :: at in all && inv(cache) ==> inv(Looked(cache, at[j], axes[j], limits[j]))
    ensures var r := Loop(all, caches, cells, axes, measures, limits);
      inv(r.1[j]) && forall x :: x in r.0 ==> |x.sets| == |axes| && x.sets[j].count == count
  {
    if all != [] {
      var init, last := all[..|all| - 1], all[|all| - 1];
      assert last in all && forall at :: at in init ==> at in all;
      LoopKeeps(init, caches, cells, axes, measures, limits, j, inv, count);
      LoopStep(all, caches, cells, axes, measures, limits);
      hide Loop, Looked, CellCache.Complete, FoundTuple;
      var before := Loop(init, caches, cells, axes, measures, limits);
      var turn := Turn(last, before.1, cells, axes, measures, limits);
      assert forall x :: x in before.0 + [turn.0] <==> x in before.0 || x == turn.0;
    }
  }

  /** With ample room, lookups keep the start of an axis cached, and so its count. */
  predicate Pinned(cache: Cache, count: Count) {
    cache.count == count && 0 in cache.contents.tuples
  }

  lemma {:induction false} PinnedLooked(cache: Cache, k: nat, axis: Axis, limits: Limits, count: Count)
    requires Valid(cache, axis) && Pinned(cache, count) && Ample(axis, limits)
    ensures Valid(Looked(cache, k, axis, limits), axis) && Pinned(Looked(cache, k, axis, limits), count)
  {
    hide Valid, After, Ample;
    LookedIsValid(cache, k, axis, limits);
    LookedCount(cache, k, axis, limits);
    AmpleAfter(cache, PageCall(1, k, limits), axis);
  }

  lemma {:induction false} LoopPins(all: seq<seq<nat>>, caches: seq<Cache>, cells: map<nat, CellCache.Cell>,
                                    axes: seq<Axis>, measures: seq<Measure>, limits: seq<Limits>, j: nat, count: Count)
    requires |caches| == |axes| == |limits| && AllSized(all, |axes|) && j < |axes|
    requires Valid(caches[j], axes[j]) && Pinned(caches[j], count) && Ample(axes[j], limits[j])
    ensures var r := Loop(all, caches, cells, axes, measures, limits);
      && Valid(r.1[j], axes[j]) && Pinned(r.1[j], count)
      && forall x :: x in r.0 ==> |x.sets| == |axes| && x.sets[j].count == count
  {
    var inv: Cache -> bool := cache => Valid(cache, axes[j]) && Pinned(cache, count);
    forall at, cache: Cache | at in all && inv(cache)
      ensures inv(Looked(cache, at[j], axes[j], limits[j]))
    {
      PinnedLooked(cache, at[j], axes[j], limits[j], count);
    }
    hide Valid, Ample, Looked, Loop;
    LoopKeeps(all, caches, cells, axes, measures, limits, j, inv, count);
  }

  /** Lookups of cached tuples change nothing but their order. */
  lemma {:induction false} LoopTouches(all: seq<seq<nat>>, caches: seq<Cache>, cells: map<nat, CellCache.Cell>,
                                       axes: seq<Axis>, measures: seq<Measure>, limits: seq<Limits>, j: nat)
    requires |caches| == |axes| == |limits| && AllSized(all, |axes|) && j < |axes| && Valid(caches[j], axes[j])
    requires forall at :: at in all ==> at[j] in caches[j].contents.tuples
    ensures var r := Loop(all, caches, cells, axes, measures, limits);
      && Valid(r.1[j], axes[j]) && r.1[j].contents.tuples == caches[j].contents.tuples
      && r.1[j].count == caches[j].count
      && forall x :: x in r.0 ==> |x.sets| == |axes| && x.sets[j].count == caches[j].count
  {
    var tuples, count := caches[j].contents.tuples, caches[j].count;
    var inv: Cache -> bool :=
      cache => Valid(cache, axes[j]) && cache.contents.tuples == tuples && cache.count == count;
    forall at, cache: Cache | at in all && inv(cache)
      ensures inv(Looked(cache, at[j], axes[j], limits[j]))
    {
      LookedIsValid(cache, at[j], axes[j], limits[j]);
      LookedCount(cache, at[j], axes[j], limits[j]);
    }
    hide Valid, Looked, Loop;
    LoopKeeps(all, caches, cells, axes, measures, limits, j, inv, count);
  }

  /** Reading the first tuples of a fresh axis. */
  lemma {:induction false} FreshStart(axis: Axis, n: nat, limits: Limits)
    requires axis.hasItems && Ample(axis, limits) && 0 < n <= |axis.tuples|
    ensures var r := After(Fresh, PageCall(n, 0, limits), axis);
      && Valid(r, axis) && r.count == Known(|axis.tuples|) && forall k: nat :: k in r.contents.tuples <==> k < n
  {
    hide Enforced, Queried, ToFetch, Consistent, Agrees, Ample;
    var call := PageCall(n, 0, limits);
    FreshIsValid(axis);
    FreshRequest(n, limits.pageSize);
    var r := After(Fresh, call, axis);
    assert r.count == Known(|axis.tuples|);
    AfterIsValid(Fresh, call, axis);
    AmpleAfter(Fresh, call, axis);
    hide After;
    assert Fresh.contents == Empty && Min(0 + n, |axis.tuples|) == n;
    forall k: nat | k < n
      ensures k in r.contents.tuples
    {
    }
    forall k | k in r.contents.tuples
      ensures k < n
    {
      AfterAdds(Fresh, call, axis, k);
    }
  }

  lemma {:induction false} FreshRequest(n: nat, pageSize: nat)
    requires n > 0
    ensures ToFetch(Empty, Unknown, n, 0, pageSize) == Some(TupleCache.Request(0, n))
  {
    GapsFacts(map[], 0, n);
    var gaps := Gaps(map[], 0, n);
    assert 0 in gaps && n - 1 in gaps;
  }

  /** A call for tuples that are cached does nothing. */
  lemma {:induction false} CachedCall(cache: Cache, call: PageCall, axis: Axis)
    requires forall k :: call.offset <= k < call.offset + call.count ==> k in cache.contents.tuples
    ensures After(cache, call, axis) == cache
  {
    var n := Clamped(cache.count, call.count, call.offset);
    GapsFacts(cache.contents.tuples, call.offset, n);
    var gaps := Gaps(cache.contents.tuples, call.offset, n);
    assert forall i :: 0 <= i < |gaps| ==> gaps[i] in gaps;
  }

  /** Under a limit of one tuple, loading a single one leaves no other. */
  lemma {:induction false} NarrowAfter(cache: Cache, k: nat, axis: Axis, limits: Limits)
    requires Valid(cache, axis) && limits.entries == 1 && k < |axis.tuples| && k !in cache.contents.tuples
    requires cache.count == Known(|axis.tuples|) && k + 1 == |axis.tuples| && k > 0
    ensures var r := After(cache, PageCall(1, k, limits), axis);
      Valid(r, axis) && r.count == cache.count && forall i :: i in r.contents.tuples ==> i == k
  {
    var s, rows := cache.contents, Fetch(axis.tuples, k, 1);
    SingleRequest(s, cache.count, k, limits.pageSize);
    AfterIsValid(cache, PageCall(1, k, limits), axis);
    assert rows == [axis.tuples[k]];
    hide Valid, ToFetch;
    OnlyLastIsKept(s, rows, k, axis.render, limits.bytes);
  }

  lemma {:induction false} OnlyLastIsKept(s: State, rows: seq<Tuple>, k: nat, render: Render, maxBytes: int)
    requires Consistent(s, render) && |rows| == 1
    ensures forall i :: i in Enforced(Loaded(s, rows, k, render), 1, maxBytes).tuples ==> i == k
  {
    hide Enforced, Loaded, Live, Consistent;
    var r := Loaded(s, rows, k, render);
    var kept := Enforced(r, 1, maxBytes);
    LoadedEntries(s, rows, k, render);
    var n := KeptFacts(r, render, 1, maxBytes);
    OrderIsKeys(kept, render);
    if kept.order != [] {
      var live := Live(r.order, r.sizes);
      assert n == 1 && Recency.Latest(live, 1) == Entries(rows, k, render);
      assert Live(kept.order, kept.sizes)[0] == Entries(rows, k, render)[0];
      LiveAt(kept.order, kept.sizes, 0);
    }
  }

  lemma {:induction false} OrderIsKeys(s: State, render: Render)
    requires Consistent(s, render)
    ensures forall k :: k in s.tuples <==> k in s.order
  {
  }

  /** Reading an axis again from a start that was evicted takes the count from the last column. */
  lemma {:induction false} StartAgain(cache: Cache, n: nat, axis: Axis, limits: Limits)
    requires Valid(cache, axis) && Ample(axis, limits) && 0 < n <= |axis.tuples|
    requires cache.count == Known(|axis.tuples|) && 0 !in cache.contents.tuples
    ensures var r := After(cache, PageCall(n, 0, limits), axis);
      Valid(r, axis) && Pinned(r, axis.lastColumn(axis.tuples[0]))
  {
    var call := PageCall(n, 0, limits);
    GapsFacts(cache.contents.tuples, 0, n);
    var gaps := Gaps(cache.contents.tuples, 0, n);
    assert 0 in gaps && gaps[0] == 0;
    var request := ToFetch(cache.contents, cache.count, n, 0, limits.pageSize);
    assert request.value.first == 0 && request.value.limit > 0;
    AfterIsValid(cache, call, axis);
    AmpleAfter(cache, call, axis);
    hide Enforced, Queried, ToFetch, Valid;
  }

  /** Two rows and four columns, the first of which has a 2 in its last column; limits that hold everything, and limits
    * that hold a single column. */
  predicate Miscounted(axes: seq<Axis>, wide: seq<Limits>, narrow: seq<Limits>) {
    && TwoByFour(axes, wide) && axes[1].lastColumn(axes[1].tuples[0]) == Known(2)
    && |wide| == |narrow| == |axes| == 2 && narrow[1].entries == 1
  }

  const ThreeColumns: seq<Range> := [CellNumbering.Range(0, 2), CellNumbering.Range(0, 3)]
  const LastColumn: seq<Range> := [CellNumbering.Range(0, 1), CellNumbering.Range(3, 4)]
  const TwoColumns: seq<Range> := [CellNumbering.Range(0, 2), CellNumbering.Range(0, 2)]

  function FirstAsk(limits: seq<Limits>): CellRequest {
    Ask(ThreeColumns, limits, {NameOf(2)})
  }

  function SecondAsk(limits: seq<Limits>): CellRequest {
    Ask(LastColumn, limits, {NameOf(2)})
  }

  function ThirdAsk(limits: seq<Limits>): CellRequest {
    Ask(TwoColumns, limits, {})
  }

  /** Three columns are cached. */
  ghost predicate ThreeCached(caches: seq<Cache>, axes: seq<Axis>) {
    && |caches| == |axes| == 2 && Valid(caches[0], axes[0]) && Pinned(caches[0], Known(2))
    && Valid(caches[1], axes[1]) && caches[1].count == Known(4) && forall k :: k in caches[1].contents.tuples ==> k < 3
  }

  /** The first column is not. */
  ghost predicate StartLost(caches: seq<Cache>, axes: seq<Axis>) {
    && |caches| == |axes| == 2 && Valid(caches[0], axes[0]) && Pinned(caches[0], Known(2))
    && Valid(caches[1], axes[1]) && caches[1].count == Known(4) && 0 !in caches[1].contents.tuples
  }

  lemma {:induction false} FirstPreload(axes: seq<Axis>, limits: seq<Limits>)
    requires TwoByFour(axes, limits)
    ensures var caches := AllPreloaded(Start(axes).caches, ThreeColumns, axes, limits);
      && Valid(caches[0], axes[0]) && Pinned(caches[0], Known(2)) && Valid(caches[1], axes[1])
      && caches[1].count == Known(4) && forall k: nat :: k in caches[1].contents.tuples <==> k < 3
  {
    hide Valid, After, Ample;
    FreshStart(axes[0], 2, limits[0]);
    FreshStart(axes[1], 3, limits[1]);
  }

  lemma {:induction false} ColumnIn(world: World, request: CellRequest, axes: seq<Axis>)
    requires Shaped(world, request, axes) && |axes| == 2
    ensures forall at :: at in Enumerated(world, request, axes) ==>
      && |at| == 2 && request.ranges[0].from <= at[0] && request.ranges[1].from <= at[1]
      && at[0] < Max(1, request.ranges[0].to) && at[1] < Max(1, request.ranges[1].to)
  {
    var sets := SetsOf(AllPreloaded(world.caches, request.ranges, axes, request.limits), axes);
    hide AllPreloaded;
    forall at | at in Enumerated(world, request, axes)
      ensures |at| == 2 && request.ranges[0].from <= at[0] && request.ranges[1].from <= at[1]
      ensures at[0] < Max(1, request.ranges[0].to) && at[1] < Max(1, request.ranges[1].to)
    {
      CellNumbering.EnumeratedIffOffered(sets, request.ranges, at);
    }
  }

  lemma {:induction false} FirstCaches(axes: seq<Axis>, limits: seq<Limits>)
    requires TwoByFour(axes, limits)
    ensures ThreeCached(LoopOf(Start(axes), FirstAsk(limits), axes).1, axes)
  {
    var world, request := Start(axes), FirstAsk(limits);
    FirstPreload(axes, limits);
    ColumnIn(world, request, axes);
    hide Valid, Ample, Enumerated, AllPreloaded, Loop, Start;
    var caches, all := AllPreloaded(world.caches, ThreeColumns, axes, limits), Enumerated(world, request, axes);
    LoopPins(all, caches, world.cells, axes, Sum, limits, 0, Known(2));
    LoopTouches(all, caches, world.cells, axes, Sum, limits, 1);
  }

  /** The first call caches cell (0, 2) under number 2. */
  lemma {:induction false} FirstCells(axes: seq<Axis>, limits: seq<Limits>, engine: Engine)
    requires TwoByFour(axes, limits)
    ensures Cached(Next(Start(axes), FirstAsk(limits), axes, engine).cells, NameOf(2),
                   engine(FullTuples(axes, [0, 2]), "sum"))
  {
    var request := FirstAsk(limits);
    var call := CallOf(Start(axes), request, axes);
    FirstIsSettled(axes, limits);
    hide LoopOf, TwoByFour, SettledSets, ResultOf, CellsAfter;
    SteadyOwns(SettledSets(axes), axes, call.lookups);
    FetchesAll(map[], call);
    CallIsRight(map[], call, axes, SteadyOwner(SettledSets(axes), axes), engine);
    var x :| x in call.lookups && x.at == [0, 2] && Name(x) == NameOf(2);
    assert RightFor(x, ResultOf(map[], call, 2, engine), Sum, axes, engine) && "sum" in Sum;
    ReturnedIsMerged(map[], call, 2, engine, NameOf(2));
  }

  lemma {:induction false} FirstIsSettled(axes: seq<Axis>, limits: seq<Limits>)
    requires TwoByFour(axes, limits)
    ensures var call := CallOf(Start(axes), FirstAsk(limits), axes);
      && SteadyAt(map[], call, axes, SettledSets(axes))
      && exists x :: x in call.lookups && x.at == [0, 2] && Name(x) == NameOf(2)
  {
    var request, sets := FirstAsk(limits), SettledSets(axes);
    StartSettling(ThreeColumns, axes);
    assert [0, 2] in CellNumbering.Coordinates(sets, ThreeColumns) by {
      CellNumbering.EnumeratedIffOffered(sets, ThreeColumns, [0, 2]);
    }
    assert AllDependable(axes, limits);
    assert |sets| == 2 && CellNumbering.Radix(sets[1]) == 4;
    hide LoopOf, AllSettling, AllDependable, CellNumbering.Coordinates, SteadyAt, SettledSets, AllAmple;
    RequestIsSettled(Start(axes), request, axes);
    LookupsAreSettled(Start(axes), request, axes);
    var x :| x in LoopOf(Start(axes), request, axes).0 && x.at == [0, 2];
    TwoIndex(x.sets, x.at);
  }

  /** The second call loads the last column, which evicts the others. */
  lemma {:induction false} SecondCaches(world: World, axes: seq<Axis>, wide: seq<Limits>, narrow: seq<Limits>)
    requires Miscounted(axes, wide, narrow) && ThreeCached(world.caches, axes)
    ensures StartLost(LoopOf(world, SecondAsk(narrow), axes).1, axes)
  {
    var request := SecondAsk(narrow);
    hide Valid, AllPreloaded, Enumerated, Loop, TwoByFour, Ample;
    SecondPreload(world.caches, axes, wide, narrow);
    ColumnIn(world, request, axes);
    var caches, all := AllPreloaded(world.caches, LastColumn, axes, narrow), Enumerated(world, request, axes);
    assert forall at :: at in all ==> at[0] == 0 && at[1] == 3;
    assert Valid(caches[0], axes[0]) && 0 in caches[0].contents.tuples;
    LoopTouches(all, caches, world.cells, axes, Sum, narrow, 0);
    LoopKeepsLast(all, caches, world.cells, axes, narrow);
  }

  lemma {:induction false} SecondPreload(caches: seq<Cache>, axes: seq<Axis>, wide: seq<Limits>, narrow: seq<Limits>)
    requires Miscounted(axes, wide, narrow) && ThreeCached(caches, axes)
    ensures var loaded := AllPreloaded(caches, LastColumn, axes, narrow);
      && loaded[0] == caches[0] && Valid(loaded[1], axes[1]) && loaded[1].count == Known(4)
      && forall i :: i in loaded[1].contents.tuples ==> i == 3
  {
    hide Valid, After, Ample;
    CachedCall(caches[0], PageCall(1, 0, narrow[0]), axes[0]);
    NarrowAfter(caches[1], 3, axes[1], narrow[1]);
  }

  lemma {:induction false} LoopKeepsLast(all: seq<seq<nat>>, caches: seq<Cache>, cells: map<nat, CellCache.Cell>,
                                         axes: seq<Axis>, limits: seq<Limits>)
    requires |caches| == |axes| == |limits| == 2 && AllSized(all, 2) && forall at :: at in all ==> at[1] == 3
    requires Valid(caches[1], axes[1]) && caches[1].count == Known(4)
    requires forall i :: i in caches[1].contents.tuples ==> i == 3
    ensures var r := Loop(all, caches, cells, axes, Sum, limits);
      Valid(r.1[1], axes[1]) && r.1[1].count == Known(4) && 0 !in r.1[1].contents.tuples
  {
    var inv: Cache -> bool := cache =>
      Valid(cache, axes[1]) && cache.count == Known(4) && forall i :: i in cache.contents.tuples ==> i == 3;
    forall at, cache: Cache | at in all && inv(cache)
      ensures inv(Looked(cache, at[1], axes[1], limits[1]))
    {
      LastLooked(cache, axes[1], limits[1]);
    }
    hide Valid, Looked, Loop;
    LoopKeeps(all, caches, cells, axes, Sum, limits, 1, inv, Known(4));
  }

  lemma {:induction false} LastLooked(cache: Cache, axis: Axis, limits: Limits)
    requires Valid(cache, axis) && cache.count == Known(4) && forall i :: i in cache.contents.tuples ==> i == 3
    ensures var r := Looked(cache, 3, axis, limits);
      Valid(r, axis) && r.count == Known(4) && forall i :: i in r.contents.tuples ==> i == 3
  {
    LookedIsValid(cache, 3, axis, limits);
    LookedCount(cache, 3, axis, limits);
    if 3 !in cache.contents.tuples {
      SingleRequest(cache.contents, cache.count, 3, limits.pageSize);
      hide Valid, After, ToFetch;
      forall i | i in After(cache, PageCall(1, 3, limits), axis).contents.tuples
        ensures i == 3
      {
        AfterAdds(cache, PageCall(1, 3, limits), axis, i);
      }
    }
  }

  /** The third call counts two columns, so that cell (1, 0) has number 2. */
  lemma {:induction false} ThirdLookup(world: World, axes: seq<Axis>, wide: seq<Limits>, narrow: seq<Limits>)
    returns (x: Lookup)
    requires Miscounted(axes, wide, narrow) && StartLost(world.caches, axes)
    ensures x in LoopOf(world, ThirdAsk(wide), axes).0 && x.at == [1, 0] && Name(x) == NameOf(2)
  {
    var request := ThirdAsk(wide);
    assert |world.caches| == 2;
    hide Valid, AllPreloaded, Enumerated, Loop, Ample, StartLost, Pinned;
    ThirdPreload(world.caches, axes, wide, narrow);
    ThirdCell(world, axes, wide, narrow);
    x := ThirdLoop(Enumerated(world, request, axes), AllPreloaded(world.caches, TwoColumns, axes, wide), world.cells,
                   axes, wide);
  }

  lemma {:induction false} ThirdLoop(all: seq<seq<nat>>, caches: seq<Cache>, cells: map<nat, CellCache.Cell>,
                                     axes: seq<Axis>, limits: seq<Limits>) returns (x: Lookup)
    requires |caches| == |axes| == |limits| == 2 && AllSized(all, 2) && [1, 0] in all
    requires Valid(caches[0], axes[0]) && Pinned(caches[0], Known(2)) && Ample(axes[0], limits[0])
    requires Valid(caches[1], axes[1]) && Pinned(caches[1], Known(2)) && Ample(axes[1], limits[1])
    ensures x in Loop(all, caches, cells, axes, Sum, limits).0 && x.at == [1, 0] && Name(x) == NameOf(2)
  {
    hide Valid, Ample, Loop, Pinned;
    LoopPins(all, caches, cells, axes, Sum, limits, 1, Known(2));
    LoopMembers(all, caches, cells, axes, Sum, limits);
    x :| x in Loop(all, caches, cells, axes, Sum, limits).0 && x.at == [1, 0];
    ThirdName(x);
  }

  lemma {:induction false} ThirdName(x: Lookup)
    requires |x.sets| == 2 && x.at == [1, 0] && x.sets[1].count == Known(2)
    ensures Name(x) == NameOf(2)
  {
    TwoIndex(x.sets, x.at);
  }

  lemma {:induction false} ThirdCell(world: World, axes: seq<Axis>, wide: seq<Limits>, narrow: seq<Limits>)
    requires Miscounted(axes, wide, narrow) && StartLost(world.caches, axes)
    ensures [1, 0] in Enumerated(world, ThirdAsk(wide), axes)
  {
    hide Valid, AllPreloaded, Ample, CellNumbering.Coordinates, TwoByFour;
    var caches := AllPreloaded(world.caches, TwoColumns, axes, wide);
    ThirdPreload(world.caches, axes, wide, narrow);
    CellNumbering.EnumeratedIffOffered(SetsOf(caches, axes), TwoColumns, [1, 0]);
  }

  lemma {:induction false} ThirdPreload(caches: seq<Cache>, axes: seq<Axis>, wide: seq<Limits>, narrow: seq<Limits>)
    requires Miscounted(axes, wide, narrow) && StartLost(caches, axes)
    ensures var loaded := AllPreloaded(caches, TwoColumns, axes, wide);
      && Valid(loaded[0], axes[0]) && Pinned(loaded[0], Known(2))
      && Valid(loaded[1], axes[1]) && Pinned(loaded[1], Known(2))
  {
    hide Valid, After, Ample, Pinned;
    PinnedAfter(caches[0], PageCall(2, 0, wide[0]), axes[0]);
    StartIsLost(caches, axes);
    StartAgain(caches[1], 2, axes[1], wide[1]);
  }

  lemma {:induction false} StartIsLost(caches: seq<Cache>, axes: seq<Axis>)
    requires StartLost(caches, axes)
    ensures caches[1].count == Known(4) && 0 !in caches[1].contents.tuples
  {
  }

  lemma {:induction false} PinnedAfter(cache: Cache, call: PageCall, axis: Axis)
    requires Valid(cache, axis) && Pinned(cache, Known(|axis.tuples|)) && axis.hasItems && Ample(axis, call.limits)
    ensures Valid(After(cache, call, axis), axis) && Pinned(After(cache, call, axis), Known(|axis.tuples|))
  {
    hide Valid, After, Ample;
    AfterIsValid(cache, call, axis);
    SettledStays(cache, call, axis);
    AmpleAfter(cache, call, axis);
  }

  lemma {:induction false} ThreeRequests(a: CellRequest, b: CellRequest, c: CellRequest, axes: seq<Axis>,
                                         engine: Engine)
    requires AllShaped([a, b, c], axes) && Shaped(Start(axes), a, axes) && Shaped(Start(axes), b, axes)
    ensures Session([a, b, c][..2], axes, engine) == Next(Next(Start(axes), a, axes, engine), b, axes, engine)
  {
    hide Next;
    assert [a, b, c][..2] == [a, b] && [a, b][..1] == [a];
    assert a in [a, b, c] && b in [a, b, c];
    TwoRequests(a, b, axes, engine);
    assert Session([a, b], axes, engine) == Next(Session([a, b][..1], axes, engine), b, axes, engine);
  }

  /** The first two calls leave cell (0, 2) cached under number 2, and the first column not cached. */
  lemma {:induction false} TwoCalls(axes: seq<Axis>, wide: seq<Limits>, narrow: seq<Limits>, engine: Engine)
    requires Miscounted(axes, wide, narrow)
    ensures var second := Next(Next(Start(axes), FirstAsk(wide), axes, engine), SecondAsk(narrow), axes, engine);
      StartLost(second.caches, axes) && Cached(second.cells, NameOf(2), engine(FullTuples(axes, [0, 2]), "sum"))
  {
    FirstCaches(axes, wide);
    FirstCells(axes, wide, engine);
    hide LoopOf, TwoByFour, ResultOf, FullTuples, ThreeCached, StartLost, CellsAfter;
    var first := Next(Start(axes), FirstAsk(wide), axes, engine);
    SecondCaches(first, axes, wide, narrow);
    assert CellCache.Complete(first.cells, NameOf(2), Sum);
    CompleteIsServed(first.cells, CallOf(first, SecondAsk(narrow), axes), 2, engine, NameOf(2));
  }

  /** Two rows, four columns, the first of which happens to parse to 2. Three columns are read and counted: cell (0, 2)
    * has number 2. Reading the fourth column under a limit of one evicts the first. When that is read again, with
    * room for everything, its 2 is taken for the count: cell (1, 0) has number 2, and gets the value of cell (0, 2). */
  lemma {:induction false} RecountingMixesUpCells(axes: seq<Axis>, wide: seq<Limits>, narrow: seq<Limits>,
                                                  engine: Engine)
    requires Miscounted(axes, wide, narrow)
    ensures var requests := [FirstAsk(wide), SecondAsk(narrow), ThirdAsk(wide)];
      && AllShaped(requests, axes) && AllFetch(requests, axes, engine)
      && var call, cells := CallAt(requests, 2, axes, engine), CellsAt(requests, 2, axes, engine);
      && (exists x :: x in call.lookups && x.at == [1, 0] && Name(x) == NameOf(2))
      && Cached(ResultOf(cells, call, 2, engine), NameOf(2), engine(FullTuples(axes, [0, 2]), "sum"))
      && (engine(FullTuples(axes, [0, 2]), "sum") != engine(FullTuples(axes, [1, 0]), "sum") ==>
            !RightAt(requests, 2, axes, engine))
  {
    var a, b, c := FirstAsk(wide), SecondAsk(narrow), ThirdAsk(wide);
    var requests := [a, b, c];
    assert AllShaped(requests, axes);
    AsksFetch(requests, axes, engine);
    ThreeRequests(a, b, c, axes, engine);
    TwoCalls(axes, wide, narrow, engine);
    hide LoopOf, TwoByFour, Session, ResultOf, FullTuples, AllFetch, StartLost, CellsAfter, Next, FirstAsk, SecondAsk;
    var second := Next(Next(Start(axes), a, axes, engine), b, axes, engine);
    var x := ThirdLookup(second, axes, wide, narrow);
    ServedWrong(second, c, axes, engine, x, engine(FullTuples(axes, [0, 2]), "sum"));
  }

  // ---------------------------------------------------------------- tuples beyond the end

  /** Row 5 of a single axis, and row 0. */
  const Beyond: seq<Range> := [CellNumbering.Range(5, 6)]
  const Origin: seq<Range> := [CellNumbering.Range(0, 1)]

  /** An axis of at least one and at most five tuples, under limits that hold them all. */
  predicate Short(axes: seq<Axis>, limits: seq<Limits>) {
    |axes| == |limits| == 1 && AllAmple(axes, limits) && 1 <= |axes[0].tuples| <= 5
  }

  lemma {:induction false} OnlyBeyond(axes: seq<Axis>)
    requires |axes| == 1 && axes[0].hasItems
    ensures forall at :: at in CellNumbering.Coordinates(UnreadSets(axes), Beyond) <==> at == [5]
  {
    forall at: seq<nat>
      ensures at in CellNumbering.Coordinates(UnreadSets(axes), Beyond) <==> at == [5]
    {
      CellNumbering.EnumeratedIffOffered(UnreadSets(axes), Beyond, at);
      assert |at| == 1 ==> at == [at[0]];
    }
  }

  lemma {:induction false} BeyondIsUnsent(axes: seq<Axis>, limits: seq<Limits>)
    requires Short(axes, limits)
    ensures var r := LoopOf(Start(axes), Ask(Beyond, limits, {0}), axes);
      AllUnread(r.1, axes) && r.0 != [] && forall x :: x in r.0 ==> x.tuples == None
  {
    var request := Ask(Beyond, limits, {0});
    var all := Enumerated(Start(axes), request, axes);
    LaterStart(axes);
    PreloadUnread(Start(axes).caches, Beyond, axes, limits);
    OnlyBeyond(axes);
    assert [5] in all;
    hide LoopOf, Enumerated, AllUnread, AllAmple;
    UnreadRequest(Start(axes), request, axes);
    forall x | x in LoopOf(Start(axes), request, axes).0
      ensures x.tuples == None
    {
      assert UnreadLookup(x, map[], Sum, axes) && x.at == [5];
      assert Wanted(axes, [5]) == None;
    }
  }

  /** A range beyond the end of an axis that is not counted finds no tuple, and the cell queried without any is cached
    * under number 0. */
  lemma {:induction false} BeyondCall(axes: seq<Axis>, limits: seq<Limits>, engine: Engine)
    requires Short(axes, limits)
    ensures var after := Next(Start(axes), Ask(Beyond, limits, {0}), axes, engine);
      AllUnread(after.caches, axes) && Cached(after.cells, 0, engine(NoTuples(1), "sum"))
  {
    BeyondIsUnsent(axes, limits);
    hide LoopOf, AllUnread, Short, CellsAfter;
    UnsentCall(CallOf(Start(axes), Ask(Beyond, limits, {0}), axes), engine);
  }

  lemma {:induction false} UnsentCall(call: Call, engine: Engine)
    requires call.lookups != [] && (forall x :: x in call.lookups ==> x.tuples == None)
    requires call.measures == Sum == call.fetch && call.kept == {0}
    ensures Cached(CellsAfter(map[], call, 1, engine), 0, engine(NoTuples(1), "sum"))
  {
    var sent, names := Sent(map[], call.lookups, Sum), Names(call.lookups);
    SentFacts(map[], call.lookups, Sum);
    assert sent == map[];
    NameIn(call.lookups, call.lookups[0]);
    hide Names, Sent, Name;
    assert CellCache.Sent(map[], names, Sum, sent.Keys) == {0} by {
      assert Name(call.lookups[0]) in CellCache.ToQuery(map[], names, Sum);
    }
    assert "sum" in Sum;
  }

  lemma {:induction false} OriginLookups(world: World, axes: seq<Axis>, limits: seq<Limits>)
    requires Short(axes, limits) && AllUnread(world.caches, axes)
    ensures var lookups := LoopOf(world, Ask(Origin, limits, {}), axes).0;
      (exists x :: x in lookups && x.at == [0]) && forall x :: x in lookups ==> x.at == [0] && Name(x) == 0
  {
    var sets := SettledSets(axes);
    forall j | 0 <= j < 1
      ensures Dependable(axes[j], limits[j]) && Settling(world.caches[j], Origin[j], axes[j])
    {
    }
    forall at: seq<nat>
      ensures at in CellNumbering.Coordinates(sets, Origin) <==> at == [0]
    {
      CellNumbering.EnumeratedIffOffered(sets, Origin, at);
      assert |at| == 1 ==> at == [at[0]];
    }
    assert [0] in CellNumbering.Coordinates(sets, Origin);
    hide LoopOf, CellNumbering.Coordinates, Settling, Dependable, AllUnread;
    LookupsAreSettled(world, Ask(Origin, limits, {}), axes);
    forall x | x in LoopOf(world, Ask(Origin, limits, {}), axes).0
      ensures x.at == [0] && Name(x) == 0
    {
      OriginIndex(x.sets, x.at);
    }
  }

  /** Then the first row gets the value of the cell that has no tuple. */
  lemma {:induction false} BeyondSpoilsOrigin(axes: seq<Axis>, limits: seq<Limits>, engine: Engine)
    requires Short(axes, limits)
    ensures var requests := [Ask(Beyond, limits, {0}), Ask(Origin, limits, {})];
      && AllShaped(requests, axes) && AllFetch(requests, axes, engine)
      && var call, cells := CallAt(requests, 1, axes, engine), CellsAt(requests, 1, axes, engine);
      && (exists x :: x in call.lookups && x.at == [0] && Name(x) == 0)
      && Cached(ResultOf(cells, call, 1, engine), 0, engine(NoTuples(1), "sum"))
      && (engine(NoTuples(1), "sum") != engine(FullTuples(axes, [0]), "sum") ==> !RightAt(requests, 1, axes, engine))
  {
    var a, b := Ask(Beyond, limits, {0}), Ask(Origin, limits, {});
    var requests := [a, b];
    assert AllShaped(requests, axes);
    AsksFetch(requests, axes, engine);
    TwoRequests(a, b, axes, engine);
    BeyondCall(axes, limits, engine);
    var world := Next(Start(axes), a, axes, engine);
    OriginLookups(world, axes, limits);
    hide LoopOf, Short, AllUnread, Next, Session, ResultOf, FullTuples, AllFetch, NoTuples;
    OriginServed(world, b, axes, engine, engine(NoTuples(1), "sum"));
  }

  lemma {:induction false} OriginServed(world: World, request: CellRequest, axes: seq<Axis>, engine: Engine,
                                        value: string)
    requires Shaped(world, request, axes) && |axes| == 1 && request.measures == Sum && Cached(world.cells, 0, value)
    requires var lookups := LoopOf(world, request, axes).0;
      (exists x :: x in lookups && x.at == [0]) && forall x :: x in lookups ==> x.at == [0] && Name(x) == 0
    ensures var call := CallOf(world, request, axes);
            var result := ResultOf(world.cells, call, 1, engine);
      && Cached(result, 0, value)
      && (value != engine(FullTuples(axes, [0]), "sum") ==>
            !(OnAxes(call.lookups, 1) && Right(world.cells, call, axes, engine)))
  {
    var call := CallOf(world, request, axes);
    var x :| x in call.lookups && x.at == [0];
    hide LoopOf, ResultOf;
    NameIn(call.lookups, x);
    forall k | k in Names(call.lookups)
      ensures k == 0
    {
      var y := LookupOf(call.lookups, k);
    }
    CompleteIsServed(world.cells, call, 1, engine, 0);
    assert "sum" in Sum;
    var result := ResultOf(world.cells, call, 1, engine);
    assert value != engine(FullTuples(axes, [0]), "sum") ==> !RightFor(x, result, Sum, axes, engine);
  }
}
