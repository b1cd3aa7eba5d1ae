/** Sessions: getCells calls of src/DataSet/CellSet.js from empty caches on, with the tuple sets that they count. */
module CellSession {
  import opened ClientCache
  import opened Options
  import opened TupleCache
  import opened TupleLookup
  import opened CellRuns
  import CellCache
  import CellNumbering

  type Range = CellNumbering.Range

  /** A call with the settings at that time; `fetch` and `kept` are what its query fetches and its limits leave. */
  datatype CellRequest = CellRequest(ranges: seq<Range>, measures: seq<Measure>, limits: seq<Limits>,
                                     fetch: seq<Measure>, kept: set<nat>)

  datatype World = World(caches: seq<Cache>, cells: map<nat, CellCache.Cell>)

  predicate Shaped(world: World, request: CellRequest, axes: seq<Axis>) {
    |world.caches| == |request.ranges| == |request.limits| == |axes|
  }

  // ---------------------------------------------------------------- one call

  /** The tuples to load ahead for a range: those of the range, or the one at its start if it is empty. */
  predicate Ahead(range: Range, k: nat) {
    range.from <= k < range.to || (range.to <= range.from && k == range.from)
  }

  /** How many they are. */
  function CountOf(range: Range): (n: int)
    ensures forall k: nat :: Ahead(range, k) <==> range.from <= k < range.from + n
  {
    if range.to <= range.from then 1 else range.to - range.from
  }

  function Preloaded(cache: Cache, range: Range, axis: Axis, limits: Limits): Cache {
    if axis.hasItems then After(cache, PageCall(CountOf(range), range.from, limits), axis) else cache
  }

  function AllPreloaded(caches: seq<Cache>, ranges: seq<Range>, axes: seq<Axis>, limits: seq<Limits>): (r: seq<Cache>)
    requires |caches| == |ranges| == |axes| == |limits|
    ensures |r| == |axes|
  {
    seq(|axes|, j requires 0 <= j < |axes| => Preloaded(caches[j], ranges[j], axes[j], limits[j]))
  }

  /** What the numbering reads of the tuple sets. */
  function SetsOf(caches: seq<Cache>, axes: seq<Axis>): (sets: seq<CellNumbering.TupleSet>)
    requires |caches| == |axes|
    ensures |sets| == |axes|
  {
    seq(|axes|, j requires 0 <= j < |axes| => CellNumbering.TupleSet(caches[j].count, axes[j].hasItems))
  }

  predicate AllSized(all: seq<seq<nat>>, n: nat) {
    forall at :: at in all ==> |at| == n
  }

  /** One turn of the loop over the cells: what is looked up, and what that leaves of the tuple sets. */
  ghost function Turn(at: seq<nat>, caches: seq<Cache>, cells: map<nat, CellCache.Cell>, axes: seq<Axis>,
                      measures: seq<Measure>, limits: seq<Limits>): (r: (Lookup, seq<Cache>))
    requires |at| == |caches| == |axes| == |limits|
    ensures |r.1| == |axes|
  {
    var sets := SetsOf(caches, axes);
    if CellCache.Complete(cells, Name(Lookup(sets, at, None)), measures) then (Lookup(sets, at, None), caches)
    else (Lookup(sets, at, Sendable(AllFound(caches, at, axes, limits))), AllLooked(caches, at, axes, limits))
  }

  ghost function Loop(all: seq<seq<nat>>, caches: seq<Cache>, cells: map<nat, CellCache.Cell>, axes: seq<Axis>,
                      measures: seq<Measure>, limits: seq<Limits>): (r: (seq<Lookup>, seq<Cache>))
    requires |caches| == |axes| == |limits| && AllSized(all, |axes|)
    ensures |r.0| == |all| && |r.1| == |axes|
  {
    if all == [] then ([], caches)
    else
      var before := Loop(all[..|all| - 1], caches, cells, axes, measures, limits);
      var turn := Turn(all[|all| - 1], before.1, cells, axes, measures, limits);
      (before.0 + [turn.0], turn.1)
  }

  /** The cells of a call, as the tuple sets are counted once its ranges are loaded. */
  function Enumerated(world: World, request: CellRequest, axes: seq<Axis>): (all: seq<seq<nat>>)
    requires Shaped(world, request, axes)
    ensures AllSized(all, |axes|)
  {
    var sets := SetsOf(AllPreloaded(world.caches, request.ranges, axes, request.limits), axes);
    CellNumbering.CoordinateLengths(sets, request.ranges);
    CellNumbering.Coordinates(sets, request.ranges)
  }

  ghost function LoopOf(world: World, request: CellRequest, axes: seq<Axis>): (r: (seq<Lookup>, seq<Cache>))
    requires Shaped(world, request, axes)
    ensures |r.1| == |axes|
  {
    Loop(Enumerated(world, request, axes), AllPreloaded(world.caches, request.ranges, axes, request.limits),
         world.cells, axes, request.measures, request.limits)
  }

  ghost function CallOf(world: World, request: CellRequest, axes: seq<Axis>): Call
    requires Shaped(world, request, axes)
  {
    Call(LoopOf(world, request, axes).0, request.measures, request.fetch, request.kept)
  }

  /** Without measures a call does nothing. */
  ghost function Next(world: World, request: CellRequest, axes: seq<Axis>, engine: Engine): (r: World)
    requires Shaped(world, request, axes)
    ensures |r.caches| == |axes|
  {
    if request.measures == [] then world
    else
      World(LoopOf(world, request, axes).1, CellsAfter(world.cells, CallOf(world, request, axes), |axes|, engine))
  }

  // ---------------------------------------------------------------- sessions

  predicate AllShaped(requests: seq<CellRequest>, axes: seq<Axis>) {
    forall request :: request in requests ==> |request.ranges| == |request.limits| == |axes|
  }

  function Start(axes: seq<Axis>): World {
    World(seq(|axes|, j requires 0 <= j < |axes| => Fresh), map[])
  }

  ghost function Session(requests: seq<CellRequest>, axes: seq<Axis>, engine: Engine): (r: World)
    requires AllShaped(requests, axes)
    ensures |r.caches| == |axes|
  {
    if requests == [] then Start(axes)
    else
      var last := requests[|requests| - 1];
      Next(Session(requests[..|requests| - 1], axes, engine), last, axes, engine)
  }

  /** The call that a request of a session makes. */
  ghost function CallAt(requests: seq<CellRequest>, i: nat, axes: seq<Axis>, engine: Engine): Call
    requires AllShaped(requests, axes) && i < |requests|
  {
    CallOf(Session(requests[..i], axes, engine), requests[i], axes)
  }

  ghost function CellsAt(requests: seq<CellRequest>, i: nat, axes: seq<Axis>, engine: Engine): map<nat, CellCache.Cell>
    requires AllShaped(requests, axes) && i <= |requests|
  {
    Session(requests[..i], axes, engine).cells
  }

  lemma {:induction false} LoopOnAxes(all: seq<seq<nat>>, caches: seq<Cache>, cells: map<nat, CellCache.Cell>,
                                     axes: seq<Axis>, measures: seq<Measure>, limits: seq<Limits>)
    requires |caches| == |axes| == |limits| && AllSized(all, |axes|)
    ensures OnAxes(Loop(all, caches, cells, axes, measures, limits).0, |axes|)
    ensures forall i :: 0 <= i < |all| ==> Loop(all, caches, cells, axes, measures, limits).0[i].at == all[i]
  {
    if all != [] {
      LoopOnAxes(all[..|all| - 1], caches, cells, axes, measures, limits);
    }
  }

  lemma {:induction false} LoopMembers(all: seq<seq<nat>>, caches: seq<Cache>, cells: map<nat, CellCache.Cell>,
                                       axes: seq<Axis>, measures: seq<Measure>, limits: seq<Limits>)
    requires |caches| == |axes| == |limits| && AllSized(all, |axes|)
    ensures var lookups := Loop(all, caches, cells, axes, measures, limits).0;
      && (forall x :: x in lookups ==> x.at in all)
      && forall at :: at in all ==> exists x :: x in lookups && x.at == at
  {
    LoopOnAxes(all, caches, cells, axes, measures, limits);
    var lookups := Loop(all, caches, cells, axes, measures, limits).0;
    hide Loop;
    forall x | x in lookups
      ensures x.at in all
    {
      var i :| 0 <= i < |lookups| && lookups[i] == x;
      assert all[i] in all;
    }
    forall at | at in all
      ensures exists x :: x in lookups && x.at == at
    {
      var i :| 0 <= i < |all| && all[i] == at;
      assert lookups[i] in lookups;
    }
  }

  /** Every query fetches what is missing. */
  ghost predicate AllFetch(requests: seq<CellRequest>, axes: seq<Axis>, engine: Engine)
    requires AllShaped(requests, axes)
  {
    forall i :: 0 <= i < |requests| && requests[i].measures != [] ==>
      Fetches(CellsAt(requests, i, axes, engine), CallAt(requests, i, axes, engine))
  }

  ghost predicate RightAt(requests: seq<CellRequest>, i: nat, axes: seq<Axis>, engine: Engine)
    requires AllShaped(requests, axes) && i < |requests|
  {
    && OnAxes(CallAt(requests, i, axes, engine).lookups, |axes|)
    && Right(CellsAt(requests, i, axes, engine), CallAt(requests, i, axes, engine), axes, engine)
  }

  // ---------------------------------------------------------------- sessions with steady counts

  /** The cell is numbered with the factors `steady`, under which its coordinates exist after the first axis. */
  predicate NumberedBy(x: Lookup, steady: seq<CellNumbering.TupleSet>) {
    |x.sets| == |x.at| == |steady| && CellNumbering.SameFactors(x.sets, steady)
    && CellNumbering.ExistsLater(steady, x.at)
  }

  /** In every call the counts of the axes after the first give the factors `steady`, and all tuples are found. */
  ghost predicate SteadyCounts(requests: seq<CellRequest>, axes: seq<Axis>, engine: Engine,
                               steady: seq<CellNumbering.TupleSet>)
    requires AllShaped(requests, axes)
  {
    |steady| == |axes|
    && forall i :: 0 <= i < |requests| && requests[i].measures != [] ==>
         SteadyAt(CellsAt(requests, i, axes, engine), CallAt(requests, i, axes, engine), axes, steady)
  }

  ghost predicate SteadyAt(cells: map<nat, CellCache.Cell>, call: Call, axes: seq<Axis>,
                           steady: seq<CellNumbering.TupleSet>)
  {
    && OnAxes(call.lookups, |axes|) && HaveTuples(call.lookups, axes)
    && FoundWhenAsked(cells, call.lookups, call.measures, axes)
    && forall x :: x in call.lookups ==> NumberedBy(x, steady)
  }

  /** The tuples that a name stands for under steady counts. */
  function SteadyOwner(steady: seq<CellNumbering.TupleSet>, axes: seq<Axis>): nat -> Tuples
    requires |steady| == |axes|
  {
    (k: nat) => FullTuples(axes, CellNumbering.Decode(steady, k / 2))
  }

  lemma {:induction false} SteadyOwns(steady: seq<CellNumbering.TupleSet>, axes: seq<Axis>, lookups: seq<Lookup>)
    requires |steady| == |axes| && OnAxes(lookups, |axes|) && forall x :: x in lookups ==> NumberedBy(x, steady)
    ensures Owns(SteadyOwner(steady, axes), lookups, axes)
  {
    hide NumberedBy, SteadyOwner, Name, FullTuples;
    forall x | x in lookups
      ensures SteadyOwner(steady, axes)(Name(x)) == FullTuples(axes, x.at)
    {
      SteadyOwn(steady, axes, x);
    }
  }

  lemma {:induction false} SteadyOwn(steady: seq<CellNumbering.TupleSet>, axes: seq<Axis>, x: Lookup)
    requires |steady| == |axes| == |x.at| && NumberedBy(x, steady)
    ensures SteadyOwner(steady, axes)(Name(x)) == FullTuples(axes, x.at)
  {
    hide FullTuples, CellNumbering.SameFactors, CellNumbering.ExistsLater, CellNumbering.Index, CellNumbering.Decode;
    CellNumbering.SameFactorsSameIndex(x.sets, steady, x.at);
    CellNumbering.LaterDecodeUndoesIndex(steady, x.at);
  }

  /** While the counts of the axes after the first, as far as numbers depend on them, do not change, and the tuples of
    * the cells to query are found, a session from empty caches gives right results throughout, whatever measures and
    * ranges are asked for and whatever is evicted. */
  lemma {:induction false} SteadySessionIsRight(requests: seq<CellRequest>, axes: seq<Axis>, engine: Engine,
                                                steady: seq<CellNumbering.TupleSet>, i: nat)
    requires AllShaped(requests, axes) && AllFetch(requests, axes, engine) && i <= |requests|
    requires SteadyCounts(requests, axes, engine, steady)
    ensures RightCells(CellsAt(requests, i, axes, engine), SteadyOwner(steady, axes), engine)
    ensures i < |requests| && requests[i].measures != [] ==> RightAt(requests, i, axes, engine)
  {
    hide LoopOf, Right, CellsAfter, SteadyOwner;
    if i > 0 {
      SteadySessionIsRight(requests, axes, engine, steady, i - 1);
      assert requests[..i][..i - 1] == requests[..i - 1];
      if requests[i - 1].measures != [] {
        SteadyStep(requests, i - 1, axes, engine, steady);
      }
    }
    if i < |requests| && requests[i].measures != [] {
      SteadyStep(requests, i, axes, engine, steady);
    }
  }

  lemma {:induction false} SteadyStep(requests: seq<CellRequest>, i: nat, axes: seq<Axis>, engine: Engine,
                                      steady: seq<CellNumbering.TupleSet>)
    requires AllShaped(requests, axes) && AllFetch(requests, axes, engine) && i < |requests|
    requires SteadyCounts(requests, axes, engine, steady) && requests[i].measures != []
    requires RightCells(CellsAt(requests, i, axes, engine), SteadyOwner(steady, axes), engine)
    ensures RightAt(requests, i, axes, engine)
    ensures var cells, call := CellsAt(requests, i, axes, engine), CallAt(requests, i, axes, engine);
      RightCells(CellsAfter(cells, call, |axes|, engine), SteadyOwner(steady, axes), engine)
  {
    hide CallAt, CellsAt, Right, CellsAfter, SteadyOwner, NumberedBy, HaveTuples, FoundWhenAsked, Fetches;
    var cells, call := CellsAt(requests, i, axes, engine), CallAt(requests, i, axes, engine);
    assert SteadyAt(cells, call, axes, steady);
    SteadyOwns(steady, axes, call.lookups);
    CallIsRight(cells, call, axes, SteadyOwner(steady, axes), engine);
  }

  // ---------------------------------------------------------------- sessions in which counts are steady

  predicate AllDependable(axes: seq<Axis>, limits: seq<Limits>) {
    |limits| == |axes| && forall j :: 0 <= j < |axes| ==> Dependable(axes[j], limits[j])
  }

  ghost predicate AllSettled(caches: seq<Cache>, axes: seq<Axis>) {
    |caches| == |axes| && forall j :: 0 <= j < |axes| ==> Valid(caches[j], axes[j]) && Settled(caches[j], axes[j])
  }

  /** The counts of settled axes. */
  function SettledSets(axes: seq<Axis>): seq<CellNumbering.TupleSet> {
    seq(|axes|, j requires 0 <= j < |axes| =>
      CellNumbering.TupleSet(if axes[j].hasItems then Known(|axes[j].tuples|) else Unknown, axes[j].hasItems))
  }

  lemma {:induction false} SettledSetsOf(caches: seq<Cache>, axes: seq<Axis>)
    requires AllSettled(caches, axes)
    ensures SetsOf(caches, axes) == SettledSets(axes)
  {
    hide Valid;
  }

  /** Axes that are settled, or not read yet and now read from their start. */
  ghost predicate AllSettling(caches: seq<Cache>, ranges: seq<Range>, axes: seq<Axis>) {
    |caches| == |ranges| == |axes|
    && forall j :: 0 <= j < |axes| ==> Settling(caches[j], ranges[j], axes[j])
  }

  ghost predicate Settling(cache: Cache, range: Range, axis: Axis) {
    Valid(cache, axis) && (Settled(cache, axis) || (Unread(cache) && (axis.hasItems ==> range.from == 0)))
  }

  lemma {:induction false} StartSettling(ranges: seq<Range>, axes: seq<Axis>)
    requires FromStart(ranges, axes)
    ensures AllSettling(Start(axes).caches, ranges, axes)
  {
    forall j | 0 <= j < |axes|
      ensures Settling(Fresh, ranges[j], axes[j])
    {
      FreshIsValid(axes[j]);
    }
  }

  lemma {:induction false} PreloadSettles(caches: seq<Cache>, ranges: seq<Range>, axes: seq<Axis>, limits: seq<Limits>)
    requires AllSettling(caches, ranges, axes) && AllDependable(axes, limits)
    ensures AllSettled(AllPreloaded(caches, ranges, axes, limits), axes)
  {
    hide Dependable, Settled, After, Valid, Settling;
    forall j | 0 <= j < |axes|
      ensures Valid(Preloaded(caches[j], ranges[j], axes[j], limits[j]), axes[j])
      ensures Settled(Preloaded(caches[j], ranges[j], axes[j], limits[j]), axes[j])
    {
      assert Dependable(axes[j], limits[j]);
      PreloadSettlesOne(caches[j], ranges[j], axes[j], limits[j]);
    }
  }

  lemma {:induction false} PreloadSettlesOne(cache: Cache, range: Range, axis: Axis, limits: Limits)
    requires Dependable(axis, limits) && Settling(cache, range, axis)
    ensures Valid(Preloaded(cache, range, axis, limits), axis) && Settled(Preloaded(cache, range, axis, limits), axis)
  {
    hide Dependable, After, Valid, ColumnCounts;
    if axis.hasItems {
      var call := PageCall(CountOf(range), range.from, limits);
      AfterIsValid(cache, call, axis);
      if Settled(cache, axis) {
        SettledStays(cache, call, axis);
      } else {
        StartSettles(cache, call, axis);
      }
    }
  }

  /** The ranges begin at the first tuples. */
  predicate FromStart(ranges: seq<Range>, axes: seq<Axis>) {
    |ranges| == |axes| && forall j :: 0 <= j < |axes| && axes[j].hasItems ==> ranges[j].from == 0
  }

  /** The cell is numbered by the settled counts, and if it has to be queried all its tuples are found. */
  ghost predicate SettledLookup(x: Lookup, cells: map<nat, CellCache.Cell>, measures: seq<Measure>, axes: seq<Axis>) {
    && x.sets == SettledSets(axes) && |x.at| == |axes|
    && (!CellCache.Complete(cells, Name(x), measures) ==> x.tuples == Wanted(axes, x.at))
  }

  lemma {:induction false} LoopIsSettled(all: seq<seq<nat>>, caches: seq<Cache>, cells: map<nat, CellCache.Cell>,
                                         axes: seq<Axis>, measures: seq<Measure>, limits: seq<Limits>)
    requires AllSettled(caches, axes) && AllDependable(axes, limits) && AllSized(all, |axes|)
    ensures var r := Loop(all, caches, cells, axes, measures, limits);
      AllSettled(r.1, axes) && forall x :: x in r.0 ==> SettledLookup(x, cells, measures, axes)
  {
    assert |caches| == |axes| == |limits|;
    if all == [] {
      assert Loop([], caches, cells, axes, measures, limits) == ([], caches);
    } else {
      hide AllSettled, AllDependable, SettledLookup, Turn, Loop;
      var init, last := all[..|all| - 1], all[|all| - 1];
      LoopIsSettled(init, caches, cells, axes, measures, limits);
      var before := Loop(init, caches, cells, axes, measures, limits);
      var turn := Turn(last, before.1, cells, axes, measures, limits);
      LoopStep(all, caches, cells, axes, measures, limits);
      assert forall x :: x in before.0 + [turn.0] <==> x in before.0 || x == turn.0;
      TurnIsSettled(last, before.1, cells, axes, measures, limits);
    }
  }

  lemma {:induction false} LoopStep(all: seq<seq<nat>>, caches: seq<Cache>, cells: map<nat, CellCache.Cell>,
                                    axes: seq<Axis>, measures: seq<Measure>, limits: seq<Limits>)
    requires |caches| == |axes| == |limits| && all != [] && AllSized(all, |axes|)
    ensures AllSized(all[..|all| - 1], |axes|) && |all[|all| - 1]| == |axes|
    ensures var before := Loop(all[..|all| - 1], caches, cells, axes, measures, limits);
            var turn := Turn(all[|all| - 1], before.1, cells, axes, measures, limits);
      Loop(all, caches, cells, axes, measures, limits) == (before.0 + [turn.0], turn.1)
  {
    hide Turn;
  }

  lemma {:induction false} TurnIsSettled(at: seq<nat>, caches: seq<Cache>, cells: map<nat, CellCache.Cell>,
                                         axes: seq<Axis>, measures: seq<Measure>, limits: seq<Limits>)
    requires AllSettled(caches, axes) && AllDependable(axes, limits) && |at| == |axes|
    ensures var r := Turn(at, caches, cells, axes, measures, limits);
      AllSettled(r.1, axes) && SettledLookup(r.0, cells, measures, axes) && r.0.at == at
  {
    SettledSetsOf(caches, axes);
    hide Dependable, Settled, Valid, Looked, Found, CellCache.Complete;
    forall j | 0 <= j < |axes|
      ensures Valid(Looked(caches[j], at[j], axes[j], limits[j]), axes[j])
      ensures Settled(Looked(caches[j], at[j], axes[j], limits[j]), axes[j])
      ensures FoundTuple(caches[j], at[j], axes[j], limits[j]) == TupleAt(axes[j], at[j])
    {
      SettledLooked(caches[j], at[j], axes[j], limits[j]);
      LookedIsValid(caches[j], at[j], axes[j], limits[j]);
      SettledFinds(caches[j], at[j], axes[j], limits[j]);
    }
    hide FoundTuple, TupleAt;
    assert AllFound(caches, at, axes, limits) == FullTuples(axes, at);
  }

  /** The cells enumerated by settled counts exist, and have tuples unless all axes are empty. */
  lemma {:induction false} SettledCells(axes: seq<Axis>, ranges: seq<Range>, at: seq<nat>)
    requires |ranges| == |axes| && axes != [] && at in CellNumbering.Coordinates(SettledSets(axes), ranges)
    ensures |at| == |axes| && CellNumbering.ExistsLater(SettledSets(axes), at)
    ensures (forall j :: 0 <= j < |axes| ==> !axes[j].hasItems) ==> CellNumbering.Index(SettledSets(axes), at) == 0
    ensures forall j :: 0 <= j < |axes| && axes[j].hasItems ==> at[j] < |axes[j].tuples|
  {
    var sets := SettledSets(axes);
    CellNumbering.EnumeratedIffOffered(sets, ranges, at);
    CellNumbering.OfferedExists(sets, ranges, at);
    assert CellNumbering.Exists(sets[1..], at[1..]) by {
      forall k | 0 <= k < |sets| - 1
        ensures at[1..][k] < CellNumbering.Limit(sets[1..][k]).value
      {
        assert sets[1..][k] == sets[k + 1] && at[1..][k] == at[k + 1];
      }
    }
    forall j | 0 <= j < |axes| && axes[j].hasItems
      ensures at[j] < |axes[j].tuples|
    {
      assert at[j] < CellNumbering.Limit(sets[j]).value;
    }
    if forall j :: 0 <= j < |axes| ==> !axes[j].hasItems {
      forall j | 0 <= j < |axes|
        ensures at[j] == 0
      {
        assert at[j] < CellNumbering.Limit(sets[j]).value;
      }
      OriginIndex(sets, at);
    }
  }

  lemma {:induction false} OriginIndex(sets: seq<CellNumbering.TupleSet>, at: seq<nat>)
    requires |at| == |sets| && forall j :: 0 <= j < |at| ==> at[j] == 0
    ensures CellNumbering.Index(sets, at) == 0
  {
    if sets != [] {
      OriginIndex(sets[1..], at[1..]);
    }
  }

  lemma {:induction false} SettledHaveTuples(axes: seq<Axis>, ranges: seq<Range>, lookups: seq<Lookup>)
    requires |ranges| == |axes| && axes != []
    requires forall j :: 0 <= j < |axes| && !axes[j].hasItems ==> axes[j].tuples == []
    requires forall x :: x in lookups ==>
      x.sets == SettledSets(axes) && x.at in CellNumbering.Coordinates(SettledSets(axes), ranges)
    ensures OnAxes(lookups, |axes|) && HaveTuples(lookups, axes)
    ensures forall x :: x in lookups ==> NumberedBy(x, SettledSets(axes))
  {
    forall x | x in lookups
      ensures |x.at| == |axes| && NumberedBy(x, SettledSets(axes))
      ensures if exists j :: 0 <= j < |axes| && axes[j].hasItems then Wanted(axes, x.at).Some?
              else Name(x) == 0 && Wanted(axes, x.at).None?
    {
      SettledCells(axes, ranges, x.at);
      var full := FullTuples(axes, x.at);
      if j :| 0 <= j < |axes| && axes[j].hasItems {
        assert full[j] == TupleAt(axes[j], x.at[j]) && full[j].Some?;
      } else {
        assert !SomeTuple(full);
      }
    }
  }

  /** A request on settled axes, or one that settles them. */
  lemma {:induction false} RequestIsSettled(world: World, request: CellRequest, axes: seq<Axis>)
    requires Shaped(world, request, axes) && axes != [] && AllDependable(axes, request.limits)
    requires AllSettling(world.caches, request.ranges, axes)
    ensures AllSettled(LoopOf(world, request, axes).1, axes)
    ensures SteadyAt(world.cells, CallOf(world, request, axes), axes, SettledSets(axes))
  {
    LookupsAreSettled(world, request, axes);
    hide AllSettled, LoopOf, CellCache.Complete, Wanted, NumberedBy, HaveTuples, SettledSets, Dependable;
    var lookups := LoopOf(world, request, axes).0;
    forall j | 0 <= j < |axes| && !axes[j].hasItems
      ensures axes[j].tuples == []
    {
      EmptyAxis(axes[j], request.limits[j]);
    }
    SettledHaveTuples(axes, request.ranges, lookups);
  }

  lemma {:induction false} EmptyAxis(axis: Axis, limits: Limits)
    requires Dependable(axis, limits) && !axis.hasItems
    ensures axis.tuples == []
  {
  }

  lemma {:induction false} LookupsAreSettled(world: World, request: CellRequest, axes: seq<Axis>)
    requires Shaped(world, request, axes) && AllDependable(axes, request.limits)
    requires AllSettling(world.caches, request.ranges, axes)
    ensures var r := LoopOf(world, request, axes);
      && AllSettled(r.1, axes)
      && forall x :: x in r.0 ==>
           SettledLookup(x, world.cells, request.measures, axes)
           && x.at in CellNumbering.Coordinates(SettledSets(axes), request.ranges)
    ensures forall at :: at in CellNumbering.Coordinates(SettledSets(axes), request.ranges) ==>
              exists x :: x in LoopOf(world, request, axes).0 && x.at == at
  {
    var caches := AllPreloaded(world.caches, request.ranges, axes, request.limits);
    PreloadSettles(world.caches, request.ranges, axes, request.limits);
    SettledSetsOf(caches, axes);
    var all := Enumerated(world, request, axes);
    assert all == CellNumbering.Coordinates(SettledSets(axes), request.ranges);
    hide AllSettled, AllDependable, Loop, AllPreloaded, SettledLookup, SettledSets, Start, FromStart;
    LoopIsSettled(all, caches, world.cells, axes, request.measures, request.limits);
    LoopMembers(all, caches, world.cells, axes, request.measures, request.limits);
  }

  /** The first request that does anything reads every axis from its start. */
  predicate OpensFromStart(requests: seq<CellRequest>, axes: seq<Axis>) {
    forall i :: 0 <= i < |requests| && requests[i].measures != [] ==>
      FromStart(requests[i].ranges, axes) || exists t :: 0 <= t < i && requests[t].measures != []
  }

  /** The axes are settled, or nothing was asked for yet. */
  ghost predicate SettledOrIdle(requests: seq<CellRequest>, axes: seq<Axis>, engine: Engine, i: nat)
    requires AllShaped(requests, axes) && i <= |requests|
  {
    var caches := Session(requests[..i], axes, engine).caches;
    || AllSettled(caches, axes)
    || (caches == Start(axes).caches && forall t :: 0 <= t < i ==> requests[t].measures == [])
  }

  lemma {:induction false} SessionSettles(requests: seq<CellRequest>, axes: seq<Axis>, engine: Engine, i: nat)
    requires AllShaped(requests, axes) && axes != [] && OpensFromStart(requests, axes) && i <= |requests|
    requires forall request :: request in requests ==> AllDependable(axes, request.limits)
    ensures SettledOrIdle(requests, axes, engine, i)
  {
    hide AllSettled, AllDependable, LoopOf, CallOf, CellsAfter, Start, OpensFromStart;
    if i == 0 {
      assert requests[..0] == [] && Session([], axes, engine) == Start(axes);
    } else {
      SessionSettles(requests, axes, engine, i - 1);
      assert requests[..i][..i - 1] == requests[..i - 1] && requests[i - 1] in requests;
      if requests[i - 1].measures != [] {
        SessionIsSettling(requests, axes, engine, i - 1);
        RequestIsSettled(Session(requests[..i - 1], axes, engine), requests[i - 1], axes);
      }
    }
  }

  lemma {:induction false} SessionIsSettling(requests: seq<CellRequest>, axes: seq<Axis>, engine: Engine, i: nat)
    requires AllShaped(requests, axes) && OpensFromStart(requests, axes) && i < |requests| && requests[i].measures != []
    requires SettledOrIdle(requests, axes, engine, i)
    ensures AllSettling(Session(requests[..i], axes, engine).caches, requests[i].ranges, axes)
  {
    hide Session, Valid, Settled;
    assert requests[i] in requests;
    if !AllSettled(Session(requests[..i], axes, engine).caches, axes) {
      StartSettling(requests[i].ranges, axes);
    }
  }

  /** A session from empty caches is right throughout, whatever is asked for and whatever cells are evicted, if its
    * first request reads every axis from the start and the limits of the tuple sets always hold all tuples of an axis;
    * or, for an axis whose last column happens to hold the count, each page of it. */
  lemma {:induction false} DependableSessionIsRight(requests: seq<CellRequest>, axes: seq<Axis>, engine: Engine, i: nat)
    requires AllShaped(requests, axes) && axes != [] && OpensFromStart(requests, axes) && i < |requests|
    requires forall request :: request in requests ==> AllDependable(axes, request.limits)
    requires AllFetch(requests, axes, engine) && requests[i].measures != []
    ensures RightAt(requests, i, axes, engine)
  {
    hide AllDependable, SteadyAt, CallOf, AllSettled;
    forall t | 0 <= t < |requests| && requests[t].measures != []
      ensures SteadyAt(CellsAt(requests, t, axes, engine), CallAt(requests, t, axes, engine), axes, SettledSets(axes))
    {
      SessionSettles(requests, axes, engine, t);
      SessionIsSettling(requests, axes, engine, t);
      assert requests[t] in requests;
      RequestIsSettled(Session(requests[..t], axes, engine), requests[t], axes);
    }
    SteadySessionIsRight(requests, axes, engine, SettledSets(axes), i);
  }

  /** A tuple of the axis that the range stands for; an axis without items has the one coordinate 0. */
  predicate Wants(axis: Axis, range: Range, i: nat) {
    && range.from <= i
    && (i < range.to || (range.from == 0 && range.to == 0 && i == 0))
    && (if axis.hasItems then i < |axis.tuples| else i == 0)
  }

  /** And every call of such a session looks up exactly the cells of those tuples, so that it returns them. */
  lemma {:induction false} DependableSessionIsWhole(requests: seq<CellRequest>, axes: seq<Axis>, engine: Engine, i: nat,
                                                    at: seq<nat>)
    requires AllShaped(requests, axes) && axes != [] && OpensFromStart(requests, axes) && i < |requests|
    requires forall request :: request in requests ==> AllDependable(axes, request.limits)
    requires requests[i].measures != []
    ensures (exists x :: x in CallAt(requests, i, axes, engine).lookups && x.at == at) <==>
      |at| == |axes| && forall j :: 0 <= j < |axes| ==> Wants(axes[j], requests[i].ranges[j], at[j])
  {
    hide AllDependable, LoopOf, AllSettled, Session;
    assert requests[i] in requests;
    SessionSettles(requests, axes, engine, i);
    SessionIsSettling(requests, axes, engine, i);
    LookupsAreSettled(Session(requests[..i], axes, engine), requests[i], axes);
    var sets, ranges := SettledSets(axes), requests[i].ranges;
    CellNumbering.EnumeratedExactly(sets, ranges, at);
    if |at| == |axes| {
      assert forall j :: 0 <= j < |axes| ==>
        (Wants(axes[j], ranges[j], at[j]) <==> CellNumbering.StandsFor(sets[j], ranges[j], at[j]));
    }
  }

  // ---------------------------------------------------------------- single calls

  /** A call by tuple sets that serve what is asked of them finds all tuples. */
  lemma {:induction false} ServedIsFound(all: seq<seq<nat>>, asked: seq<set<nat>>, caches: seq<Cache>,
                                         cells: map<nat, CellCache.Cell>, axes: seq<Axis>, measures: seq<Measure>,
                                         limits: seq<Limits>)
    requires Served(caches, asked, axes, limits) && AllValid(caches, axes) && AllSized(all, |axes|)
    requires forall at, j :: at in all && 0 <= j < |at| ==> at[j] in asked[j]
    ensures var r := Loop(all, caches, cells, axes, measures, limits);
      && Served(r.1, asked, axes, limits) && AllValid(r.1, axes)
      && forall x :: x in r.0 ==> FoundLookup(x, cells, measures, axes)
  {
    if all == [] {
      assert Loop([], caches, cells, axes, measures, limits) == ([], caches);
    } else {
      assert |caches| == |axes| == |limits|;
      var init, last := all[..|all| - 1], all[|all| - 1];
      assert last in all && forall at :: at in init ==> at in all;
      ServedIsFound(init, asked, caches, cells, axes, measures, limits);
      var before := Loop(init, caches, cells, axes, measures, limits);
      LoopStep(all, caches, cells, axes, measures, limits);
      ServedFinds(before.1, asked, last, axes, limits);
      hide Loop, Served, AllValid, CellCache.Complete, AllFound, AllLooked, FullTuples;
      var turn := Turn(last, before.1, cells, axes, measures, limits);
      assert FoundLookup(turn.0, cells, measures, axes);
      hide FoundLookup, Turn;
      assert forall x :: x in before.0 + [turn.0] <==> x in before.0 || x == turn.0;
    }
  }

  ghost predicate FoundLookup(x: Lookup, cells: map<nat, CellCache.Cell>, measures: seq<Measure>, axes: seq<Axis>) {
    |x.at| == |axes| && (!CellCache.Complete(cells, Name(x), measures) ==> x.tuples == Wanted(axes, x.at))
  }
}
