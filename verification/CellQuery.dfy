/** getCells of src/DataSet/CellSet.js on its objects: each call is a step of a session. */
module CellQuery {
  import opened Options
  import opened TupleCache
  import opened TupleLookup
  import opened CellRuns
  import opened CellSession
  import CellCache
  import CellNumbering

  /** Load the tuples of the ranges. */
  method EnsureTuplesReady(tupleSets: seq<TupleSet>, ranges: seq<Range>, axes: seq<Axis>, limits: seq<Limits>)
    requires AllServing(tupleSets, axes, limits) && Distinct(tupleSets) && |ranges| == |axes|
    modifies tupleSets
    ensures AllServing(tupleSets, axes, limits)
    ensures AllCaches(tupleSets) == AllPreloaded(old(AllCaches(tupleSets)), ranges, axes, limits)
  {
    hide Serving, After;
    for j := 0 to |axes|
      invariant AllServing(tupleSets, axes, limits)
      invariant forall i :: 0 <= i < j ==>
        CacheOf(tupleSets[i]) == Preloaded(old(CacheOf(tupleSets[i])), ranges[i], axes[i], limits[i])
      invariant forall i :: j <= i < |axes| ==> unchanged(tupleSets[i])
    {
      hide CacheOf;
      if axes[j].hasItems {
        var count := ranges[j].to - ranges[j].from;
        if count <= 0 {
          count := 1;
        }
        var page := TupleLookup.Call(tupleSets[j], PageCall(count, ranges[j].from, limits[j]), axes[j]);
      }
    }
  }

  /** What the numbering reads. */
  method CountTuples(tupleSets: seq<TupleSet>, axes: seq<Axis>) returns (sets: seq<CellNumbering.TupleSet>)
    requires |tupleSets| == |axes|
    ensures sets == SetsOf(AllCaches(tupleSets), axes)
  {
    sets := [];
    for j := 0 to |axes|
      invariant |sets| == j
      invariant forall i :: 0 <= i < j ==> sets[i] == CellNumbering.TupleSet(tupleSets[i].tupleCount, axes[i].hasItems)
    {
      sets := sets + [CellNumbering.TupleSet(tupleSets[j].tupleCount, axes[j].hasItems)];
    }
  }

  /** One turn of the loop: the name of a cell, and if the cache cannot answer it the tuples to send. */
  method LookUp(cellSet: CellCache.CellSet, tupleSets: seq<TupleSet>, at: seq<nat>, axes: seq<Axis>,
                measures: seq<Measure>, limits: seq<Limits>)
    returns (name: nat, complete: bool, tuples: Option<Tuples>, ghost x: Lookup)
    requires AllServing(tupleSets, axes, limits) && Distinct(tupleSets) && |at| == |axes| && measures != []
    modifies tupleSets
    ensures AllServing(tupleSets, axes, limits)
    ensures (x, AllCaches(tupleSets)) == Turn(at, old(AllCaches(tupleSets)), cellSet.cells, axes, measures, limits)
    ensures name == Name(x) && complete == CellCache.Complete(cellSet.cells, name, measures)
    ensures tuples == x.tuples && (complete ==> tuples == None)
  {
    hide Serving, Looked, Found, CellCache.Complete;
    var sets := CountTuples(tupleSets, axes);
    var index := CellNumbering.GetCellIndex(sets, at);
    name := NameOf(index);
    var toFetch;
    complete, toFetch := cellSet.CheckCell(name, measures, []);
    if complete {
      return name, true, None, Lookup(sets, at, None);
    }
    var found := TuplesForCell(tupleSets, at, axes, limits);
    tuples := if SomeTuple(found) then Some(found) else None;
    x := Lookup(sets, at, tuples);
  }

  /** The loop over the cells: their names, and by name the tuples to query by. */
  method LookUpAll(cellSet: CellCache.CellSet, tupleSets: seq<TupleSet>, all: seq<seq<nat>>, axes: seq<Axis>,
                   measures: seq<Measure>, limits: seq<Limits>)
    returns (names: seq<nat>, toQuery: map<nat, Tuples>, ghost lookups: seq<Lookup>)
    requires AllServing(tupleSets, axes, limits) && Distinct(tupleSets) && AllSized(all, |axes|) && measures != []
    modifies tupleSets
    ensures AllServing(tupleSets, axes, limits)
    ensures (lookups, AllCaches(tupleSets))
         == Loop(all, old(AllCaches(tupleSets)), cellSet.cells, axes, measures, limits)
    ensures names == Names(lookups) && toQuery == Sent(cellSet.cells, lookups, measures)
  {
    names, toQuery, lookups := [], map[], [];
    ghost var before, cells := AllCaches(tupleSets), cellSet.cells;
    assert |before| == |axes| == |limits|;
    assert Loop([], before, cells, axes, measures, limits) == ([], before);
    OtherObjects(cellSet, tupleSets);
    hide AllServing, Turn, CellCache.Complete, AllCaches, Name, Loop, Distinct;
    for i := 0 to |all|
      invariant AllServing(tupleSets, axes, limits) && cellSet.cells == cells
      invariant (lookups, AllCaches(tupleSets)) == Loop(all[..i], before, cells, axes, measures, limits)
      invariant names == Names(lookups) && toQuery == Sent(cells, lookups, measures)
    {
      assert all[..i + 1][..i] == all[..i] && all[i] in all;
      LoopStep(all[..i + 1], before, cells, axes, measures, limits);
      var name, complete, tuples;
      ghost var x;
      name, complete, tuples, x := LookUp(cellSet, tupleSets, all[i], axes, measures, limits);
      SentStep(cells, lookups, x, measures);
      names := names + [name];
      if tuples.Some? {
        toQuery := toQuery[name := tuples.value];
      }
      lookups := lookups + [x];
    }
    assert all[..|all|] == all;
  }

  lemma {:induction false} SentStep(cells: map<nat, CellCache.Cell>, lookups: seq<Lookup>, x: Lookup,
                                    measures: seq<Measure>)
    ensures Names(lookups + [x]) == Names(lookups) + [Name(x)]
    ensures Sent(cells, lookups + [x], measures) ==
      if x.tuples.Some? && !CellCache.Complete(cells, Name(x), measures) then
        Sent(cells, lookups, measures)[Name(x) := x.tuples.value]
      else Sent(cells, lookups, measures)
  {
    assert (lookups + [x])[..|lookups|] == lookups;
  }

  lemma {:induction false} OtherObjects(cellSet: CellCache.CellSet, tupleSets: seq<TupleSet>)
    ensures forall j :: 0 <= j < |tupleSets| ==> (tupleSets[j] as object) != cellSet
  {
  }

  /** The cells, by the tuples that were found. */
  method AnswerCells(cellSet: CellCache.CellSet, names: seq<nat>, toQuery: map<nat, Tuples>, measures: seq<Measure>,
                     n: nat, engine: Engine, maxEntries: int, maxBytes: int, ghost lookups: seq<Lookup>)
    returns (result: map<nat, CellCache.Cell>, ghost fetch: seq<Measure>)
    requires cellSet.Valid() && measures != []
    requires names == Names(lookups) && toQuery == Sent(cellSet.cells, lookups, measures)
    modifies cellSet
    ensures var call := Call(lookups, measures, fetch, cellSet.cells.Keys);
      && cellSet.Valid() && Fetches(old(cellSet.cells), call)
      && cellSet.cells == CellsAfter(old(cellSet.cells), call, n, engine)
      && result == ResultOf(old(cellSet.cells), call, n, engine)
  {
    hide Sent, Answers, Names, CellCache.Complete, CellCache.Consistent, CellCache.FetchesLacking;
    hide CellCache.KeptAfterQuery;
    ghost var cells := cellSet.cells;
    var answered;
    answered, fetch := cellSet.GetCells(names, measures, toQuery.Keys, Answers(toQuery, n, engine), maxEntries,
                                        maxBytes);
    result := answered.value;
    ghost var call := Call(lookups, measures, fetch, cellSet.cells.Keys);
    assert Merged(cells, call, n, engine) == CellCache.Completed(cells,
      CellCache.Sent(cells, names, measures, toQuery.Keys), fetch, Answers(toQuery, n, engine));
    hide Merged;
    assert cellSet.cells == CellsAfter(cells, call, n, engine);
  }

  /** The lookups of a call, once the tuples of its ranges are loaded. */
  method LookUpRanges(cellSet: CellCache.CellSet, tupleSets: seq<TupleSet>, ranges: seq<Range>, measures: seq<Measure>,
                      axes: seq<Axis>, limits: seq<Limits>)
    returns (names: seq<nat>, toQuery: map<nat, Tuples>, ghost lookups: seq<Lookup>)
    requires AllServing(tupleSets, axes, limits) && Distinct(tupleSets) && |ranges| == |axes| && measures != []
    modifies tupleSets
    ensures AllServing(tupleSets, axes, limits)
    ensures var before := World(old(AllCaches(tupleSets)), cellSet.cells);
      (lookups, AllCaches(tupleSets)) == LoopOf(before, CellRequest(ranges, measures, limits, [], {}), axes)
    ensures names == Names(lookups) && toQuery == Sent(cellSet.cells, lookups, measures)
  {
    ghost var before := World(AllCaches(tupleSets), cellSet.cells);
    assert |before.caches| == |axes| == |limits|;
    OtherObjects(cellSet, tupleSets);
    EnsureTuplesReady(tupleSets, ranges, axes, limits);
    var sets := CountTuples(tupleSets, axes);
    var all := CellNumbering.GetTupleRanges(sets, ranges);
    assert all == Enumerated(before, CellRequest(ranges, measures, limits, [], {}), axes);
    hide AllServing, AllCaches, Loop, CellNumbering.Coordinates, Distinct, Names, Sent, SetsOf, AllPreloaded;
    names, toQuery, lookups := LookUpAll(cellSet, tupleSets, all, axes, measures, limits);
  }

  /** What is fetched and kept does not change the lookups. */
  lemma {:induction false} SameLookups(world: World, a: CellRequest, b: CellRequest, axes: seq<Axis>)
    requires Shaped(world, a, axes) && a.ranges == b.ranges && a.measures == b.measures && a.limits == b.limits
    ensures LoopOf(world, a, axes) == LoopOf(world, b, axes)
  {
  }

  /** Answering does not touch the tuple sets. */
  method AnswerBeside(cellSet: CellCache.CellSet, ghost tupleSets: seq<TupleSet>, ghost axes: seq<Axis>,
                      ghost limits: seq<Limits>, names: seq<nat>, toQuery: map<nat, Tuples>, measures: seq<Measure>,
                      n: nat, engine: Engine, maxEntries: int, maxBytes: int, ghost lookups: seq<Lookup>)
    returns (result: map<nat, CellCache.Cell>, ghost fetch: seq<Measure>)
    requires cellSet.Valid() && measures != [] && AllServing(tupleSets, axes, limits)
    requires names == Names(lookups) && toQuery == Sent(cellSet.cells, lookups, measures)
    modifies cellSet
    ensures var call := Call(lookups, measures, fetch, cellSet.cells.Keys);
      && cellSet.Valid() && Fetches(old(cellSet.cells), call)
      && cellSet.cells == CellsAfter(old(cellSet.cells), call, n, engine)
      && result == ResultOf(old(cellSet.cells), call, n, engine)
    ensures AllCaches(tupleSets) == old(AllCaches(tupleSets)) && AllServing(tupleSets, axes, limits)
  {
    hide *;
    result, fetch := AnswerCells(cellSet, names, toQuery, measures, n, engine, maxEntries, maxBytes, lookups);
  }

  /** Look up the cells of the ranges, and query those that the cache cannot answer. */
  method QueryCells(cellSet: CellCache.CellSet, tupleSets: seq<TupleSet>, ranges: seq<Range>, measures: seq<Measure>,
                    axes: seq<Axis>, engine: Engine, limits: seq<Limits>, maxEntries: int, maxBytes: int)
    returns (answered: map<nat, CellCache.Cell>, ghost request: CellRequest)
    requires cellSet.Valid() && AllServing(tupleSets, axes, limits) && Distinct(tupleSets) && |ranges| == |axes|
    requires measures != []
    modifies cellSet, tupleSets
    ensures cellSet.Valid() && AllServing(tupleSets, axes, limits)
    ensures request == CellRequest(ranges, measures, limits, request.fetch, cellSet.cells.Keys)
    ensures IsStep(World(old(AllCaches(tupleSets)), old(cellSet.cells)), request,
                   World(AllCaches(tupleSets), cellSet.cells), Some(answered), axes, engine)
  {
    ghost var before := World(AllCaches(tupleSets), cellSet.cells);
    assert |before.caches| == |axes| == |limits|;
    OtherObjects(cellSet, tupleSets);
    hide AllServing, AllCaches, LoopOf, Distinct, Fetches, CellsAfter, ResultOf, Names, Sent, CellCache.Consistent;
    hide IsStep, CallOf, Next, Enumerated, CellCache.Complete, CellCache.Fetches, Serving, Valid;
    ghost var lookups, fetch;
    var names, toQuery;
    names, toQuery, lookups := LookUpRanges(cellSet, tupleSets, ranges, measures, axes, limits);
    assert cellSet.Valid() && cellSet.cells == before.cells;
    answered, fetch := AnswerBeside(cellSet, tupleSets, axes, limits, names, toQuery, measures, |axes|, engine,
                                    maxEntries, maxBytes, lookups);
    request := CellRequest(ranges, measures, limits, fetch, cellSet.cells.Keys);
    SameLookups(before, CellRequest(ranges, measures, limits, [], {}), request, axes);
    StepOfSession(before, request, axes, engine, lookups, AllCaches(tupleSets));
  }

  /** The cells of some ranges. The call is the step of a session that begins with these tuple sets and cells. */
  method GetCells(cellSet: CellCache.CellSet, tupleSets: seq<TupleSet>, ranges: seq<Range>, measures: seq<Measure>,
                  axes: seq<Axis>, engine: Engine, limits: seq<Limits>, maxEntries: int, maxBytes: int)
    returns (result: Option<map<nat, CellCache.Cell>>, ghost request: CellRequest)
    requires cellSet.Valid() && AllServing(tupleSets, axes, limits) && Distinct(tupleSets) && |ranges| == |axes|
    modifies cellSet, tupleSets
    ensures cellSet.Valid() && AllServing(tupleSets, axes, limits)
    ensures request == CellRequest(ranges, measures, limits, request.fetch, cellSet.cells.Keys)
    ensures IsStep(World(old(AllCaches(tupleSets)), old(cellSet.cells)), request,
                   World(AllCaches(tupleSets), cellSet.cells), result, axes, engine)
    ensures measures != [] ==>
      AllAskedAnswered(World(old(AllCaches(tupleSets)), old(cellSet.cells)), request, result, axes)
  {
    ghost var before := World(AllCaches(tupleSets), cellSet.cells);
    assert |before.caches| == |axes| == |limits|;
    hide *;
    if measures == [] {
      request := CellRequest(ranges, measures, limits, [], cellSet.cells.Keys);
      EmptyStep(before, request, axes, engine);
      return None, request;
    }
    var answered;
    answered, request := QueryCells(cellSet, tupleSets, ranges, measures, axes, engine, limits, maxEntries, maxBytes);
    result := Some(answered);
    StepAnswersAll(before, request, World(AllCaches(tupleSets), cellSet.cells), result, axes, engine);
  }

  /** The call is a step of a session, and its result the step's. */
  ghost predicate IsStep(before: World, request: CellRequest, after: World, result: Option<map<nat, CellCache.Cell>>,
                         axes: seq<Axis>, engine: Engine)
  {
    && Shaped(before, request, axes) && after == Next(before, request, axes, engine)
    && if request.measures == [] then result == None
       else
         && Fetches(before.cells, CallOf(before, request, axes))
         && result == Some(ResultOf(before.cells, CallOf(before, request, axes), |axes|, engine))
  }

  lemma {:induction false} EmptyStep(before: World, request: CellRequest, axes: seq<Axis>, engine: Engine)
    requires |before.caches| == |request.ranges| == |request.limits| == |axes| && request.measures == []
    ensures IsStep(before, request, before, None, axes, engine)
  {
  }

  lemma {:induction false} StepOfSession(before: World, request: CellRequest, axes: seq<Axis>, engine: Engine,
                                         lookups: seq<Lookup>, caches: seq<Cache>)
    requires Shaped(before, request, axes) && request.measures != []
    requires (lookups, caches) == LoopOf(before, request, axes)
    requires Fetches(before.cells, Call(lookups, request.measures, request.fetch, request.kept))
    ensures var call := Call(lookups, request.measures, request.fetch, request.kept);
      IsStep(before, request, World(caches, CellsAfter(before.cells, call, |axes|, engine)),
             Some(ResultOf(before.cells, call, |axes|, engine)), axes, engine)
  {
    hide LoopOf, CellsAfter, ResultOf;
  }

  /** The counts once the ranges are loaded: those that the ranges are cut to. */
  function LoadedSets(world: World, request: CellRequest, axes: seq<Axis>): (sets: seq<CellNumbering.TupleSet>)
    requires Shaped(world, request, axes)
    ensures |sets| == |axes|
  {
    SetsOf(AllPreloaded(world.caches, request.ranges, axes, request.limits), axes)
  }

  /** The cell has one coordinate for every axis, and the range of each axis stands for it. */
  ghost predicate AskedFor(sets: seq<CellNumbering.TupleSet>, ranges: seq<Range>, at: seq<nat>) {
    |at| == |sets| == |ranges| && forall k :: 0 <= k < |sets| ==> CellNumbering.StandsFor(sets[k], ranges[k], at[k])
  }

  /** The lookup is answered: the result has a cell under its name with every measure. */
  ghost predicate AnsweredIn(x: Lookup, measures: seq<Measure>, result: Option<map<nat, CellCache.Cell>>) {
    result.Some? && Name(x) in result.value && forall m :: m in measures ==> m in result.value[Name(x)]
  }

  /** Exactly the cells that the ranges stand for are looked up. Those that the cache answers and those whose tuples
    * are found are returned with all measures; and nothing is returned under another name, but for cell 0 of a query
    * without tuples. */
  ghost predicate AllAskedAnswered(world: World, request: CellRequest, result: Option<map<nat, CellCache.Cell>>,
                                   axes: seq<Axis>)
    requires Shaped(world, request, axes)
  {
    var sets, lookups := LoadedSets(world, request, axes), CallOf(world, request, axes).lookups;
    && (forall at :: AskedFor(sets, request.ranges, at) ==> exists x :: x in lookups && x.at == at)
    && (forall x :: x in lookups ==> AskedFor(sets, request.ranges, x.at))
    && (forall x :: x in lookups && (x.tuples.Some? || CellCache.Complete(world.cells, Name(x), request.measures)) ==>
          AnsweredIn(x, request.measures, result))
    && (result.Some? ==>
          forall k :: k in result.value ==> k == 0 || exists x :: x in lookups && Name(x) == k)
  }

  lemma {:induction false} AskedAreLookedUp(world: World, request: CellRequest, axes: seq<Axis>)
    requires Shaped(world, request, axes)
    ensures var sets, lookups := LoadedSets(world, request, axes), CallOf(world, request, axes).lookups;
      && (forall at :: AskedFor(sets, request.ranges, at) ==> exists x :: x in lookups && x.at == at)
      && (forall x :: x in lookups ==> AskedFor(sets, request.ranges, x.at))
  {
    var sets, lookups := LoadedSets(world, request, axes), CallOf(world, request, axes).lookups;
    var all := Enumerated(world, request, axes);
    LoopMembers(all, AllPreloaded(world.caches, request.ranges, axes, request.limits), world.cells, axes,
                request.measures, request.limits);
    hide Loop, CellNumbering.Coordinates;
    forall at
      ensures at in all <==> AskedFor(sets, request.ranges, at)
    {
      CellNumbering.EnumeratedExactly(sets, request.ranges, at);
    }
  }

  lemma {:induction false} FoundAreAnswered(cells: map<nat, CellCache.Cell>, call: Call, n: nat, engine: Engine)
    requires Fetches(cells, call)
    ensures var result := ResultOf(cells, call, n, engine);
      && (forall x :: x in call.lookups && (x.tuples.Some? || CellCache.Complete(cells, Name(x), call.measures)) ==>
            AnsweredIn(x, call.measures, Some(result)))
      && (forall k :: k in result ==> k == 0 || exists x :: x in call.lookups && Name(x) == k)
  {
    var sent, names := Sent(cells, call.lookups, call.measures), Names(call.lookups);
    var result := ResultOf(cells, call, n, engine);
    SentFacts(cells, call.lookups, call.measures);
    hide Sent, Names, Name;
    forall x | x in call.lookups && (x.tuples.Some? || CellCache.Complete(cells, Name(x), call.measures))
      ensures AnsweredIn(x, call.measures, Some(result))
    {
      NameIn(call.lookups, x);
      CellCache.AnsweredIsComplete(cells, names, call.measures, sent.Keys, call.fetch,
                                   Answers(sent, n, engine), Name(x));
    }
    forall k | k in result
      ensures k == 0 || exists x :: x in call.lookups && Name(x) == k
    {
      if k != 0 {
        var x := LookupOf(call.lookups, k);
      }
    }
  }

  /** So says every step of a session. */
  lemma {:induction false} StepAnswersAll(before: World, request: CellRequest, after: World,
                                          result: Option<map<nat, CellCache.Cell>>, axes: seq<Axis>, engine: Engine)
    requires IsStep(before, request, after, result, axes, engine) && request.measures != []
    ensures AllAskedAnswered(before, request, result, axes)
  {
    hide LoopOf, ResultOf, Fetches;
    AskedAreLookedUp(before, request, axes);
    FoundAreAnswered(before.cells, CallOf(before, request, axes), |axes|, engine);
  }
}
