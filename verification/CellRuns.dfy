/** Runs of getCells calls, src/DataSet/CellSet.js: what a cell cache whose cells are known by number delivers. */
module CellRuns {
  import opened Options
  import opened TupleLookup
  import CellCache
  import CellNumbering

  type Measure = CellCache.Measure

  /** What the engine says about a measure for one tuple per axis. A missing tuple is sent as NULLs. */
  type Engine = (Tuples, Measure) -> string

  function NoTuples(n: nat): Tuples {
    seq(n, j requires 0 <= j < n => None)
  }

  predicate SomeTuple(tuples: Tuples) {
    exists j :: 0 <= j < |tuples| && tuples[j].Some?
  }

  /** Tuples without any are not sent. */
  function Sendable(tuples: Tuples): Option<Tuples> {
    if SomeTuple(tuples) then Some(tuples) else None
  }

  /** What is to be sent for a cell. */
  function Wanted(axes: seq<Axis>, at: seq<nat>): Option<Tuples>
    requires |at| == |axes|
  {
    Sendable(FullTuples(axes, at))
  }

  /** Cells are properties of an object: the names of all integers, as natural numbers. */
  function NameOf(n: int): nat {
    if n >= 0 then 2 * n else -2 * n - 1
  }

  // ---------------------------------------------------------------- one call

  /** A turn of the loop over the cells of a call: the counts at that time, the coordinates, and the tuples that are
    * sent in case the cell has to be queried. */
  datatype Lookup = Lookup(sets: seq<CellNumbering.TupleSet>, at: seq<nat>, tuples: Option<Tuples>)

  function Name(x: Lookup): nat {
    if |x.sets| == |x.at| then NameOf(CellNumbering.Index(x.sets, x.at)) else 0
  }

  function Names(lookups: seq<Lookup>): seq<nat> {
    seq(|lookups|, i requires 0 <= i < |lookups| => Name(lookups[i]))
  }

  /** A call: its lookups, the measures asked for, those that its query fetches, and the cells that the limits of the
    * cache leave in it. */
  datatype Call = Call(lookups: seq<Lookup>, measures: seq<Measure>, fetch: seq<Measure>, kept: set<nat>)

  /** The tuples sent for the cells that the cache cannot answer; the last lookup of a name counts. */
  ghost function Sent(cells: map<nat, CellCache.Cell>, lookups: seq<Lookup>, measures: seq<Measure>): map<nat, Tuples> {
    if lookups == [] then map[]
    else
      var x, before := lookups[|lookups| - 1], Sent(cells, lookups[..|lookups| - 1], measures);
      if x.tuples.Some? && !CellCache.Complete(cells, Name(x), measures) then before[Name(x) := x.tuples.value]
      else before
  }

  /** What the engine answers to the tuples sent, or to none if none are sent. */
  function Answers(sent: map<nat, Tuples>, n: nat, engine: Engine): CellCache.Oracle {
    (k: nat, m) => engine(if k in sent then sent[k] else NoTuples(n), m)
  }

  ghost function ResultOf(cells: map<nat, CellCache.Cell>, call: Call, n: nat, engine: Engine)
    : map<nat, CellCache.Cell>
  {
    var sent := Sent(cells, call.lookups, call.measures);
    CellCache.Answered(cells, Names(call.lookups), call.measures, sent.Keys, call.fetch, Answers(sent, n, engine))
  }

  /** All cells, those queried among them, before the limits are enforced. */
  ghost function Merged(cells: map<nat, CellCache.Cell>, call: Call, n: nat, engine: Engine): map<nat, CellCache.Cell> {
    var sent := Sent(cells, call.lookups, call.measures);
    var asked := CellCache.Sent(cells, Names(call.lookups), call.measures, sent.Keys);
    CellCache.Completed(cells, asked, call.fetch, Answers(sent, n, engine))
  }

  ghost function CellsAfter(cells: map<nat, CellCache.Cell>, call: Call, n: nat, engine: Engine)
    : map<nat, CellCache.Cell>
  {
    map k | k in Merged(cells, call, n, engine) && k in call.kept :: Merged(cells, call, n, engine)[k]
  }

  ghost predicate Fetches(cells: map<nat, CellCache.Cell>, call: Call) {
    call.measures != [] && CellCache.Fetches(cells, Names(call.lookups), call.measures, call.fetch)
  }

  /** The result holds every measure of the cell as the engine gives it for the cell's own tuples. */
  ghost predicate RightFor(x: Lookup, result: map<nat, CellCache.Cell>, measures: seq<Measure>, axes: seq<Axis>,
                           engine: Engine)
    requires |x.at| == |axes|
  {
    && CellCache.Complete(result, Name(x), measures)
    && forall m :: m in measures ==> result[Name(x)][m] == engine(FullTuples(axes, x.at), m)
  }

  predicate OnAxes(lookups: seq<Lookup>, n: nat) {
    forall x :: x in lookups ==> |x.at| == n
  }

  ghost predicate Right(cells: map<nat, CellCache.Cell>, call: Call, axes: seq<Axis>, engine: Engine)
    requires OnAxes(call.lookups, |axes|)
  {
    forall x :: x in call.lookups ==> RightFor(x, ResultOf(cells, call, |axes|, engine), call.measures, axes, engine)
  }

  lemma {:induction false} NameIn(lookups: seq<Lookup>, x: Lookup)
    requires x in lookups
    ensures Name(x) in Names(lookups)
  {
    var i :| 0 <= i < |lookups| && lookups[i] == x;
    assert Names(lookups)[i] == Name(x);
  }

  lemma {:induction false} LookupOf(lookups: seq<Lookup>, k: nat) returns (x: Lookup)
    requires k in Names(lookups)
    ensures x in lookups && Name(x) == k
  {
    var i :| 0 <= i < |lookups| && Names(lookups)[i] == k;
    x := lookups[i];
  }

  /** What is sent was found by a lookup of a cell that is not complete; and every such lookup sends something. */
  lemma {:induction false} SentFacts(cells: map<nat, CellCache.Cell>, lookups: seq<Lookup>, measures: seq<Measure>)
    ensures forall k :: k in Sent(cells, lookups, measures) ==>
      !CellCache.Complete(cells, k, measures)
      && exists x :: x in lookups && Name(x) == k && x.tuples == Some(Sent(cells, lookups, measures)[k])
    ensures forall x :: x in lookups && x.tuples.Some? && !CellCache.Complete(cells, Name(x), measures) ==>
      Name(x) in Sent(cells, lookups, measures)
  {
    hide CellCache.Complete, Name;
    if lookups != [] {
      var init, last := lookups[..|lookups| - 1], lookups[|lookups| - 1];
      SentFacts(cells, init, measures);
      assert last in lookups && forall x :: x in lookups <==> x in init || x == last;
    }
  }

  // ---------------------------------------------------------------- a call on a right cache

  /** The cached cells are right if `own` says which tuples a name stands for. */
  ghost predicate RightCells(cells: map<nat, CellCache.Cell>, own: nat -> Tuples, engine: Engine) {
    CellCache.Agrees(cells, Owned(own, engine))
  }

  function Owned(own: nat -> Tuples, engine: Engine): CellCache.Oracle {
    (k: nat, m) => engine(own(k), m)
  }

  /** Every name stands for the tuples of the cells looked up under it. */
  predicate Owns(own: nat -> Tuples, lookups: seq<Lookup>, axes: seq<Axis>) {
    forall x :: x in lookups ==> |x.at| == |axes| && own(Name(x)) == FullTuples(axes, x.at)
  }

  /** The tuples of the cells to query are all found. */
  ghost predicate FoundWhenAsked(cells: map<nat, CellCache.Cell>, lookups: seq<Lookup>, measures: seq<Measure>,
                                 axes: seq<Axis>)
    requires OnAxes(lookups, |axes|)
  {
    forall x :: x in lookups && !CellCache.Complete(cells, Name(x), measures) ==> x.tuples == Wanted(axes, x.at)
  }

  /** Every cell has a tuple; or there is only the one cell of axes that are all empty. */
  predicate HaveTuples(lookups: seq<Lookup>, axes: seq<Axis>)
    requires OnAxes(lookups, |axes|)
  {
    || (forall x :: x in lookups ==> Wanted(axes, x.at).Some?)
    || (forall x :: x in lookups ==> Name(x) == 0 && Wanted(axes, x.at).None?)
  }

  /** All cells to query are asked for, with answers for their own tuples. */
  lemma {:induction false} AskedFacts(cells: map<nat, CellCache.Cell>, call: Call, axes: seq<Axis>, own: nat -> Tuples,
                                      engine: Engine)
    requires Owns(own, call.lookups, axes) && FoundWhenAsked(cells, call.lookups, call.measures, axes)
    requires HaveTuples(call.lookups, axes)
    ensures var sent, names := Sent(cells, call.lookups, call.measures), Names(call.lookups);
            var asked := CellCache.Sent(cells, names, call.measures, sent.Keys);
      && asked == CellCache.ToQuery(cells, names, call.measures)
      && forall k, m :: k in asked ==> Answers(sent, |axes|, engine)(k, m) == Owned(own, engine)(k, m)
  {
    var sent, names := Sent(cells, call.lookups, call.measures), Names(call.lookups);
    var missing := CellCache.ToQuery(cells, names, call.measures);
    SentFacts(cells, call.lookups, call.measures);
    forall k | k in missing
      ensures k in sent ==> sent[k] == own(k)
      ensures k !in sent ==> k == 0 && missing * sent.Keys == {} && own(k) == NoTuples(|axes|)
    {
      var x := LookupOf(call.lookups, k);
      if k in sent {
        var y :| y in call.lookups && Name(y) == k && y.tuples == Some(sent[k]);
      } else {
        assert x.tuples == None && FullTuples(axes, x.at) == NoTuples(|axes|);
        forall other | other in missing
          ensures other !in sent
        {
          var y := LookupOf(call.lookups, other);
        }
      }
    }
  }

  /** Then the result is right, and so is the cache afterwards, whatever is evicted. */
  lemma {:induction false} CallIsRight(cells: map<nat, CellCache.Cell>, call: Call, axes: seq<Axis>, own: nat -> Tuples,
                                       engine: Engine)
    requires Owns(own, call.lookups, axes) && FoundWhenAsked(cells, call.lookups, call.measures, axes)
    requires HaveTuples(call.lookups, axes) && Fetches(cells, call) && RightCells(cells, own, engine)
    ensures Right(cells, call, axes, engine) && RightCells(CellsAfter(cells, call, |axes|, engine), own, engine)
  {
    var sent, names := Sent(cells, call.lookups, call.measures), Names(call.lookups);
    var asked := CellCache.Sent(cells, names, call.measures, sent.Keys);
    var answers, truth := Answers(sent, |axes|, engine), Owned(own, engine);
    AskedFacts(cells, call, axes, own, engine);
    CellCache.CompletedAgrees(cells, asked, call.fetch, answers, truth);
    var result := ResultOf(cells, call, |axes|, engine);
    AnsweredAgrees(cells, names, call.measures, sent.Keys, call.fetch, answers, truth);
    forall x | x in call.lookups
      ensures RightFor(x, result, call.measures, axes, engine)
    {
      NameIn(call.lookups, x);
      CellCache.AnsweredIsComplete(cells, names, call.measures, sent.Keys, call.fetch, answers, Name(x));
    }
  }

  lemma {:induction false} AnsweredAgrees(cells: map<nat, CellCache.Cell>, names: seq<nat>, measures: seq<Measure>,
                                          sent: set<nat>, fetch: seq<Measure>, answers: CellCache.Oracle,
                                          truth: CellCache.Oracle)
    requires var asked := CellCache.Sent(cells, names, measures, sent);
      CellCache.Agrees(CellCache.Completed(cells, asked, fetch, answers), truth)
      && asked == CellCache.ToQuery(cells, names, measures)
    ensures CellCache.Agrees(CellCache.Answered(cells, names, measures, sent, fetch, answers), truth)
    ensures forall k :: k in names ==> k in CellCache.Answered(cells, names, measures, sent, fetch, answers)
  {
    hide CellCache.Sent, CellCache.CompletedCell;
    var asked := CellCache.Sent(cells, names, measures, sent);
    var result := CellCache.Answered(cells, names, measures, sent, fetch, answers);
    forall k | k in result
      ensures k in CellCache.Completed(cells, asked, fetch, answers)
      ensures result[k] == CellCache.Completed(cells, asked, fetch, answers)[k]
    {
    }
  }

  /** Lookups are of different cells. */
  predicate NamesDiffer(lookups: seq<Lookup>) {
    forall i, j :: 0 <= i < j < |lookups| ==> Name(lookups[i]) != Name(lookups[j])
  }

  /** What is found are tuples. */
  predicate Genuine(lookups: seq<Lookup>) {
    forall x :: x in lookups && x.tuples.Some? ==> SomeTuple(x.tuples.value)
  }

  lemma {:induction false} SentFor(lookups: seq<Lookup>, measures: seq<Measure>, x: Lookup)
    requires NamesDiffer(lookups) && x in lookups
    ensures var sent := Sent(map[], lookups, measures);
      (if Name(x) in sent then Some(sent[Name(x)]) else None) == x.tuples
  {
    var sent, k := Sent(map[], lookups, measures), Name(x);
    SentFacts(map[], lookups, measures);
    if k in sent {
      var y :| y in lookups && Name(y) == k && y.tuples == Some(sent[k]);
    }
  }

  /** From an empty cache, the result of a call is right for every engine exactly if each lookup found all tuples of
    * its cell when it was made. */
  lemma {:induction false} RightIffAllFound(call: Call, axes: seq<Axis>)
    requires OnAxes(call.lookups, |axes|) && HaveTuples(call.lookups, axes) && Genuine(call.lookups)
    requires NamesDiffer(call.lookups) && Fetches(map[], call)
    ensures (forall engine: Engine :: Right(map[], call, axes, engine)) <==>
            forall x :: x in call.lookups ==> x.tuples == Wanted(axes, x.at)
  {
    if forall x :: x in call.lookups ==> x.tuples == Wanted(axes, x.at) {
      forall engine: Engine
        ensures Right(map[], call, axes, engine)
      {
        var own := (k: nat) => OwnerOf(call.lookups, axes, k);
        OwnersOwn(call.lookups, axes);
        CallIsRight(map[], call, axes, own, engine);
      }
    } else {
      var x :| x in call.lookups && x.tuples != Wanted(axes, x.at);
      MissedIsWrong(call, axes, x);
    }
  }

  /** An engine that tells some tuples from all others. */
  function Telling(tuples: Tuples): Engine {
    (t: Tuples, m: Measure) => if t == tuples then "own" else "other"
  }

  lemma {:induction false} MissedIsWrong(call: Call, axes: seq<Axis>, x: Lookup)
    requires OnAxes(call.lookups, |axes|) && HaveTuples(call.lookups, axes) && Genuine(call.lookups)
    requires NamesDiffer(call.lookups) && Fetches(map[], call)
    requires x in call.lookups && x.tuples != Wanted(axes, x.at)
    ensures !Right(map[], call, axes, Telling(FullTuples(axes, x.at)))
  {
    var engine, k := Telling(FullTuples(axes, x.at)), Name(x);
    var sent := Sent(map[], call.lookups, call.measures);
    SentFor(call.lookups, call.measures, x);
    var m := call.measures[0];
    assert m in call.measures;
    NameIn(call.lookups, x);
    assert (if k in sent then sent[k] else NoTuples(|axes|)) != FullTuples(axes, x.at);
    FirstAnswer(call, |axes|, engine, k, m);
  }

  lemma {:induction false} FirstAnswer(call: Call, n: nat, engine: Engine, k: nat, m: Measure)
    requires call.measures != [] && k in Names(call.lookups)
    ensures var result := ResultOf(map[], call, n, engine);
      k in result && m in result[k] ==>
        result[k][m] == Answers(Sent(map[], call.lookups, call.measures), n, engine)(k, m)
  {
    hide Sent, Answers;
  }

  // ---------------------------------------------------------------- runs of calls

  /** The first lookup of a name says which tuples it stands for. */
  function OwnerOf(all: seq<Lookup>, axes: seq<Axis>, k: nat): Tuples
    requires OnAxes(all, |axes|)
  {
    if all == [] then []
    else if Name(all[0]) == k then FullTuples(axes, all[0].at)
    else OwnerOf(all[1..], axes, k)
  }

  /** No name stands for cells with different tuples. */
  predicate OneCellPerName(all: seq<Lookup>, axes: seq<Axis>)
    requires OnAxes(all, |axes|)
  {
    forall x, y :: x in all && y in all && Name(x) == Name(y) ==> FullTuples(axes, x.at) == FullTuples(axes, y.at)
  }

  lemma {:induction false} OwnerIsFirst(all: seq<Lookup>, axes: seq<Axis>, x: Lookup)
    requires OnAxes(all, |axes|) && OneCellPerName(all, axes) && x in all
    ensures OwnerOf(all, axes, Name(x)) == FullTuples(axes, x.at)
  {
    if Name(all[0]) != Name(x) {
      OwnerIsFirst(all[1..], axes, x);
    }
  }

  lemma {:induction false} OwnersOwn(all: seq<Lookup>, axes: seq<Axis>)
    requires OnAxes(all, |axes|) && OneCellPerName(all, axes)
    ensures Owns((k: nat) => OwnerOf(all, axes, k), all, axes)
  {
    forall x | x in all
      ensures OwnerOf(all, axes, Name(x)) == FullTuples(axes, x.at)
    {
      OwnerIsFirst(all, axes, x);
    }
  }

  /** The cells cached after a run from an empty cache. */
  ghost function RunCells(calls: seq<Call>, n: nat, engine: Engine): map<nat, CellCache.Cell> {
    if calls == [] then map[]
    else CellsAfter(RunCells(calls[..|calls| - 1], n, engine), calls[|calls| - 1], n, engine)
  }

  /** All calls of a run give right results. */
  ghost predicate AllRight(calls: seq<Call>, axes: seq<Axis>, engine: Engine)
    requires forall call :: call in calls ==> OnAxes(call.lookups, |axes|)
  {
    forall i :: 0 <= i < |calls| ==> Right(RunCells(calls[..i], |axes|, engine), calls[i], axes, engine)
  }

  /** The call finds the tuples of the cells to query, names stand for the tuples that `own` says, and the query
    * fetches what is missing. */
  ghost predicate SteadyCall(cells: map<nat, CellCache.Cell>, call: Call, axes: seq<Axis>, own: nat -> Tuples) {
    && Owns(own, call.lookups, axes) && HaveTuples(call.lookups, axes)
    && FoundWhenAsked(cells, call.lookups, call.measures, axes) && Fetches(cells, call)
  }

  ghost predicate Steady(calls: seq<Call>, axes: seq<Axis>, own: nat -> Tuples, engine: Engine) {
    forall i :: 0 <= i < |calls| ==> SteadyCall(RunCells(calls[..i], |axes|, engine), calls[i], axes, own)
  }

  lemma {:induction false} SteadyIsRight(calls: seq<Call>, axes: seq<Axis>, own: nat -> Tuples, engine: Engine)
    requires Steady(calls, axes, own, engine)
    ensures RightCells(RunCells(calls, |axes|, engine), own, engine)
    ensures forall call :: call in calls ==> OnAxes(call.lookups, |axes|)
    ensures AllRight(calls, axes, engine)
  {
    forall i | 0 <= i < |calls|
      ensures OnAxes(calls[i].lookups, |axes|)
      ensures Right(RunCells(calls[..i], |axes|, engine), calls[i], axes, engine)
    {
      SteadyUntil(calls, axes, own, engine, i + 1);
    }
    assert calls[..|calls|] == calls;
    SteadyUntil(calls, axes, own, engine, |calls|);
  }

  lemma {:induction false} SteadyUntil(calls: seq<Call>, axes: seq<Axis>, own: nat -> Tuples, engine: Engine, i: nat)
    requires Steady(calls, axes, own, engine) && i <= |calls|
    ensures RightCells(RunCells(calls[..i], |axes|, engine), own, engine)
    ensures i > 0 ==> OnAxes(calls[i - 1].lookups, |axes|)
    ensures i > 0 ==> Right(RunCells(calls[..i - 1], |axes|, engine), calls[i - 1], axes, engine)
  {
    hide Right, CellsAfter, FoundWhenAsked, Fetches, HaveTuples;
    if i > 0 {
      SteadyUntil(calls, axes, own, engine, i - 1);
      assert SteadyCall(RunCells(calls[..i - 1], |axes|, engine), calls[i - 1], axes, own);
      OwnsOnAxes(own, calls[i - 1].lookups, axes);
      assert calls[..i][..i - 1] == calls[..i - 1];
      CallIsRight(RunCells(calls[..i - 1], |axes|, engine), calls[i - 1], axes, own, engine);
    }
  }

  lemma {:induction false} OwnsOnAxes(own: nat -> Tuples, lookups: seq<Lookup>, axes: seq<Axis>)
    requires Owns(own, lookups, axes)
    ensures OnAxes(lookups, |axes|)
  {
  }

  /** The lookups of all calls. */
  function Flat(plan: seq<seq<Lookup>>): seq<Lookup> {
    if plan == [] then [] else plan[0] + Flat(plan[1..])
  }

  lemma {:induction false} FlatMembers(plan: seq<seq<Lookup>>, x: Lookup)
    ensures x in Flat(plan) <==> exists i :: 0 <= i < |plan| && x in plan[i]
  {
    if plan != [] {
      FlatMembers(plan[1..], x);
      if i :| 0 <= i < |plan| - 1 && x in plan[1..][i] {
        assert x in plan[i + 1];
      }
      if i :| 0 <= i < |plan| && x in plan[i] && i > 0 {
        assert x in plan[1..][i - 1];
      }
    }
  }

  /** The calls make the lookups planned, ask for some measures, and fetch what is missing. */
  ghost predicate Plays(calls: seq<Call>, plan: seq<seq<Lookup>>, n: nat, engine: Engine) {
    |calls| == |plan|
    && forall i :: 0 <= i < |calls| ==>
         calls[i].lookups == plan[i] && Fetches(RunCells(calls[..i], n, engine), calls[i])
  }

  /** Every lookup finds all tuples of its cell. */
  predicate FoundOnce(lookups: seq<Lookup>, axes: seq<Axis>) {
    OnAxes(lookups, |axes|) && HaveTuples(lookups, axes) && forall x :: x in lookups ==> x.tuples == Wanted(axes, x.at)
  }

  predicate FoundAlways(plan: seq<seq<Lookup>>, axes: seq<Axis>) {
    forall i :: 0 <= i < |plan| ==> FoundOnce(plan[i], axes)
  }

  /** Provided that tuples are found, all runs that look up certain cells under certain counts, whatever measures are
    * asked for and whatever is evicted, give right results for every engine exactly if no name stands for two cells
    * with different tuples, in the same call or in different ones. */
  lemma {:induction false} RunsAreRightIff(plan: seq<seq<Lookup>>, axes: seq<Axis>)
    requires FoundAlways(plan, axes)
    ensures OnAxes(Flat(plan), |axes|)
    ensures (forall calls: seq<Call>, engine: Engine :: Plays(calls, plan, |axes|, engine) ==>
              (forall call :: call in calls ==> OnAxes(call.lookups, |axes|)) && AllRight(calls, axes, engine))
       <==> OneCellPerName(Flat(plan), axes)
  {
    FlatOnAxes(plan, axes);
    if OneCellPerName(Flat(plan), axes) {
      forall calls: seq<Call>, engine: Engine | Plays(calls, plan, |axes|, engine)
        ensures (forall call :: call in calls ==> OnAxes(call.lookups, |axes|)) && AllRight(calls, axes, engine)
      {
        PlaysSteadily(calls, plan, axes, engine);
      }
    } else {
      var x, y :| x in Flat(plan) && y in Flat(plan) && Name(x) == Name(y)
        && FullTuples(axes, x.at) != FullTuples(axes, y.at);
      FlatMembers(plan, x);
      FlatMembers(plan, y);
      var i :| 0 <= i < |plan| && x in plan[i];
      var j :| 0 <= j < |plan| && y in plan[j];
      if i <= j {
        TakenForAnother(plan, axes, i, j, x, y);
      } else {
        TakenForAnother(plan, axes, j, i, y, x);
      }
    }
  }

  lemma {:induction false} FlatOnAxes(plan: seq<seq<Lookup>>, axes: seq<Axis>)
    requires FoundAlways(plan, axes)
    ensures OnAxes(Flat(plan), |axes|)
  {
    forall x | x in Flat(plan)
      ensures |x.at| == |axes|
    {
      FlatMembers(plan, x);
    }
  }

  lemma {:induction false} PlaysSteadily(calls: seq<Call>, plan: seq<seq<Lookup>>, axes: seq<Axis>, engine: Engine)
    requires FoundAlways(plan, axes) && Plays(calls, plan, |axes|, engine)
    requires OnAxes(Flat(plan), |axes|) && OneCellPerName(Flat(plan), axes)
    ensures (forall call :: call in calls ==> OnAxes(call.lookups, |axes|)) && AllRight(calls, axes, engine)
  {
    var own := (k: nat) => OwnerOf(Flat(plan), axes, k);
    OwnersOwn(Flat(plan), axes);
    forall i | 0 <= i < |calls|
      ensures Owns(own, calls[i].lookups, axes)
    {
      forall x | x in plan[i]
        ensures x in Flat(plan)
      {
        FlatMembers(plan, x);
      }
    }
    hide Owns, HaveTuples, Fetches;
    SteadyIsRight(calls, axes, own, engine);
  }

  /** The run for one measure in which nothing is kept before call `i`, and the cell `k` from then on. */
  function CallsFor(plan: seq<seq<Lookup>>, i: nat, k: nat): seq<Call> {
    seq(|plan|, t requires 0 <= t < |plan| => Call(plan[t], ["sum"], ["sum"], if t < i then {} else {k}))
  }

  /** A complete cell is not queried again. */
  lemma {:induction false} CompleteStays(cells: map<nat, CellCache.Cell>, call: Call, axes: seq<Axis>, engine: Engine,
                                         k: nat)
    requires FoundOnce(call.lookups, axes)
    requires CellCache.Complete(cells, k, call.measures) && k in call.kept
    ensures k in CellsAfter(cells, call, |axes|, engine) && CellsAfter(cells, call, |axes|, engine)[k] == cells[k]
    ensures var result := ResultOf(cells, call, |axes|, engine); k in result ==> result[k] == cells[k]
  {
    var sent, names := Sent(cells, call.lookups, call.measures), Names(call.lookups);
    SentFacts(cells, call.lookups, call.measures);
    var missing := CellCache.ToQuery(cells, names, call.measures);
    forall other | other in missing && missing * sent.Keys == {}
      ensures other == 0 && k != 0
    {
      var x := LookupOf(call.lookups, other);
    }
    assert k !in missing;
    hide CellCache.Complete, Sent, Answers;
    assert k !in CellCache.Sent(cells, names, call.measures, sent.Keys) by {
      if missing != {} && missing * sent.Keys == {} {
        var other :| other in missing;
      }
    }
  }

  /** Nor is it in any other call, unless it has number 0 and the call has cells to query but no tuples to send. */
  lemma {:induction false} CompleteIsServed(cells: map<nat, CellCache.Cell>, call: Call, n: nat, engine: Engine, k: nat)
    requires CellCache.Complete(cells, k, call.measures)
    requires k != 0 || CellCache.ToQuery(cells, Names(call.lookups), call.measures) == {}
    ensures k in Names(call.lookups) ==> k in ResultOf(cells, call, n, engine)
    ensures k in ResultOf(cells, call, n, engine) ==> ResultOf(cells, call, n, engine)[k] == cells[k]
    ensures k in call.kept ==> k in CellsAfter(cells, call, n, engine)
    ensures k in call.kept ==> CellsAfter(cells, call, n, engine)[k] == cells[k]
  {
    var sent := Sent(cells, call.lookups, call.measures);
    SentFacts(cells, call.lookups, call.measures);
    assert k in cells;
    hide CellCache.Complete, Sent, Answers, Names;
    assert k !in CellCache.Sent(cells, Names(call.lookups), call.measures, sent.Keys);
  }

  lemma {:induction false} FetchesAll(cells: map<nat, CellCache.Cell>, call: Call)
    requires call.fetch == call.measures != []
    ensures Fetches(cells, call)
  {
    hide CellCache.Complete;
  }

  /** What is returned is what is merged into the cache. */
  lemma {:induction false} ReturnedIsMerged(cells: map<nat, CellCache.Cell>, call: Call, n: nat, engine: Engine, k: nat)
    requires k in ResultOf(cells, call, n, engine) && k in call.kept
    ensures k in CellsAfter(cells, call, n, engine)
    ensures CellsAfter(cells, call, n, engine)[k] == ResultOf(cells, call, n, engine)[k]
  {
    hide Sent, CellCache.CompletedCell, CellCache.Sent;
  }

  lemma {:induction false} CallsPlay(plan: seq<seq<Lookup>>, i: nat, k: nat, n: nat, engine: Engine)
    ensures Plays(CallsFor(plan, i, k), plan, n, engine)
  {
    hide CellCache.Complete;
  }

  predicate Cached(cells: map<nat, CellCache.Cell>, k: nat, value: string) {
    k in cells && "sum" in cells[k] && cells[k]["sum"] == value
  }

  /** Once such a run has cached the cell, it stays. */
  lemma {:induction false} CachedUntil(plan: seq<seq<Lookup>>, axes: seq<Axis>, engine: Engine, i: nat, k: nat, j: nat,
                                       value: string)
    requires FoundAlways(plan, axes) && i < j <= |plan| == |CallsFor(plan, i, k)|
    requires Cached(RunCells(CallsFor(plan, i, k)[..i + 1], |axes|, engine), k, value)
    ensures Cached(RunCells(CallsFor(plan, i, k)[..j], |axes|, engine), k, value)
  {
    hide FoundOnce, CallsFor, RunCells, CellsAfter, Cached;
    if i + 1 < j {
      CachedUntil(plan, axes, engine, i, k, j - 1, value);
      var calls := CallsFor(plan, i, k);
      CallsForAt(plan, i, k, j - 1);
      RunStep(calls, j, |axes|, engine);
      CachedStays(RunCells(calls[..j - 1], |axes|, engine), calls[j - 1], axes, engine, k, value);
    }
  }

  lemma {:induction false} CallsForAt(plan: seq<seq<Lookup>>, i: nat, k: nat, t: nat)
    requires i <= t < |plan|
    ensures |CallsFor(plan, i, k)| == |plan|
    ensures var call := CallsFor(plan, i, k)[t]; call.lookups == plan[t] && call.measures == ["sum"] && k in call.kept
  {
  }

  lemma {:induction false} RunStep(calls: seq<Call>, j: nat, n: nat, engine: Engine)
    requires 0 < j <= |calls|
    ensures RunCells(calls[..j], n, engine) == CellsAfter(RunCells(calls[..j - 1], n, engine), calls[j - 1], n, engine)
  {
    assert calls[..j][..j - 1] == calls[..j - 1];
  }

  lemma {:induction false} CachedStays(cells: map<nat, CellCache.Cell>, call: Call, axes: seq<Axis>, engine: Engine,
                                       k: nat, value: string)
    requires FoundOnce(call.lookups, axes) && call.measures == ["sum"] && k in call.kept && Cached(cells, k, value)
    ensures Cached(CellsAfter(cells, call, |axes|, engine), k, value)
    ensures var result := ResultOf(cells, call, |axes|, engine); k in result ==> Cached(result, k, value)
  {
    assert CellCache.Complete(cells, k, call.measures);
    hide FoundOnce, CellsAfter, ResultOf, CellCache.Complete;
    CompleteStays(cells, call, axes, engine, k);
  }

  lemma {:induction false} CachedAtFirst(plan: seq<seq<Lookup>>, axes: seq<Axis>, i: nat, x: Lookup, engine: Engine)
    requires FoundAlways(plan, axes) && i < |plan| && x in plan[i] && |x.at| == |axes|
    requires var calls := CallsFor(plan, i, Name(x));
      Right(RunCells(calls[..i], |axes|, engine), calls[i], axes, engine)
    ensures Cached(RunCells(CallsFor(plan, i, Name(x))[..i + 1], |axes|, engine), Name(x),
                   engine(FullTuples(axes, x.at), "sum"))
  {
    hide RunCells, CellsAfter, ResultOf, CallsFor;
    var k, calls := Name(x), CallsFor(plan, i, Name(x));
    CallsForAt(plan, i, k, i);
    RunStep(calls, i + 1, |axes|, engine);
    var before := RunCells(calls[..i], |axes|, engine);
    assert "sum" in ["sum"];
    assert RightFor(x, ResultOf(before, calls[i], |axes|, engine), calls[i].measures, axes, engine);
    hide HaveTuples, Wanted, FullTuples;
    ReturnedIsMerged(before, calls[i], |axes|, engine, k);
  }

  /** What is cached is returned. */
  lemma {:induction false} CachedIsReturned(plan: seq<seq<Lookup>>, axes: seq<Axis>, i: nat, k: nat, j: nat, y: Lookup,
                                            engine: Engine, value: string)
    requires FoundAlways(plan, axes) && i < j < |plan| && y in plan[j] && |y.at| == |axes| && Name(y) == k
    requires Cached(RunCells(CallsFor(plan, i, k)[..j], |axes|, engine), k, value)
    requires Right(RunCells(CallsFor(plan, i, k)[..j], |axes|, engine), CallsFor(plan, i, k)[j], axes, engine)
    ensures engine(FullTuples(axes, y.at), "sum") == value
  {
    hide RunCells, CellsAfter, ResultOf, CallsFor;
    var calls := CallsFor(plan, i, k);
    CallsForAt(plan, i, k, j);
    var before := RunCells(calls[..j], |axes|, engine);
    assert "sum" in ["sum"];
    assert RightFor(y, ResultOf(before, calls[j], |axes|, engine), calls[j].measures, axes, engine);
    CachedStays(before, calls[j], axes, engine, k, value);
  }

  lemma {:induction false} TakenForAnother(plan: seq<seq<Lookup>>, axes: seq<Axis>, i: nat, j: nat, x: Lookup,
                                           y: Lookup)
    requires FoundAlways(plan, axes) && i <= j < |plan| && x in plan[i] && y in plan[j] && Name(x) == Name(y)
    requires |x.at| == |y.at| == |axes| && FullTuples(axes, x.at) != FullTuples(axes, y.at)
    ensures var calls, engine := CallsFor(plan, i, Name(x)), Telling(FullTuples(axes, x.at));
      && Plays(calls, plan, |axes|, engine) && (forall call :: call in calls ==> OnAxes(call.lookups, |axes|))
      && !AllRight(calls, axes, engine)
  {
    var k := Name(x);
    var calls, engine := CallsFor(plan, i, k), Telling(FullTuples(axes, x.at));
    CallsPlay(plan, i, k, |axes|, engine);
    assert engine(FullTuples(axes, x.at), "sum") != engine(FullTuples(axes, y.at), "sum");
    if AllRight(calls, axes, engine) {
      hide Plays, Right, Telling, RunCells, FullTuples;
      if i < j {
        CachedAtFirst(plan, axes, i, x, engine);
        CachedUntil(plan, axes, engine, i, k, j, engine(FullTuples(axes, x.at), "sum"));
        CachedIsReturned(plan, axes, i, k, j, y, engine, engine(FullTuples(axes, x.at), "sum"));
      } else {
        CachedAtFirst(plan, axes, i, x, engine);
        CachedAtFirst(plan, axes, i, y, engine);
      }
    }
  }
}
