/** When the chain of unnesting stages can be built, and that it means what the items ask for. */
module UnnestingMeaning {
  import opened Options
  import opened Unnesting

  // ---------------------------------------------------------------- when a chain exists

  /** `a` unnests an array into which `b` continues, or at which `b` ends, with a plain step. */
  predicate ClashAt(a: Item, b: Item, j: nat) {
    && Root(a.column) == Root(b.column)
    && j < |Full(a)| && Full(a)[j].Unnest?
    && j <= |Full(b)| && Full(b)[..j] == Full(a)[..j]
    && (if j < |Full(b)| then Full(b)[j].Step? else j > 0 && Full(b)[j - 1].Step?)
  }

  ghost predicate Clash(a: Item, b: Item) {
    exists j: nat :: ClashAt(a, b, j)
  }

  ghost predicate Compatible(items: seq<Item>) {
    forall a, b :: a in items && b in items ==> !Clash(a, b)
  }

  /** A stage fails only on an item that clashes with the one being unnested. */
  lemma {:induction false} FailureIsClash(items: seq<Item>)
    requires AllSane(items) && Run(items).None?
    ensures !Compatible(items)
  {
    var last := |items| - 1;
    var before, item := items[..last], items[last];
    assert Sane(item);
    if Run(before).None? {
      FailureIsClash(before);
      var a, b :| a in before && b in before && Clash(a, b);
      assert a in items && b in items;
    } else {
      var n := RunOp(before);
      var j := StuckIsClash(before[n], item);
      assert before[n] in items && item in items;
    }
  }

  lemma {:induction false} StuckIsClash(x: Item, y: Item) returns (at: nat)
    requires Pending(x) && Belongs(y, OpOf(x)) && Rewritten(y, OpOf(x)).None? && Sane(y)
    ensures |Trail(y.column)| <= at && ClashAt(x, y, at)
  {
    var t, prefix := Trail(x.column), OpOf(x).prefix;
    var path, j := y.path.value, |prefix|;
    at := |t| + j;
    assert Full(x) == t + x.path.value && Full(y) == t + path;
    assert Full(x)[..|t| + j] == t + prefix == Full(y)[..|t| + j];
    assert Full(x)[|t| + j] == x.path.value[j];
    assert j > 0 ==> Full(y)[|t| + j - 1] == prefix[j - 1];
    assert ClashAt(x, y, |t| + j);
  }

  lemma {:induction false} SameClash(a: Item, b: Item, c: Item, d: Item)
    requires Same(a, c) && Same(b, d)
    ensures Clash(a, b) <==> Clash(c, d)
  {
    if j: nat :| ClashAt(a, b, j) {
      assert ClashAt(c, d, j);
    }
    if j: nat :| ClashAt(c, d, j) {
      assert ClashAt(a, b, j);
    }
  }

  lemma {:induction false} RunKeepsCompatible(items: seq<Item>)
    requires Run(items).Some? && Compatible(items)
    ensures Compatible(Run(items).value.items)
  {
    var p := Run(items).value;
    RunLength(items);
    forall k, l | 0 <= k < |p.items| && 0 <= l < |p.items|
      ensures !Clash(p.items[k], p.items[l])
    {
      RunSame(items, k);
      RunSame(items, l);
      SameClash(items[k], items[l], p.items[k], p.items[l]);
    }
  }

  lemma {:induction false} RunSame(items: seq<Item>, k: nat)
    requires Run(items).Some? && k < |items|
    ensures |Run(items).value.items| == |items| && Same(items[k], Run(items).value.items[k])
  {
    RunItems(items, k);
    var p := Run(items).value;
    if Moved(items[k], p.op, p.items[k]) {
      RewrittenSame(items[k], p.op.value);
    }
  }

  /** Items that do not clash are unnested, in whatever order they come. */
  lemma {:induction false} CompatibleSucceeds(items: seq<Item>)
    requires AllSane(items) && Compatible(items)
    ensures Stages(items).Chain?
    decreases Remaining(items)
  {
    if Run(items).None? {
      FailureIsClash(items);
    } else if Run(items).value.op.Some? {
      RunShrinks(items);
      RunSane(items);
      RunKeepsCompatible(items);
      CompatibleSucceeds(Run(items).value.items);
    }
  }

  // ---------------------------------------------------------------- every array is unnested once

  /** An array of the table's row, told apart by the path to it. */
  datatype Place = Place(root: Column, at: seq<Elem>)

  function PlaceOf(op: Op): Place {
    Place(Root(op.column), Trail(op.column) + op.prefix)
  }

  predicate PlainPrefixes(c: Column) {
    c.Derived? ==> PlainPrefixes(c.column) && forall e :: e in c.prefix ==> e.Step?
  }

  /** The arrays on the way to the column are among `done`. */
  ghost predicate Through(c: Column, done: set<Place>) {
    PlainPrefixes(c)
    && forall j :: 0 <= j < |Trail(c)| && Trail(c)[j].Unnest? ==> Place(Root(c), Trail(c)[..j]) in done
  }

  /** The arrays that the item still has to unnest are not. */
  ghost predicate Ahead(item: Item, done: set<Place>) {
    forall j :: |Trail(item.column)| <= j < |Full(item)| && Full(item)[j].Unnest? ==>
      Place(Root(item.column), Full(item)[..j]) !in done
  }

  ghost predicate Divided(items: seq<Item>, done: set<Place>) {
    forall item :: item in items ==> Through(item.column, done) && Ahead(item, done)
  }

  lemma {:induction false} TrailEnds(c: Column)
    ensures Trail(c) != [] ==> Trail(c)[|Trail(c)| - 1].Unnest?
    ensures Trail(c) == [] <==> !c.Derived?
  {
  }

  /** A column is known by its root and trail. */
  lemma {:induction false} TrailIsUnique(c: Column, d: Column)
    requires PlainPrefixes(c) && PlainPrefixes(d) && Root(c) == Root(d) && Trail(c) == Trail(d)
    ensures c == d
  {
    if c.Derived? {
      var n := |Trail(c)| - 1;
      assert Trail(c)[..n] == Trail(c.column) + c.prefix;
      assert Trail(d)[..n] == Trail(d.column) + d.prefix;
      TrailEnds(c.column);
      TrailEnds(d.column);
      SplitAtLastUnnest(Trail(c.column), c.prefix, Trail(d.column), d.prefix);
      TrailIsUnique(c.column, d.column);
    }
  }

  lemma {:induction false} SplitAtLastUnnest(a: seq<Elem>, p: seq<Elem>, b: seq<Elem>, q: seq<Elem>)
    requires a + p == b + q
    requires (forall e :: e in p ==> e.Step?) && (forall e :: e in q ==> e.Step?)
    requires (a != [] ==> a[|a| - 1].Unnest?) && (b != [] ==> b[|b| - 1].Unnest?)
    ensures a == b && p == q
  {
    assert b == (a + p)[..|b|] && a == (b + q)[..|a|];
    if |a| <= |b| {
      TrailsMeet(a, p, b);
    } else {
      TrailsMeet(b, q, a);
    }
    assert p == (a + p)[|a|..] && q == (b + q)[|b|..];
  }

  lemma {:induction false} PlainPart(t: seq<Elem>, prefix: seq<Elem>)
    requires forall e :: e in prefix ==> e.Step?
    ensures forall k :: |t| <= k < |t + prefix| ==> (t + prefix)[k].Step?
  {
    forall k | |t| <= k < |t + prefix|
      ensures (t + prefix)[k].Step?
    {
      assert prefix[k - |t|] in prefix;
    }
  }

  lemma {:induction false} PendingPath(item: Item)
    requires Pending(item)
    ensures var op, at := OpOf(item), |Trail(item.column)| + |OpOf(item).prefix|;
      && at < |Full(item)| && Full(item)[at].Unnest? && Full(item)[..at] == PlaceOf(op).at
      && (forall e :: e in op.prefix ==> e.Step?)
  {
    var path, t := item.path.value, Trail(item.column);
    var j := FirstUnnest(path);
    assert Full(item) == t + path;
    assert Full(item)[|t| + j] == path[j] && Full(item)[..|t| + j] == t + path[..j];
  }

  /** An item that still has to unnest the place of an operation belongs to the operation. */
  lemma {:induction false} SharersBelong(x: Item, y: Item, j: nat, done: set<Place>)
    requires Pending(x) && Through(x.column, done) && Through(y.column, done) && Ahead(y, done)
    requires |Trail(y.column)| <= j < |Full(y)| && Full(y)[j].Unnest?
    requires Place(Root(y.column), Full(y)[..j]) == PlaceOf(OpOf(x))
    ensures Belongs(y, OpOf(x))
  {
    var at, prefix, u := Full(y)[..j], OpOf(x).prefix, Trail(y.column);
    PendingPath(x);
    SameColumn(x.column, y, prefix, done);
    assert Full(y) == u + y.path.value;
    assert at == u + y.path.value[..j - |u|];
    assert y.path.value[..|prefix|] == at[|u|..] == prefix;
  }

  /** Two items on the way to the same array, which the second one has not passed, are on the same column. */
  lemma {:induction false} SameColumn(x: Column, y: Item, prefix: seq<Elem>, done: set<Place>)
    requires Through(x, done) && Through(y.column, done) && Ahead(y, done) && Root(x) == Root(y.column)
    requires forall e :: e in prefix ==> e.Step?
    requires |Trail(y.column)| <= |Trail(x) + prefix| <= |Full(y)|
    requires Full(y)[..|Trail(x) + prefix|] == Trail(x) + prefix
    ensures x == y.column
  {
    TrailEnds(x);
    TrailEnds(y.column);
    SameTrail(Trail(x), prefix, Trail(y.column), Full(y), Root(x), done);
    TrailIsUnique(x, y.column);
  }

  lemma {:induction false} SameTrail(t: seq<Elem>, prefix: seq<Elem>, u: seq<Elem>, full: seq<Elem>, root: Column,
                                     done: set<Place>)
    requires (t != [] ==> t[|t| - 1].Unnest?) && (u != [] ==> u[|u| - 1].Unnest?) && forall e :: e in prefix ==> e.Step?
    requires forall k :: 0 <= k < |t| && t[k].Unnest? ==> Place(root, t[..k]) in done
    requires forall k :: |u| <= k < |full| && full[k].Unnest? ==> Place(root, full[..k]) !in done
    requires u <= full && |u| <= |t + prefix| && t + prefix <= full
    ensures t == u
  {
    assert t == (t + prefix)[..|t|] == full[..|t|];
    NotBeyond(t, |u|, full, root, done);
    assert u == full[..|u|] == (t + prefix)[..|u|];
    TrailsMeet(t, prefix, u);
  }

  lemma {:induction false} TrailsMeet(t: seq<Elem>, prefix: seq<Elem>, u: seq<Elem>)
    requires u <= t + prefix && |t| <= |u| && (u != [] ==> u[|u| - 1].Unnest?)
    requires forall e :: e in prefix ==> e.Step?
    ensures t == u
  {
    PlainPart(t, prefix);
    assert u != [] ==> (t + prefix)[|u| - 1] == u[|u| - 1];
    assert u == (t + prefix)[..|u|];
  }

  /** A trail through unnested arrays does not go beyond the point from which on none is unnested. */
  lemma {:induction false} NotBeyond(t: seq<Elem>, n: nat, full: seq<Elem>, root: Column, done: set<Place>)
    requires t <= full && (t != [] ==> t[|t| - 1].Unnest?)
    requires forall k :: 0 <= k < |t| && t[k].Unnest? ==> Place(root, t[..k]) in done
    requires forall k :: n <= k < |full| && full[k].Unnest? ==> Place(root, full[..k]) !in done
    ensures |t| <= n
  {
    if t != [] {
      assert t[..|t| - 1] == full[..|t| - 1] && full[|t| - 1] == t[|t| - 1];
    }
  }

  lemma {:induction false} PlainIsAhead(item: Item, done: set<Place>)
    requires !Pending(item)
    ensures Ahead(item, done)
  {
    if item.path.Some? {
      var t := |Trail(item.column)|;
      assert forall j :: t <= j < |Full(item)| ==> Full(item)[j] == item.path.value[j - t];
    }
  }

  /** After a stage, its array is among those that are done, and no item unnests it again. */
  lemma {:induction false} StageDivides(items: seq<Item>, done: set<Place>)
    requires Run(items).Some? && Run(items).value.op.Some? && Divided(items, done)
    ensures var p := Run(items).value;
      && PlaceOf(p.op.value) !in done && Divided(p.items, done + {PlaceOf(p.op.value)})
  {
    var p := Run(items).value;
    var n := RunOp(items);
    var op, place := p.op.value, PlaceOf(p.op.value);
    assert items[n] in items;
    PendingPath(items[n]);
    RunLength(items);
    forall k | 0 <= k < |p.items|
      ensures Through(p.items[k].column, done + {place}) && Ahead(p.items[k], done + {place})
    {
      assert items[k] in items;
      RunItems(items, k);
      if Moved(items[k], p.op, p.items[k]) {
        MovedDivides(items[k], op, done);
      } else {
        KeptAhead(items[n], items[k], done);
      }
    }
  }

  lemma {:induction false} KeptAhead(x: Item, y: Item, done: set<Place>)
    requires Pending(x) && Through(x.column, done) && Through(y.column, done) && Ahead(y, done)
    requires !Pending(y) || !Belongs(y, OpOf(x))
    ensures Ahead(y, done + {PlaceOf(OpOf(x))})
  {
    if Pending(y) {
      forall j | |Trail(y.column)| <= j < |Full(y)| && Full(y)[j].Unnest?
        ensures Place(Root(y.column), Full(y)[..j]) !in done + {PlaceOf(OpOf(x))}
      {
        if Place(Root(y.column), Full(y)[..j]) == PlaceOf(OpOf(x)) {
          SharersBelong(x, y, j, done);
        }
      }
    } else {
      PlainIsAhead(y, done + {PlaceOf(OpOf(x))});
    }
  }

  lemma {:induction false} MovedDivides(item: Item, op: Op, done: set<Place>)
    requires Through(item.column, done) && Ahead(item, done) && forall e :: e in op.prefix ==> e.Step?
    requires Belongs(item, op) && Rewritten(item, op).Some?
    ensures var newItem := Rewritten(item, op).value;
      Through(newItem.column, done + {PlaceOf(op)}) && Ahead(newItem, done + {PlaceOf(op)})
  {
    var newItem, place := Rewritten(item, op).value, PlaceOf(op);
    var c, t := newItem.column, Trail(op.column);
    RewrittenSame(item, op);
    forall j | 0 <= j < |Trail(c)| && Trail(c)[j].Unnest?
      ensures Place(Root(c), Trail(c)[..j]) in done + {place}
    {
      PlainPart(t, op.prefix);
      assert Trail(c) == place.at + [Unnest(c.fn)];
      assert j < |place.at| ==> Trail(c)[j] == place.at[j];
      assert j < |t| || j == |place.at|;
      if j < |t| {
        assert place.at[j] == t[j] && Trail(c)[..j] == t[..j];
      } else {
        assert Trail(c)[..j] == place.at;
      }
    }
    forall j | |Trail(c)| <= j < |Full(newItem)| && Full(newItem)[j].Unnest?
      ensures Place(Root(c), Full(newItem)[..j]) !in done + {place}
    {
      assert |Full(newItem)[..j]| > |place.at|;
    }
  }

  /** The arrays that the stages unnest, in order. */
  function Ops(stages: seq<Stage>): seq<Op> {
    if stages == [] then []
    else if stages[0].op.Some? then [stages[0].op.value] + Ops(stages[1..])
    else Ops(stages[1..])
  }

  predicate DistinctPlaces(ops: seq<Op>) {
    forall i, j :: 0 <= i < j < |ops| ==> PlaceOf(ops[i]) != PlaceOf(ops[j])
  }

  lemma {:induction false} NoArrayTwice(items: seq<Item>, done: set<Place>)
    requires Stages(items).Chain? && Divided(items, done)
    ensures var ops := Ops(Stages(items).stages);
      && DistinctPlaces(ops) && forall i :: 0 <= i < |ops| ==> PlaceOf(ops[i]) !in done
    decreases Remaining(items)
  {
    var p := Run(items).value;
    if p.op.Some? {
      RunShrinks(items);
      StageDivides(items, done);
      NoArrayTwice(p.items, done + {PlaceOf(p.op.value)});
      StagesSplit(items);
      DistinctFrom(p.op.value, Ops(Stages(p.items).stages), done);
    }
  }

  lemma {:induction false} DistinctFrom(op: Op, others: seq<Op>, done: set<Place>)
    requires DistinctPlaces(others) && PlaceOf(op) !in done
    requires forall i :: 0 <= i < |others| ==> PlaceOf(others[i]) !in done + {PlaceOf(op)}
    ensures DistinctPlaces([op] + others)
    ensures forall i :: 0 <= i < |[op] + others| ==> PlaceOf(([op] + others)[i]) !in done
  {
  }

  lemma {:induction false} StagesSplit(items: seq<Item>)
    requires Stages(items).Chain? && Run(items).value.op.Some?
    ensures Remaining(Run(items).value.items) < Remaining(items)
    ensures Stages(Run(items).value.items).Chain?
    ensures var p, all := Run(items).value, Stages(items).stages;
      all[0] == Stage(p.entries, p.op, p.fns) && all[1..] == Stages(p.items).stages
      && Stages(items).items == Stages(p.items).items
  {
    RunShrinks(items);
  }

  /** No array is unnested twice: rows are not multiplied by an array more than once. */
  lemma {:induction false} EveryArrayOnce(items: seq<Item>)
    requires Original(items) && Stages(items).Chain?
    ensures DistinctPlaces(Ops(Stages(items).stages))
  {
    NoArrayTwice(items, {});
  }

  // ---------------------------------------------------------------- when a chain exists, exactly

  /** Both items unnest the same array, `j` elements into their paths. */
  predicate BothUnnest(a: Item, b: Item, j: nat) {
    && Root(a.column) == Root(b.column)
    && j < |Full(a)| && j < |Full(b)| && Full(a)[..j] == Full(b)[..j]
    && Full(a)[j].Unnest? && Full(b)[j].Unnest?
  }

  /** Further on, `b` unnests an array together with `z`, which takes it past the clash. */
  ghost predicate Shields(z: Item, b: Item, j: nat) {
    exists j1: nat :: j < j1 && BothUnnest(z, b, j1)
  }

  /** A later item clashes with an earlier one, and no item before both takes it out of the way. */
  ghost predicate Exposed(items: seq<Item>, i: nat, k: nat, j: nat) {
    i < k < |items| && ClashAt(items[i], items[k], j) && forall z :: 0 <= z < i ==> !Shields(items[z], items[k], j)
  }

  ghost predicate SomeExposed(items: seq<Item>) {
    exists i: nat, k: nat, j: nat :: Exposed(items, i, k, j)
  }

  lemma {:induction false} SameShields(z: Item, b: Item, w: Item, c: Item, j: nat)
    requires Same(z, w) && Same(b, c)
    ensures Shields(z, b, j) <==> Shields(w, c, j)
  {
    if j1: nat :| j < j1 && BothUnnest(z, b, j1) {
      assert BothUnnest(w, c, j1);
    }
    if j1: nat :| j < j1 && BothUnnest(w, c, j1) {
      assert BothUnnest(z, b, j1);
    }
  }

  /** A stage that succeeds changes nothing about this. */
  lemma {:induction false} RunKeepsExposed(items: seq<Item>, i: nat, k: nat, j: nat)
    requires Run(items).Some? && i < |items| && k < |items|
    ensures |Run(items).value.items| == |items|
    ensures Exposed(items, i, k, j) <==> Exposed(Run(items).value.items, i, k, j)
  {
    var p := Run(items).value;
    RunLength(items);
    RunSame(items, i);
    RunSame(items, k);
    forall z | 0 <= z < i
      ensures Shields(items[z], items[k], j) <==> Shields(p.items[z], p.items[k], j)
    {
      RunSame(items, z);
      SameShields(items[z], items[k], p.items[z], p.items[k], j);
    }
  }

  /** The item on which a stage fails is exposed: an earlier item that would shield it has nothing left to unnest,
    * so it would have taken it along. */
  lemma {:induction false} FailureIsExposed(items: seq<Item>, done: set<Place>)
    requires AllSane(items) && Divided(items, done) && Run(items).None?
    ensures SomeExposed(items)
  {
    var n, m := RunStuck(items);
    var x, y := items[n], items[m];
    assert x in items && y in items && Sane(y);
    var j := StuckIsClash(x, y);
    forall z | 0 <= z < n
      ensures !Shields(items[z], y, j)
    {
      assert items[z] in items;
      NothingShields(items[z], y, j, done);
    }
    assert Exposed(items, n, m, j);
  }

  lemma {:induction false} NothingShields(z: Item, y: Item, j: nat, done: set<Place>)
    requires !Pending(z) && Through(z.column, done) && Ahead(y, done) && |Trail(y.column)| <= j
    ensures !Shields(z, y, j)
  {
    forall j1: nat | j < j1
      ensures !BothUnnest(z, y, j1)
    {
      if BothUnnest(z, y, j1) {
        NothingLeft(z, j1, done);
      }
    }
  }

  /** Arrays on the path of an item without anything left to unnest are done. */
  lemma {:induction false} NothingLeft(item: Item, j: nat, done: set<Place>)
    requires !Pending(item) && Through(item.column, done) && j < |Full(item)| && Full(item)[j].Unnest?
    ensures Place(Root(item.column), Full(item)[..j]) in done
  {
    var t := Trail(item.column);
    assert forall i :: |t| <= i < |Full(item)| ==> item.path.Some? && Full(item)[i] == item.path.value[i - |t|];
    if j < |t| {
      assert Full(item)[..j] == t[..j];
    }
  }

  lemma {:induction false} CrashIsExposed(items: seq<Item>, done: set<Place>)
    requires AllSane(items) && Divided(items, done) && Stages(items).Crash?
    ensures SomeExposed(items)
    decreases Remaining(items)
  {
    if Run(items).None? {
      FailureIsExposed(items, done);
    } else {
      var p := Run(items).value;
      RunShrinks(items);
      RunSane(items);
      StageDivides(items, done);
      CrashIsExposed(p.items, done + {PlaceOf(p.op.value)});
      var i: nat, k: nat, j: nat :| Exposed(p.items, i, k, j);
      RunLength(items);
      RunKeepsExposed(items, i, k, j);
    }
  }

  /** If the chain is built, every clash ahead is shielded. */
  lemma {:induction false} ChainIsShielded(items: seq<Item>, done: set<Place>, i: nat, k: nat, j: nat)
    requires AllSane(items) && Divided(items, done) && Stages(items).Chain? && i < k < |items|
    requires |Trail(items[i].column)| <= j && |Trail(items[k].column)| <= j
    ensures !Exposed(items, i, k, j)
    decreases Remaining(items)
  {
    if ClashAt(items[i], items[k], j) {
      var p := Run(items).value;
      RunItems(items, i);
      RunItems(items, k);
      UnnestIsPending(items[i], j);
      RunHasOp(items, i);
      assert items[i] in items && items[k] in items;
      if j < |Trail(p.items[i].column)| {
        FirstIsNotTaken(items, done, i, k, j);
      } else if j < |Trail(p.items[k].column)| {
        var n := RunOp(items);
        TakenPast(items[n], items[k], items[i], j);
      } else {
        StageDivides(items, done);
        StagesSplit(items);
        RunSane(items);
        ChainIsShielded(p.items, done + {PlaceOf(p.op.value)}, i, k, j);
        RunKeepsExposed(items, i, k, j);
      }
    }
  }

  /** A stage that takes the first of two clashing items past the clash fails on the second one. */
  lemma {:induction false} FirstIsNotTaken(items: seq<Item>, done: set<Place>, i: nat, k: nat, j: nat)
    requires Divided(items, done) && Run(items).Some? && Run(items).value.op.Some? && i < k < |items|
    requires |Trail(items[i].column)| <= j && |Trail(items[k].column)| <= j
    requires ClashAt(items[i], items[k], j)
    ensures |Run(items).value.items| == |items| && |Trail(Run(items).value.items[i].column)| <= j
  {
    var p, x, y := Run(items).value, items[i], items[k];
    assert x in items && y in items;
    RunItems(items, i);
    var n := RunOp(items);
    PendingPath(items[n]);
    UnnestIsPending(x, j);
    var op := p.op.value;
    if Belongs(x, op) && Rewritten(x, op).Some? {
      MovedTo(x, op);
      PlainBefore(x, op, j);
      if |PlaceOf(op).at| == j {
        ClashIsStuck(x, y, op, done);
        RunMoves(items, n, k);
      }
    }
  }

  lemma {:induction false} UnnestIsPending(item: Item, j: nat)
    requires |Trail(item.column)| <= j < |Full(item)| && Full(item)[j].Unnest?
    ensures Pending(item) && |Trail(item.column)| + |OpOf(item).prefix| <= j
  {
    var t := |Trail(item.column)|;
    assert item.path.Some? && Full(item)[j] == item.path.value[j - t];
  }

  /** How far a stage takes an item. */
  lemma {:induction false} MovedTo(item: Item, op: Op)
    requires Belongs(item, op) && Rewritten(item, op).Some?
    ensures var j := |PlaceOf(op).at|;
      && |Trail(Rewritten(item, op).value.column)| == j + 1
      && j < |Full(item)| && Full(item)[..j] == PlaceOf(op).at && Full(item)[j].Unnest?
  {
    var path, t, j := item.path.value, Trail(op.column), |op.prefix|;
    assert Full(item) == t + path && path == op.prefix + path[j..];
    assert Full(item) == (t + op.prefix) + path[j..];
  }

  lemma {:induction false} PlainBefore(item: Item, op: Op, j: nat)
    requires Belongs(item, op) && (forall e :: e in op.prefix ==> e.Step?)
    requires |Trail(item.column)| <= j < |Full(item)| && Full(item)[j].Unnest?
    ensures |PlaceOf(op).at| <= j
  {
    var t := |Trail(op.column)|;
    forall i | t <= i < |PlaceOf(op).at|
      ensures i < |Full(item)| && Full(item)[i].Step?
    {
      assert Full(item)[i] == item.path.value[i - t] == op.prefix[i - t] && op.prefix[i - t] in op.prefix;
    }
  }

  /** Where the first of two clashing items is unnested the second one is stuck. */
  lemma {:induction false} ClashIsStuck(x: Item, y: Item, op: Op, done: set<Place>)
    requires Belongs(x, op) && forall e :: e in op.prefix ==> e.Step?
    requires Through(x.column, done) && Through(y.column, done) && Ahead(y, done)
    requires ClashAt(x, y, |PlaceOf(op).at|) && |Trail(y.column)| <= |PlaceOf(op).at|
    requires Full(x)[..|PlaceOf(op).at|] == PlaceOf(op).at
    ensures Belongs(y, op) && Rewritten(y, op).None?
  {
    var at, u := PlaceOf(op).at, Trail(y.column);
    SameColumn(x.column, y, op.prefix, done);
    TrailEnds(y.column);
    hide Trail, Root, Through, Ahead;
    if y.path.Some? {
      var path, n := y.path.value, |op.prefix|;
      assert Full(y) == u + path && at == u + op.prefix;
      assert op.prefix == at[|u|..] == Full(y)[..|at|][|u|..] == path[..n];
      assert n < |path| ==> path[n] == Full(y)[|at|];
    }
  }

  /** If the second of two clashing items is taken past the clash, it is by a third one. */
  lemma {:induction false} TakenPast(z: Item, y: Item, x: Item, j: nat)
    requires Pending(z) && Belongs(y, OpOf(z)) && Rewritten(y, OpOf(z)).Some?
    requires j < |Trail(Rewritten(y, OpOf(z)).value.column)|
    requires ClashAt(x, y, j) && |Trail(x.column)| <= j
    ensures Shields(z, y, j) && z != x
  {
    MovedTo(y, OpOf(z));
    PendingPath(z);
    UnnestIsPending(x, j);
    assert BothUnnest(z, y, |PlaceOf(OpOf(z)).at|);
  }

  /** Building the chain fails exactly if a later item clashes with an earlier one and no item before both takes the
    * later one past the clash. */
  lemma {:induction false} FailsIffExposed(items: seq<Item>)
    requires Original(items)
    ensures Stages(items).Crash? <==> exists i: nat, k: nat, j: nat :: Exposed(items, i, k, j)
  {
    if Stages(items).Crash? {
      CrashIsExposed(items, {});
    } else if i: nat, k: nat, j: nat :| Exposed(items, i, k, j) {
      assert items[i] in items && items[k] in items;
      ChainIsShielded(items, {}, i, k, j);
    }
  }

  function Without(items: seq<Item>, x: Item): seq<Item> {
    if items == [] then [] else if items[0] == x then items[1..] else [items[0]] + Without(items[1..], x)
  }

  lemma {:induction false} WithoutCounts(items: seq<Item>, x: Item)
    requires x in items
    ensures multiset([x] + Without(items, x)) == multiset(items)
    ensures forall y :: y in items && y != x ==> y in Without(items, x)
  {
    if items[0] != x {
      WithoutCounts(items[1..], x);
      assert items == [items[0]] + items[1..];
      assert multiset([x] + Without(items, x)) == multiset{items[0]} + multiset([x] + Without(items[1..], x));
    } else {
      assert [x] + Without(items, x) == items;
    }
  }

  predicate Original(items: seq<Item>) {
    forall item :: item in items ==> Sane(item) && !item.column.Derived?
  }

  /** The chain can be built for every order of the items exactly if no two of them clash. */
  lemma {:induction false} EveryOrderSucceedsIffCompatible(items: seq<Item>)
    requires Original(items)
    ensures (forall order: seq<Item> :: multiset(order) == multiset(items) ==> Stages(order).Chain?)
       <==> Compatible(items)
  {
    if Compatible(items) {
      forall order: seq<Item> | multiset(order) == multiset(items)
        ensures Stages(order).Chain?
      {
        forall x | x in order
          ensures x in items
        {
          assert x in multiset(order);
        }
        CompatibleSucceeds(order);
      }
    } else {
      var a, b :| a in items && b in items && Clash(a, b);
      var order := ClashFirst(items, a, b);
    }
  }

  lemma {:induction false} ClashFirst(items: seq<Item>, a: Item, b: Item) returns (order: seq<Item>)
    requires Original(items) && a in items && b in items && Clash(a, b)
    ensures multiset(order) == multiset(items) && Stages(order).Crash?
  {
    var j: nat :| ClashAt(a, b, j);
    assert a != b;
    order := InFront(items, a, b);
    assert Original(order) by {
      assert forall x :: x in order ==> x in multiset(order);
    }
    assert Exposed(order, 0, 1, j);
    FailsIffExposed(order);
  }

  lemma {:induction false} InFront(items: seq<Item>, a: Item, b: Item) returns (order: seq<Item>)
    requires a in items && b in items && a != b
    ensures multiset(order) == multiset(items) && |order| >= 2 && order[0] == a && order[1] == b
  {
    WithoutCounts(items, a);
    var others := Without(items, a);
    WithoutCounts(others, b);
    var rest := [b] + Without(others, b);
    order := [a] + rest;
    assert multiset(order) == multiset([a]) + multiset(rest);
    assert multiset([a] + others) == multiset([a]) + multiset(others);
  }

  /** The order can decide: a plain path into an array's column may come before the item that unnests the
    * array, but not after it. */
  lemma {:induction false} OrderDecides(c: Column, field: Name)
    requires !c.Derived?
    ensures var x, y := Item(c, Some([Unnest(Elements)]), None, false), Item(c, Some([Step(field)]), None, false);
      Stages([x, y]).Crash? && Stages([y, x]).Chain?
  {
    var x, y := Item(c, Some([Unnest(Elements)]), None, false), Item(c, Some([Step(field)]), None, false);
    assert Full(x) == [Unnest(Elements)] && Full(y) == [Step(field)];
    assert Exposed([x, y], 0, 1, 0);
    FailsIffExposed([x, y]);
    FailsIffExposed([y, x]);
  }

  /** A clash need not be fatal: an item before both may take the later one past it. */
  lemma {:induction false} ShieldedClashSucceeds(c: Column, field: Name)
    requires !c.Derived?
    ensures var x := Item(c, Some([Step(field), Unnest(Elements)]), None, false);
            var y := Item(c, Some([Unnest(Elements)]), None, false);
      Clash(y, x) && Stages([x, y, x]).Chain? && Stages([y, x]).Crash?
  {
    var x := Item(c, Some([Step(field), Unnest(Elements)]), None, false);
    var y := Item(c, Some([Unnest(Elements)]), None, false);
    assert Full(x) == [Step(field), Unnest(Elements)] && Full(y) == [Unnest(Elements)];
    assert ClashAt(y, x, 0) && BothUnnest(x, x, 1);
    assert Exposed([y, x], 0, 1, 0);
    FailsIffExposed([y, x]);
    assert Full(y)[..1][0] != Full(x)[..1][0];
    assert forall j: nat :: !ClashAt(x, y, j) && !ClashAt(x, x, j);
    assert Shields(x, x, 0) && forall j: nat :: ClashAt(y, x, j) ==> j == 0;
    var items := [x, y, x];
    forall i: nat, k: nat, j: nat | i < k < 3
      ensures !Exposed(items, i, k, j)
    {
      assert i == 0 || (i == 1 && k == 2);
      assert Shields(items[0], items[2], 0);
    }
    FailsIffExposed(items);
  }

  // ---------------------------------------------------------------- meaning

  datatype Value = Null | Scalar(n: int) | Struct(fields: map<Name, Value>) | Array(elements: seq<Value>)

  /** A plain step into a value. */
  function StepInto(v: Value, name: Name): Value {
    if v.Struct? && name in v.fields then v.fields[name] else Null
  }

  /** What unnesting a value gives: an empty or missing array counts as one NULL. */
  function Unnested(v: Value): (all: seq<Value>)
    ensures all != []
  {
    if v.Array? && v.elements != [] then v.elements else [Null]
  }

  function Unnesting1(fn: Fn, v: Value, i: nat): Value {
    if i >= |Unnested(v)| then Null else if fn == Elements then Unnested(v)[i] else Scalar(i + 1)
  }

  /** Which element of every array is looked at. */
  type Pick = Place -> nat

  /** What a path into a table's column means under a choice of elements; `at` is the path that led to `v`. */
  function Meaning(v: Value, root: Column, at: seq<Elem>, path: seq<Elem>, pick: Pick): Value
    decreases |path|
  {
    if path == [] then v
    else
      var next := match path[0]
        case Step(name) => StepInto(v, name)
        case Unnest(fn) => Unnesting1(fn, v, pick(Place(root, at)));
      Meaning(next, root, at + [path[0]], path[1..], pick)
  }

  type Row = map<Column, Value>

  function Lookup(row: Row, c: Column): Value {
    if c in row then row[c] else Null
  }

  /** The stage's array in a row. */
  function ArrayOf(row: Row, op: Op): Value {
    Steps(Lookup(row, op.column), op.prefix)
  }

  function Steps(v: Value, path: seq<Elem>): Value
    decreases |path|
  {
    if path == [] then v else Steps(if path[0].Step? then StepInto(v, path[0].name) else Null, path[1..])
  }

  /** All columns a stage exports. */
  function Columns(entries: seq<Entry>, fns: set<Fn>): (r: set<Column>)
    ensures forall c :: c in r <==> IsExported(c, entries, fns)
  {
    if entries == [] then {}
    else
      var last := |entries| - 1;
      var r := Columns(entries[..last], fns) + Exports(entries[last], fns);
      assert forall c :: IsExported(c, entries[..last], fns) ==> IsExported(c, entries, fns) by {
        forall c | IsExported(c, entries[..last], fns)
          ensures IsExported(c, entries, fns)
        {
          ExportedMore(c, entries[..last], fns, entries, fns);
        }
      }
      r
  }

  /** One row of a stage's result: the i-th element of the array next to the carried columns. */
  function NextRow(row: Row, stage: Stage, i: nat): Row {
    map c | c in Columns(stage.entries, stage.fns) ::
      if stage.op.Some? && c.Derived? && Op(c.column, c.prefix) == stage.op.value then
        Unnesting1(c.fn, ArrayOf(row, stage.op.value), i)
      else Lookup(row, c)
  }

  /** The final stage's input row for one choice of an element per stage, if those elements exist. */
  function FinalRow(row: Row, stages: seq<Stage>, choices: seq<nat>): Option<Row>
    decreases |stages|
  {
    if stages == [] || stages[0].op.None? then if choices == [] then Some(row) else None
    else if choices == [] || choices[0] >= |Unnested(ArrayOf(row, stages[0].op.value))| then None
    else FinalRow(NextRow(row, stages[0], choices[0]), stages[1..], choices[1..])
  }

  /** Every column of the row is what its trail means in the table's row. */
  ghost predicate Faithful(row: Row, source: Row, pick: Pick) {
    forall c :: c in row ==> row[c] == Meaning(Lookup(source, Root(c)), Root(c), [], Trail(c), pick)
  }

  lemma {:induction false} MeaningOfConcat(v: Value, root: Column, at: seq<Elem>, p: seq<Elem>, q: seq<Elem>,
                                           pick: Pick)
    ensures Meaning(v, root, at, p + q, pick) == Meaning(Meaning(v, root, at, p, pick), root, at + p, q, pick)
    decreases |p|
  {
    if p == [] {
      assert p + q == q && at + p == at;
    } else {
      assert (p + q)[1..] == p[1..] + q && (p + q)[0] == p[0];
      assert at + p == (at + [p[0]]) + p[1..];
      var next := match p[0]
        case Step(name) => StepInto(v, name)
        case Unnest(fn) => Unnesting1(fn, v, pick(Place(root, at)));
      MeaningOfConcat(next, root, at + [p[0]], p[1..], q, pick);
    }
  }

  lemma {:induction false} StepsMean(v: Value, root: Column, at: seq<Elem>, path: seq<Elem>, pick: Pick)
    requires forall e :: e in path ==> e.Step?
    ensures Steps(v, path) == Meaning(v, root, at, path, pick)
    decreases |path|
  {
    if path != [] {
      assert path[0] in path;
      StepsMean(StepInto(v, path[0].name), root, at + [path[0]], path[1..], pick);
    }
  }

  /** The unnested columns of a stage mean what their trails mean. */
  lemma {:induction false} UnnestedColumnMeans(row: Row, source: Row, pick: Pick, op: Op, fn: Fn, i: nat)
    requires Faithful(row, source, pick) && op.column in row && forall e :: e in op.prefix ==> e.Step?
    requires pick(PlaceOf(op)) == i
    ensures var c := Derived(op.column, op.prefix, fn);
      Unnesting1(fn, ArrayOf(row, op), i) == Meaning(Lookup(source, Root(c)), Root(c), [], Trail(c), pick)
  {
    var c, root, t := Derived(op.column, op.prefix, fn), Root(op.column), Trail(op.column);
    var v := Lookup(source, root);
    StepsMean(row[op.column], root, [] + t, op.prefix, pick);
    MeaningOfConcat(v, root, [], t, op.prefix, pick);
    assert Trail(c) == (t + op.prefix) + [Unnest(fn)];
    MeaningOfConcat(v, root, [], t + op.prefix, [Unnest(fn)], pick);
    var found := Meaning(v, root, [], t + op.prefix, pick);
    assert [] + (t + op.prefix) == PlaceOf(op).at && [Unnest(fn)][1..] == [];
    assert Meaning(found, root, PlaceOf(op).at, [Unnest(fn)], pick)
        == Meaning(Unnesting1(fn, found, i), root, PlaceOf(op).at + [Unnest(fn)], [], pick);
  }

  /** A stage keeps the columns faithful, provided that it finds what it refers to. */
  lemma {:induction false} NextRowIsFaithful(row: Row, source: Row, pick: Pick, stage: Stage, i: nat)
    requires Faithful(row, source, pick) && stage.op.Some? && forall e :: e in stage.op.value.prefix ==> e.Step?
    requires forall entry, c :: entry in stage.entries && c in EntryRefers(entry) ==> c in row
    requires forall entry :: entry in stage.entries && entry.Carried? ==> entry.item.derivation != Some(RowNumber)
    requires Operation(stage.op.value) in stage.entries && OneOperation(stage)
    requires pick(PlaceOf(stage.op.value)) == i
    ensures Faithful(NextRow(row, stage, i), source, pick)
  {
    var op := stage.op.value;
    var next := NextRow(row, stage, i);
    assert op.column in EntryRefers(Operation(op));
    forall c | c in next
      ensures next[c] == Meaning(Lookup(source, Root(c)), Root(c), [], Trail(c), pick)
    {
      if c.Derived? && Op(c.column, c.prefix) == op {
        UnnestedColumnMeans(row, source, pick, op, c.fn, i);
      } else {
        var k :| 0 <= k < |stage.entries| && c in Exports(stage.entries[k], stage.fns);
        assert stage.entries[k] in stage.entries;
        assert stage.entries[k].Carried? && c in EntryRefers(stage.entries[k]);
      }
    }
  }

  predicate OneOperation(stage: Stage) {
    forall entry :: entry in stage.entries && entry.Operation? ==> stage.op == Some(entry.op)
  }

  lemma {:induction false} RunOperations(items: seq<Item>)
    requires Run(items).Some? && NoRowNumbers(items)
    ensures var p := Run(items).value;
      && (forall entry :: entry in p.entries && entry.Operation? ==> p.op == Some(entry.op))
      && (forall entry :: entry in p.entries && entry.Carried? ==> entry.item.derivation != Some(RowNumber))
      && (p.op.Some? ==> Operation(p.op.value) in p.entries)
  {
    if items != [] {
      var last := |items| - 1;
      assert items[last] in items;
      RunOperations(items[..last]);
    }
  }

  predicate NoRowNumbers(items: seq<Item>) {
    forall item :: item in items ==> item.derivation != Some(RowNumber)
  }

  lemma {:induction false} RunNoRowNumbers(items: seq<Item>)
    requires Run(items).Some? && NoRowNumbers(items)
    ensures NoRowNumbers(Run(items).value.items)
  {
    var p := Run(items).value;
    RunLength(items);
    forall k | 0 <= k < |p.items|
      ensures p.items[k].derivation != Some(RowNumber)
    {
      assert items[k] in items;
      RunItems(items, k);
    }
  }

  predicate Has(row: Row, items: seq<Item>) {
    forall item, c :: item in items && c in Refers(item) ==> c in row
  }

  lemma {:induction false} StageRow(items: seq<Item>, row: Row, source: Row, pick: Pick, i: nat)
    requires Run(items).Some? && Run(items).value.op.Some? && AllSane(items) && NoRowNumbers(items)
    requires Faithful(row, source, pick) && Has(row, items) && pick(PlaceOf(Run(items).value.op.value)) == i
    ensures var p := Run(items).value;
            var next := NextRow(row, Stage(p.entries, p.op, p.fns), i);
      Faithful(next, source, pick) && Has(next, p.items)
  {
    var p := Run(items).value;
    var stage := Stage(p.entries, p.op, p.fns);
    RunOperations(items);
    RunShrinks(items);
    forall entry, c | entry in stage.entries && c in EntryRefers(entry)
      ensures c in row
    {
      RunRefers(items, entry, c);
      var k :| 0 <= k < |items| && c in Refers(items[k]);
      assert items[k] in items;
    }
    NextRowIsFaithful(row, source, pick, stage, i);
    RunLength(items);
    forall k, c | 0 <= k < |p.items| && c in Refers(p.items[k])
      ensures c in NextRow(row, stage, i)
    {
      RunExports(items, k);
    }
  }

  /** Choices agree with a pick of elements if they are those of the stages' arrays. */
  ghost predicate Picks(ops: seq<Op>, choices: seq<nat>, pick: Pick) {
    |choices| == |ops| && forall k :: 0 <= k < |ops| ==> pick(PlaceOf(ops[k])) == choices[k]
  }

  lemma {:induction false} FinalRowIsFaithful(items: seq<Item>, row: Row, source: Row, choices: seq<nat>, pick: Pick)
    requires Stages(items).Chain? && AllSane(items) && NoRowNumbers(items)
    requires Faithful(row, source, pick) && Has(row, items)
    requires Picks(Ops(Stages(items).stages), choices, pick)
    requires FinalRow(row, Stages(items).stages, choices).Some?
    ensures var final := FinalRow(row, Stages(items).stages, choices).value;
      Faithful(final, source, pick) && Has(final, Stages(items).items)
    decreases Remaining(items)
  {
    var p := Run(items).value;
    if p.op.Some? {
      StagesSplit(items);
      var all := Stages(items).stages;
      PicksTail(all, choices, pick);
      FinalRowStep(row, all, choices);
      StageRow(items, row, source, pick, choices[0]);
      RunSane(items);
      RunNoRowNumbers(items);
      FinalRowIsFaithful(p.items, NextRow(row, all[0], choices[0]), source, choices[1..], pick);
    } else {
      RunIdle(items);
    }
  }

  lemma {:induction false} PicksTail(stages: seq<Stage>, choices: seq<nat>, pick: Pick)
    requires stages != [] && stages[0].op.Some? && Picks(Ops(stages), choices, pick)
    ensures choices != [] && pick(PlaceOf(stages[0].op.value)) == choices[0]
    ensures Picks(Ops(stages[1..]), choices[1..], pick)
  {
    var ops, rest := Ops(stages), Ops(stages[1..]);
    assert ops == [stages[0].op.value] + rest;
    assert forall k :: 0 <= k < |rest| ==> rest[k] == ops[k + 1];
  }

  lemma {:induction false} FinalRowStep(row: Row, stages: seq<Stage>, choices: seq<nat>)
    requires stages != [] && stages[0].op.Some? && FinalRow(row, stages, choices).Some?
    ensures choices != []
    ensures FinalRow(row, stages, choices) == FinalRow(NextRow(row, stages[0], choices[0]), stages[1..], choices[1..])
  {
  }

  /** A stage without an array to unnest changes nothing. */
  lemma {:induction false} RunIdle(items: seq<Item>)
    requires Run(items).Some? && Run(items).value.op.None?
    ensures Run(items).value.items == items
  {
    var p := Run(items).value;
    RunLength(items);
    forall k | 0 <= k < |p.items|
      ensures p.items[k] == items[k]
    {
      RunItems(items, k);
    }
  }

  /** The element that the choices name for a place. */
  function Chosen(ops: seq<Op>, choices: seq<nat>, place: Place): nat
    requires |ops| == |choices|
  {
    if ops == [] then 0
    else if PlaceOf(ops[0]) == place then choices[0]
    else Chosen(ops[1..], choices[1..], place)
  }

  lemma {:induction false} ChosenPicks(ops: seq<Op>, choices: seq<nat>, k: nat)
    requires |ops| == |choices| && DistinctPlaces(ops) && k < |ops|
    ensures Chosen(ops, choices, PlaceOf(ops[k])) == choices[k]
  {
    if k > 0 {
      ChosenPicks(ops[1..], choices[1..], k - 1);
    }
  }

  function PathOf(item: Item): seq<Elem> {
    if item.path.Some? then item.path.value else []
  }

  /** What the final stage reads for an item: its column and the plain path that is left. */
  function ValueIn(row: Row, item: Item): Value {
    Steps(Lookup(row, item.column), PathOf(item))
  }

  /** What an item asks for in the table's row. */
  function ValueAsked(source: Row, item: Item, pick: Pick): Value {
    Meaning(Lookup(source, Root(item.column)), Root(item.column), [], Full(item), pick)
  }

  function PickOf(ops: seq<Op>, choices: seq<nat>): Pick
    requires |ops| == |choices|
  {
    place => Chosen(ops, choices, place)
  }

  /** In every row that the chain feeds to the final stage, an item reads what the original item asks for in the
    * table's row, for the elements that the stages chose. */
  lemma {:induction false} ChainKeepsMeaning(items: seq<Item>, source: Row, choices: seq<nat>, k: nat)
    requires Original(items) && NoRowNumbers(items) && Stages(items).Chain?
    requires Has(source, items) && forall c :: c in source ==> !c.Derived?
    requires |choices| == |Ops(Stages(items).stages)| && FinalRow(source, Stages(items).stages, choices).Some?
    requires k < |items| && !items[k].countAll
    ensures var ops, last := Ops(Stages(items).stages), Stages(items).items;
            var final := FinalRow(source, Stages(items).stages, choices).value;
      && |last| == |items| && last[k].column in final
      && ValueIn(final, last[k]) == ValueAsked(source, items[k], PickOf(ops, choices))
  {
    var pick := PickOf(Ops(Stages(items).stages), choices);
    AllChosenPick(items, choices);
    SourceIsFaithful(source, pick);
    FinalRowIsFaithful(items, source, source, choices, pick);
    FinalItemsAnswer(items, k);
    FinalItemMeans(items, source, FinalRow(source, Stages(items).stages, choices).value, pick, k);
  }

  lemma {:induction false} AllChosenPick(items: seq<Item>, choices: seq<nat>)
    requires Original(items) && Stages(items).Chain? && |choices| == |Ops(Stages(items).stages)|
    ensures Picks(Ops(Stages(items).stages), choices, PickOf(Ops(Stages(items).stages), choices))
  {
    var ops := Ops(Stages(items).stages);
    EveryArrayOnce(items);
    forall j | 0 <= j < |ops|
      ensures PickOf(ops, choices)(PlaceOf(ops[j])) == choices[j]
    {
      ChosenPicks(ops, choices, j);
    }
  }

  lemma {:induction false} SourceIsFaithful(source: Row, pick: Pick)
    requires forall c :: c in source ==> !c.Derived?
    ensures Faithful(source, source, pick)
  {
  }

  lemma {:induction false} FinalItemMeans(items: seq<Item>, source: Row, final: Row, pick: Pick, k: nat)
    requires Stages(items).Chain? && k < |items| == |Stages(items).items|
    requires var last := Stages(items).items[k];
      Same(items[k], last) && !Pending(last) && !last.countAll && last.derivation != Some(RowNumber)
    requires Faithful(final, source, pick) && Has(final, Stages(items).items)
    ensures var last := Stages(items).items[k];
      last.column in final && ValueIn(final, last) == ValueAsked(source, items[k], pick)
  {
    var item, last := items[k], Stages(items).items[k];
    assert last in Stages(items).items && last.column in Refers(last);
    var root, t := Root(last.column), Trail(last.column);
    StepsMean(final[last.column], root, [] + t, PathOf(last), pick);
    MeaningOfConcat(Lookup(source, root), root, [], t, PathOf(last), pick);
  }
}
