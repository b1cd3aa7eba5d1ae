/** The chain of CTE stages that unnests arrays: getUnnestingStages of src/DataSet/SqlQueryGenerator.js. */
module Unnesting {
  import opened Options

  type Name(==, !new)

  /** The unnesting functions: `unnest()` and `generate_subscripts()`. */
  datatype Fn = Elements | Indices

  /** An element of a member expression path. Fields and all other functions are plain steps. */
  datatype Elem = Step(name: Name) | Unnest(fn: Fn)

  /** A column is one of the table, the row number, or what an earlier stage unnested. */
  datatype Column = Base(name: Name) | Numbered | Derived(column: Column, prefix: seq<Elem>, fn: Fn)

  datatype Derivation = RowNumber | Unnesting | Other(name: Name)

  datatype Item = Item(column: Column, path: Option<seq<Elem>>, derivation: Option<Derivation>, countAll: bool)

  /** An array to unnest: a column and a path into it. */
  datatype Op = Op(column: Column, prefix: seq<Elem>)

  datatype Entry = Carried(item: Item) | Operation(op: Op)

  function FirstUnnest(path: seq<Elem>): (j: nat)
    ensures j <= |path|
    ensures j < |path| ==> path[j].Unnest?
    ensures forall i :: 0 <= i < j ==> path[i].Step?
  {
    if path == [] || path[0].Unnest? then 0 else 1 + FirstUnnest(path[1..])
  }

  /** Does the item still hold an unnesting element? */
  predicate Pending(item: Item) {
    item.path.Some? && FirstUnnest(item.path.value) < |item.path.value|
  }

  function OpOf(item: Item): Op
    requires Pending(item)
  {
    Op(item.column, item.path.value[..FirstUnnest(item.path.value)])
  }

  predicate Belongs(item: Item, op: Op) {
    item.path.Some? && item.column == op.column && op.prefix <= item.path.value
  }

  /** The item as the next stage sees it, or nothing if it has no unnesting element where the stage unnests. */
  function Rewritten(item: Item, op: Op): Option<Item>
    requires Belongs(item, op)
  {
    var j, path := |op.prefix|, item.path.value;
    if j >= |path| || path[j].Step? then None
    else
      var rest := path[j + 1..];
      var newItem := item.(column := Derived(op.column, op.prefix, path[j].fn));
      if rest != [] then Some(newItem.(path := Some(rest)))
      else
        Some(newItem.(path := None, derivation := if item.derivation == Some(Unnesting) then None else item.derivation))
  }

  /** The state of the loop over a stage's items. */
  datatype Progress = Progress(op: Option<Op>, entries: seq<Entry>, fns: set<Fn>, items: seq<Item>)

  function Found(p: Progress, item: Item): Progress {
    if p.op.None? && Pending(item) then p.(op := Some(OpOf(item)), entries := p.entries + [Operation(OpOf(item))])
    else p
  }

  function Placed(p: Progress, item: Item): Option<Progress> {
    if item.path.None? || p.op.None? || !Belongs(item, p.op.value) then
      Some(p.(entries := p.entries + [Carried(item)], items := p.items + [item]))
    else
      match Rewritten(item, p.op.value)
      case None => None
      case Some(newItem) =>
        Some(p.(items := p.items + [newItem], fns := p.fns + {item.path.value[|p.op.value.prefix|].fn}))
  }

  /** One stage. None is the source's TypeError on an item without an unnesting element. */
  function Run(items: seq<Item>): Option<Progress> {
    if items == [] then Some(Progress(None, [], {}, []))
    else
      match Run(items[..|items| - 1])
      case None => None
      case Some(p) => Placed(Found(p, items[|items| - 1]), items[|items| - 1])
  }

  method RunStage(items: seq<Item>) returns (result: Option<Progress>)
    ensures result == Run(items)
  {
    var unnestingItem: Option<Op> := None;
    var entries: seq<Entry>, fns: set<Fn>, newItems: seq<Item> := [], {}, [];
    for i := 0 to |items|
      invariant Run(items[..i]) == Some(Progress(unnestingItem, entries, fns, newItems))
    {
      var item := items[i];
      assert items[..i + 1][..i] == items[..i];
      if item.path.None? {
        entries, newItems := entries + [Carried(item)], newItems + [item];
        continue;
      }
      if unnestingItem.None? {
        var j := FindUnnest(item.path.value);
        if j < |item.path.value| {
          unnestingItem := Some(Op(item.column, item.path.value[..j]));
          entries := entries + [Operation(unnestingItem.value)];
        }
      }
      if unnestingItem.None? || !Belongs(item, unnestingItem.value) {
        entries, newItems := entries + [Carried(item)], newItems + [item];
        continue;
      }
      var newItem := Rewritten(item, unnestingItem.value);
      if newItem.None? {
        RunFails(items, i + 1);
        return None;
      }
      fns := fns + {item.path.value[|unnestingItem.value.prefix|].fn};
      newItems := newItems + [newItem.value];
    }
    assert items[..|items|] == items;
    return Some(Progress(unnestingItem, entries, fns, newItems));
  }

  method FindUnnest(path: seq<Elem>) returns (j: nat)
    ensures j == FirstUnnest(path)
  {
    for i := 0 to |path|
      invariant FirstUnnest(path) == i + FirstUnnest(path[i..])
    {
      assert path[i..][1..] == path[i + 1..];
      if path[i].Unnest? {
        return i;
      }
    }
    return |path|;
  }

  /** A stage that fails early fails. */
  lemma {:induction false} RunFails(items: seq<Item>, k: nat)
    requires k <= |items| && Run(items[..k]).None?
    ensures Run(items).None?
  {
    if k < |items| {
      var before := items[..|items| - 1];
      assert items[..k] == before[..k];
      RunFails(before, k);
    } else {
      assert items[..k] == items;
    }
  }

  // ---------------------------------------------------------------- the chain of stages

  function Unnests(path: seq<Elem>): nat {
    if path == [] then 0 else Unnests(path[1..]) + if path[0].Unnest? then 1 else 0
  }

  /** The unnesting elements left in all paths. */
  function Remaining(items: seq<Item>): nat {
    if items == [] then 0
    else
      Remaining(items[..|items| - 1]) + Left(items[|items| - 1])
  }

  lemma {:induction false} UnnestsAfter(path: seq<Elem>, j: nat)
    requires j < |path| && path[j].Unnest? && forall i :: 0 <= i < j ==> path[i].Step?
    ensures Unnests(path) == 1 + Unnests(path[j + 1..])
  {
    if j > 0 {
      UnnestsAfter(path[1..], j - 1);
      assert path[1..][j..] == path[j + 1..];
    }
  }

  function Left(item: Item): nat {
    if item.path.Some? then Unnests(item.path.value) else 0
  }

  predicate Plain(path: seq<Elem>) {
    forall e :: e in path ==> e.Step?
  }

  lemma {:induction false} RewrittenShrinks(item: Item, op: Op)
    requires Belongs(item, op) && Plain(op.prefix) && Rewritten(item, op).Some?
    ensures Left(Rewritten(item, op).value) + 1 == Left(item)
  {
    var path, j := item.path.value, |op.prefix|;
    forall i | 0 <= i < j
      ensures path[i].Step?
    {
      assert path[i] == op.prefix[i] && op.prefix[i] in op.prefix;
    }
    UnnestsAfter(path, j);
  }

  /** Placing an item appends it, with one unnesting element less if it belongs to the stage's array. */
  lemma {:induction false} PlacedShrinks(p: Progress, item: Item) returns (newItem: Item)
    requires Placed(p, item).Some? && (p.op.Some? ==> Plain(p.op.value.prefix))
    ensures var r := Placed(p, item).value; r.items == p.items + [newItem] && r.op == p.op
    ensures Left(newItem) + (if p.op.Some? && Belongs(item, p.op.value) then 1 else 0) == Left(item)
  {
    if item.path.None? || p.op.None? || !Belongs(item, p.op.value) {
      newItem := item;
    } else {
      newItem := Rewritten(item, p.op.value).value;
      RewrittenShrinks(item, p.op.value);
    }
  }

  lemma {:induction false} RemainingSnoc(items: seq<Item>, item: Item)
    ensures Remaining(items + [item]) == Remaining(items) + Left(item)
  {
    assert (items + [item])[..|items|] == items;
  }

  lemma {:induction false} OpOfIsPlain(item: Item)
    requires Pending(item)
    ensures Plain(OpOf(item).prefix) && Belongs(item, OpOf(item))
  {
  }

  /** Every stage that unnests leaves fewer unnesting elements. */
  lemma {:induction false} RunShrinks(items: seq<Item>)
    requires Run(items).Some?
    ensures var p := Run(items).value;
      && (p.op.Some? ==> Plain(p.op.value.prefix))
      && Remaining(p.items) + (if p.op.Some? then 1 else 0) <= Remaining(items)
  {
    if items != [] {
      var init, item := items[..|items| - 1], items[|items| - 1];
      assert items == init + [item];
      RunShrinks(init);
      var before := Run(init).value;
      if before.op.None? && Pending(item) {
        OpOfIsPlain(item);
      }
      var newItem := PlacedShrinks(Found(before, item), item);
      RemainingSnoc(before.items, newItem);
      RemainingSnoc(init, item);
    }
  }

  datatype Stage = Stage(entries: seq<Entry>, op: Option<Op>, fns: set<Fn>)

  datatype Outcome = Crash | Chain(stages: seq<Stage>, items: seq<Item>)

  function Stages(items: seq<Item>): Outcome
    decreases Remaining(items)
  {
    match Run(items)
    case None => Crash
    case Some(p) =>
      var stage := Stage(p.entries, p.op, p.fns);
      if p.op.None? then Chain([stage], p.items)
      else
        RunShrinks(items);
        After([stage], Stages(p.items))
  }

  function After(stages: seq<Stage>, outcome: Outcome): Outcome {
    if outcome.Crash? then Crash else Chain(stages + outcome.stages, outcome.items)
  }

  method UnnestAll(items: seq<Item>) returns (outcome: Outcome)
    ensures outcome == Stages(items)
  {
    var stages, current := [], items;
    assert After([], Stages(items)) == Stages(items);
    while true
      invariant After(stages, Stages(current)) == Stages(items)
      decreases Remaining(current)
    {
      var p := RunStage(current);
      if p.None? {
        return Crash;
      }
      var stage := Stage(p.value.entries, p.value.op, p.value.fns);
      if p.value.op.None? {
        return Chain(stages + [stage], p.value.items);
      }
      RunShrinks(current);
      AfterAfter(stages, [stage], Stages(p.value.items));
      stages, current := stages + [stage], p.value.items;
    }
  }

  lemma {:induction false} AfterAfter(a: seq<Stage>, b: seq<Stage>, outcome: Outcome)
    ensures After(a, After(b, outcome)) == After(a + b, outcome)
  {
    if outcome.Chain? {
      assert a + (b + outcome.stages) == (a + b) + outcome.stages;
    }
  }

  // ---------------------------------------------------------------- what becomes of an item

  /** What the source's callers write: counting rows and numbering them needs no path, a path is not empty, and
    * the unnesting derivations end in an unnesting element. */
  predicate Sane(item: Item) {
    && (item.countAll || item.derivation == Some(RowNumber) ==> item.path.None?)
    && (item.path.Some? ==> item.path.value != [])
    && (item.derivation == Some(Unnesting) ==>
          item.path.Some? && item.path.value != [] && item.path.value[|item.path.value| - 1].Unnest?)
  }

  predicate AllSane(items: seq<Item>) {
    forall item :: item in items ==> Sane(item)
  }

  /** The column of the table that a column comes from. */
  function Root(c: Column): Column {
    if c.Derived? then Root(c.column) else c
  }

  /** The path that led from there to the column. */
  function Trail(c: Column): seq<Elem> {
    if c.Derived? then Trail(c.column) + c.prefix + [Unnest(c.fn)] else []
  }

  /** The whole path of an item, with what earlier stages took off. */
  function Full(item: Item): seq<Elem> {
    Trail(item.column) + if item.path.Some? then item.path.value else []
  }

  /** Unnesting derivations are done by the stages, others are left to the final stage. */
  function Effective(item: Item): Option<Derivation> {
    if item.derivation == Some(Unnesting) then None else item.derivation
  }

  /** Both ask for the same thing. */
  predicate Same(a: Item, b: Item) {
    Root(a.column) == Root(b.column) && Full(a) == Full(b) && Effective(a) == Effective(b) && a.countAll == b.countAll
  }

  lemma {:induction false} RewrittenSame(item: Item, op: Op)
    requires Belongs(item, op) && Rewritten(item, op).Some?
    ensures Same(item, Rewritten(item, op).value)
    ensures Sane(item) ==> Sane(Rewritten(item, op).value)
  {
    var path, j := item.path.value, |op.prefix|;
    var newItem := Rewritten(item, op).value;
    assert path == path[..j] + [path[j]] + path[j + 1..];
    assert Full(item) == Trail(op.column) + op.prefix + [Unnest(path[j].fn)] + path[j + 1..];
    if path[j + 1..] == [] {
      assert Full(newItem) == Full(item);
    } else {
      assert path[j + 1..][|path[j + 1..]| - 1] == path[|path| - 1];
    }
  }

  /** A stage leaves the item alone, because it is not concerned, or moves it past the unnested array. */
  predicate Kept(item: Item, op: Option<Op>, after: Item) {
    after == item && (op.Some? ==> !Pending(item) || !Belongs(item, op.value)) && (op.None? ==> !Pending(item))
  }

  predicate Moved(item: Item, op: Option<Op>, after: Item) {
    op.Some? && Belongs(item, op.value) && Rewritten(item, op.value) == Some(after)
  }

  /** Stages map items one to one, in order. */
  lemma {:induction false} RunItems(items: seq<Item>, k: nat)
    requires Run(items).Some? && k < |items|
    ensures var p := Run(items).value;
      |p.items| == |items| && (Kept(items[k], p.op, p.items[k]) || Moved(items[k], p.op, p.items[k]))
  {
    RunLength(items);
    var last := |items| - 1;
    if k < last {
      RunItems(items[..last], k);
      var before, p := Run(items[..last]).value, Run(items).value;
      assert p.items[..last] == before.items;
      if before.op.None? && p.op.Some? {
        assert Kept(items[k], p.op, p.items[k]);
      }
    }
  }

  lemma {:induction false} RunLength(items: seq<Item>)
    requires Run(items).Some?
    ensures |Run(items).value.items| == |items|
  {
    if items != [] {
      RunLength(items[..|items| - 1]);
    }
  }

  /** The array that a stage unnests is the first one of the first item that has any. */
  lemma {:induction false} RunOp(items: seq<Item>) returns (n: nat)
    requires Run(items).Some? && Run(items).value.op.Some?
    ensures n < |items| && Pending(items[n]) && OpOf(items[n]) == Run(items).value.op.value
    ensures forall z :: 0 <= z < n ==> !Pending(items[z])
  {
    var last := |items| - 1;
    if Run(items[..last]).value.op.Some? {
      n := RunOp(items[..last]);
    } else {
      n := last;
      forall z | 0 <= z < n
        ensures !Pending(items[z])
      {
        RunItems(items[..last], z);
      }
    }
  }

  lemma {:induction false} RunHasOp(items: seq<Item>, k: nat)
    requires Run(items).Some? && k < |items| && Pending(items[k])
    ensures Run(items).value.op.Some?
  {
    RunItems(items, k);
  }

  /** A stage that fails does so on an item after the first one that has an array to unnest. */
  lemma {:induction false} RunStuck(items: seq<Item>) returns (n: nat, m: nat)
    requires Run(items).None?
    ensures n < m < |items| && Pending(items[n]) && forall z :: 0 <= z < n ==> !Pending(items[z])
    ensures Belongs(items[m], OpOf(items[n])) && Rewritten(items[m], OpOf(items[n])).None?
  {
    var last := |items| - 1;
    if Run(items[..last]).None? {
      n, m := RunStuck(items[..last]);
    } else {
      n := RunOp(items[..last]);
      m := last;
    }
  }

  /** From the first item with an array to unnest on, all items that belong to it are moved. */
  lemma {:induction false} RunMoves(items: seq<Item>, n: nat, k: nat)
    requires Run(items).Some? && n <= k < |items| && Pending(items[n])
    requires Run(items).value.op.Some? && Belongs(items[k], Run(items).value.op.value)
    ensures Rewritten(items[k], Run(items).value.op.value).Some?
  {
    var last := |items| - 1;
    if k < last {
      RunItems(items[..last], n);
      RunMoves(items[..last], n, k);
    }
  }

  /** The final item at an index answers the original item at that index, without anything left to unnest. */
  lemma {:induction false} FinalItemsAnswer(items: seq<Item>, k: nat)
    requires Stages(items).Chain? && AllSane(items) && k < |items|
    ensures var last := Stages(items).items;
      && |last| == |items| && Same(items[k], last[k]) && Sane(last[k])
      && !Pending(last[k]) && last[k].derivation == Effective(items[k])
    decreases Remaining(items)
  {
    var p := Run(items).value;
    RunItems(items, k);
    if p.op.Some? {
      RunShrinks(items);
      RunSane(items);
      FinalItemsAnswer(p.items, k);
      if Moved(items[k], p.op, p.items[k]) {
        RewrittenSame(items[k], p.op.value);
      }
    }
  }

  lemma {:induction false} RunSane(items: seq<Item>)
    requires Run(items).Some? && AllSane(items)
    ensures AllSane(Run(items).value.items)
  {
    var p := Run(items).value;
    RunLength(items);
    forall k | 0 <= k < |p.items|
      ensures Sane(p.items[k])
    {
      RunItems(items, k);
      if Moved(items[k], p.op, p.items[k]) {
        RewrittenSame(items[k], p.op.value);
      }
    }
  }

  // ---------------------------------------------------------------- exported columns

  function Refers(item: Item): set<Column> {
    if item.derivation == Some(RowNumber) || item.countAll then {} else {item.column}
  }

  function EntryRefers(entry: Entry): set<Column> {
    match entry
    case Carried(item) => Refers(item)
    case Operation(op) => {op.column}
  }

  function Exports(entry: Entry, fns: set<Fn>): set<Column> {
    match entry
    case Carried(item) =>
      if item.derivation == Some(RowNumber) then {Numbered} else if item.countAll then {} else {item.column}
    case Operation(op) =>
      set fn | fn in fns :: Derived(op.column, op.prefix, fn)
  }

  predicate IsExported(c: Column, entries: seq<Entry>, fns: set<Fn>) {
    exists i :: 0 <= i < |entries| && c in Exports(entries[i], fns)
  }

  lemma {:induction false} ExportedMore(c: Column, entries: seq<Entry>, fns: set<Fn>, more: seq<Entry>,
                                        moreFns: set<Fn>)
    requires IsExported(c, entries, fns) && entries <= more && fns <= moreFns
    ensures IsExported(c, more, moreFns)
  {
    var i :| 0 <= i < |entries| && c in Exports(entries[i], fns);
    assert c in Exports(more[i], moreFns);
  }

  /** Placing an item only adds to the select list, and exports what the placed item refers to. */
  lemma {:induction false} PlacedExports(p: Progress, item: Item)
    requires Placed(p, item).Some? && (p.op.Some? ==> Operation(p.op.value) in p.entries)
    ensures var r := Placed(p, item).value;
      && p.entries <= r.entries && p.fns <= r.fns && r.op == p.op && |r.items| == |p.items| + 1
      && r.items[..|p.items|] == p.items
      && forall c :: c in Refers(r.items[|p.items|]) ==> IsExported(c, r.entries, r.fns)
  {
    var r := Placed(p, item).value;
    forall c | c in Refers(r.items[|p.items|])
      ensures IsExported(c, r.entries, r.fns)
    {
      if item.path.None? || p.op.None? || !Belongs(item, p.op.value) {
        assert c in Exports(r.entries[|p.entries|], r.fns);
      } else {
        var i :| 0 <= i < |r.entries| && r.entries[i] == Operation(p.op.value);
        assert c in Exports(r.entries[i], r.fns);
      }
    }
  }

  /** What an item of the next stage refers to, this stage exports. */
  lemma {:induction false} RunExports(items: seq<Item>, k: nat)
    requires Run(items).Some? && k < |items|
    ensures var p := Run(items).value;
      && |p.items| == |items|
      && (p.op.Some? ==> Operation(p.op.value) in p.entries)
      && forall c :: c in Refers(p.items[k]) ==> IsExported(c, p.entries, p.fns)
  {
    RunLength(items);
    var last := |items| - 1;
    var before, p := Run(items[..last]).value, Run(items).value;
    if last > 0 {
      RunExports(items[..last], if k < last then k else 0);
    }
    PlacedExports(Found(before, items[last]), items[last]);
    if k < last {
      assert p.items[k] == before.items[k];
      forall c | c in Refers(p.items[k])
        ensures IsExported(c, p.entries, p.fns)
      {
        ExportedMore(c, before.entries, before.fns, p.entries, p.fns);
      }
    }
  }

  /** An entry that some item of the next stage is for: carried items go on as they are, and the one operation is that
    * of the stage. */
  ghost predicate Needed(entry: Entry, op: Option<Op>, items: seq<Item>, after: seq<Item>) {
    |items| == |after| &&
    match entry
    case Carried(item) => exists k :: 0 <= k < |items| && items[k] == item && after[k] == item
    case Operation(o) => op == Some(o)
  }

  /** Some item moves on to what this function unnests. */
  ghost predicate MovesOn(fn: Fn, op: Option<Op>, after: seq<Item>) {
    op.Some? && exists k :: 0 <= k < |after| && after[k].column == Derived(op.value.column, op.value.prefix, fn)
  }

  lemma {:induction false} NeededMore(entry: Entry, op: Option<Op>, more: Option<Op>, items: seq<Item>, item: Item,
                                      after: seq<Item>, last: Item)
    requires Needed(entry, op, items, after) && (op.Some? ==> more == op)
    ensures Needed(entry, more, items + [item], after + [last])
  {
    if entry.Carried? {
      var k :| 0 <= k < |items| && items[k] == entry.item && after[k] == entry.item;
      assert (items + [item])[k] == entry.item && (after + [last])[k] == entry.item;
    }
  }

  lemma {:induction false} MovesOnMore(fn: Fn, op: Option<Op>, after: seq<Item>, last: Item)
    requires MovesOn(fn, op, after)
    ensures MovesOn(fn, op, after + [last])
  {
    var k :| 0 <= k < |after| && after[k].column == Derived(op.value.column, op.value.prefix, fn);
    assert (after + [last])[k] == after[k];
  }

  /** A stage exports nothing that the next stage does not need. */
  lemma {:induction false} NothingUnneeded(items: seq<Item>)
    requires Run(items).Some?
    ensures var p := Run(items).value;
      && (forall entry :: entry in p.entries ==> Needed(entry, p.op, items, p.items))
      && (forall fn :: fn in p.fns ==> MovesOn(fn, p.op, p.items))
  {
    if items != [] {
      var init, item := items[..|items| - 1], items[|items| - 1];
      NothingUnneeded(init);
      RunLength(items);
      RunLength(init);
      var before, p := Run(init).value, Run(items).value;
      LastPlaced(before, item, init, p);
      var last := p.items[|init|];
      assert items == init + [item] && p.items == before.items + [last];
      hide Run, Needed, MovesOn;
      forall entry | entry in p.entries
        ensures Needed(entry, p.op, items, p.items)
      {
        if entry in before.entries {
          NeededMore(entry, before.op, p.op, init, item, before.items, last);
        }
      }
      forall fn | fn in p.fns
        ensures MovesOn(fn, p.op, p.items)
      {
        if fn in before.fns {
          MovesOnMore(fn, p.op, before.items, last);
        }
      }
    }
  }

  /** What placing one item adds. */
  lemma {:induction false} LastPlaced(before: Progress, item: Item, items: seq<Item>, p: Progress)
    requires Placed(Found(before, item), item) == Some(p) && |items| == |before.items|
    requires forall fn :: fn in before.fns ==> before.op.Some?
    ensures |p.items| == |items| + 1 && p.items[..|items|] == before.items && (before.op.Some? ==> p.op == before.op)
    ensures forall entry :: entry in p.entries && entry !in before.entries ==>
              Needed(entry, p.op, items + [item], p.items)
    ensures forall fn :: fn in p.fns && fn !in before.fns ==> MovesOn(fn, p.op, p.items)
  {
    assert (items + [item])[|items|] == item;
    forall fn | fn in p.fns && fn !in before.fns
      ensures MovesOn(fn, p.op, p.items)
    {
      assert p.items[|items|].column == Derived(p.op.value.column, p.op.value.prefix, fn);
    }
  }

  /** A stage refers to nothing but the columns of its items. */
  lemma {:induction false} RunRefers(items: seq<Item>, entry: Entry, c: Column)
    requires Run(items).Some? && AllSane(items) && entry in Run(items).value.entries && c in EntryRefers(entry)
    ensures exists k :: 0 <= k < |items| && c in Refers(items[k])
  {
    var last := |items| - 1;
    var before := items[..last];
    assert Sane(items[last]);
    if entry in Run(before).value.entries {
      RunRefers(before, entry, c);
      var k :| 0 <= k < |before| && c in Refers(before[k]);
      assert items[k] == before[k];
    } else {
      assert c in Refers(items[last]);
    }
  }

  predicate Resolves(stage: Stage, from: Stage) {
    forall entry, c :: entry in stage.entries && c in EntryRefers(entry) ==> IsExported(c, from.entries, from.fns)
  }

  /** Every column a stage refers to is exported by the stage before it. */
  lemma {:induction false} StagesResolve(items: seq<Item>, k: nat)
    requires Stages(items).Chain? && AllSane(items) && k + 1 < |Stages(items).stages|
    ensures Resolves(Stages(items).stages[k + 1], Stages(items).stages[k])
    decreases Remaining(items)
  {
    var p := Run(items).value;
    RunShrinks(items);
    RunSane(items);
    var rest := Stages(p.items).stages;
    assert Stages(items).stages == [Stage(p.entries, p.op, p.fns)] + rest;
    if k > 0 {
      StagesResolve(p.items, k - 1);
    } else {
      NextResolves(items);
    }
  }

  lemma {:induction false} NextResolves(items: seq<Item>)
    requires Run(items).Some? && AllSane(Run(items).value.items) && Run(Run(items).value.items).Some?
    ensures var p, next := Run(items).value, Run(Run(items).value.items).value;
      Resolves(Stage(next.entries, next.op, next.fns), Stage(p.entries, p.op, p.fns))
  {
    var p, next := Run(items).value, Run(Run(items).value.items).value;
    forall entry, c | entry in next.entries && c in EntryRefers(entry)
      ensures IsExported(c, p.entries, p.fns)
    {
      RunRefers(p.items, entry, c);
      var i :| 0 <= i < |p.items| && c in Refers(p.items[i]);
      RunLength(items);
      RunExports(items, i);
    }
  }

  // ---------------------------------------------------------------- the row number stage

  function Converted(item: Item): Item {
    if item.derivation == Some(RowNumber) then item.(column := Numbered, derivation := None) else item
  }

  function AllConverted(items: seq<Item>): (r: seq<Item>)
    ensures |r| == |items| && forall k :: 0 <= k < |items| ==> r[k] == Converted(items[k])
  {
    if items == [] then [] else [Converted(items[0])] + AllConverted(items[1..])
  }

  predicate HasRowNumber(items: seq<Item>) {
    exists item :: item in items && item.derivation == Some(RowNumber)
  }

  method FindRowNumber(items: seq<Item>) returns (index: int)
    ensures -1 <= index < |items|
    ensures index == -1 <==> !HasRowNumber(items)
    ensures index >= 0 ==> items[index].derivation == Some(RowNumber)
  {
    for i := 0 to |items|
      invariant forall k :: 0 <= k < i ==> items[k].derivation != Some(RowNumber)
    {
      if items[i].derivation == Some(RowNumber) {
        return i;
      }
    }
    return -1;
  }

  /** Replace row number items one after the other until none is found. */
  method ConvertRowNumbers(items: seq<Item>) returns (newItems: seq<Item>)
    ensures newItems == AllConverted(items)
  {
    newItems := items;
    var index := FindRowNumber(newItems);
    ghost var left := set k | 0 <= k < |items| && newItems[k].derivation == Some(RowNumber);
    while index != -1
      invariant |newItems| == |items| && -1 <= index < |items|
      invariant index == -1 <==> !HasRowNumber(newItems)
      invariant index >= 0 ==> newItems[index].derivation == Some(RowNumber)
      invariant forall k :: 0 <= k < |items| ==> newItems[k] == items[k] || newItems[k] == Converted(items[k])
      invariant left == set k | 0 <= k < |items| && newItems[k].derivation == Some(RowNumber)
      decreases left
    {
      newItems := newItems[index := Converted(newItems[index])];
      left := left - {index};
      index := FindRowNumber(newItems);
    }
    forall k | 0 <= k < |items|
      ensures newItems[k] == Converted(items[k])
    {
      assert newItems[k] in newItems;
    }
  }

  function AllStages(items: seq<Item>): Outcome {
    if HasRowNumber(items) then After([FirstStage(items)], Stages(AllConverted(items))) else Stages(items)
  }

  /** Row numbers are taken by the first stage and carried as a column from then on. */
  method GetUnnestingStages(items: seq<Item>) returns (outcome: Outcome)
    ensures outcome == AllStages(items)
    ensures AllSane(items) ==> StagesAsAsked(items, outcome)
  {
    if AllSane(items) {
      AllStagesAsAsked(items);
    }
    var index := FindRowNumber(items);
    if index == -1 {
      outcome := UnnestAll(items);
      return;
    }
    var newItems := ConvertRowNumbers(items);
    outcome := UnnestAll(newItems);
    if outcome.Chain? {
      return Chain([FirstStage(items)] + outcome.stages, outcome.items);
    }
  }

  function FirstStage(items: seq<Item>): Stage {
    Stage(CarriedAll(items), None, {})
  }

  function CarriedAll(items: seq<Item>): (entries: seq<Entry>)
    ensures |entries| == |items| && forall k :: 0 <= k < |items| ==> entries[k] == Carried(items[k])
  {
    if items == [] then [] else [Carried(items[0])] + CarriedAll(items[1..])
  }

  /** The stage after the row numbers finds what its items refer to. */
  lemma {:induction false} RowNumberStageResolves(items: seq<Item>)
    requires AllSane(items) && Stages(AllConverted(items)).Chain?
    ensures AllSane(AllConverted(items))
    ensures Resolves(Stages(AllConverted(items)).stages[0], FirstStage(items))
  {
    var newItems, first := AllConverted(items), FirstStage(items);
    ConvertedSane(items);
    var stage := Stages(newItems).stages[0];
    forall entry, c | entry in stage.entries && c in EntryRefers(entry)
      ensures IsExported(c, first.entries, first.fns)
    {
      RunRefers(newItems, entry, c);
      var k :| 0 <= k < |newItems| && c in Refers(newItems[k]);
      assert Sane(items[k]);
      assert c in Exports(first.entries[k], first.fns);
    }
  }

  /** That stage repeats the filters on the table's columns. They find their columns exactly if every one of them
    * is also that of an item: otherwise the generated SQL names a column that the first stage does not export. */
  lemma {:induction false} RepeatedFiltersResolveIff(items: seq<Item>, filters: seq<Column>)
    requires forall c :: c in filters ==> c.Base?
    ensures (forall c :: c in filters ==> IsExported(c, FirstStage(items).entries, {})) <==>
            (forall c :: c in filters ==> exists item :: item in items && c in Refers(item))
  {
    var entries := FirstStage(items).entries;
    forall c | c in filters
      ensures IsExported(c, entries, {}) <==> exists item :: item in items && c in Refers(item)
    {
      if IsExported(c, entries, {}) {
        var i :| 0 <= i < |entries| && c in Exports(entries[i], {});
        assert items[i] in items && c in Refers(items[i]);
      }
      if item :| item in items && c in Refers(item) {
        var k :| 0 <= k < |items| && items[k] == item;
        assert c in Exports(entries[k], {});
      }
    }
  }

  /** A filter on a column of the table, next to nothing but a row number, does not find its column. */
  lemma {:induction false} FilterNextToRowNumberFails(item: Item, c: Column)
    requires item.derivation == Some(RowNumber) && c.Base?
    ensures HasRowNumber([item]) && !IsExported(c, FirstStage([item]).entries, {})
  {
    assert item in [item];
    RepeatedFiltersResolveIff([item], [c]);
    assert c in [c] && Refers(item) == {};
  }

  // ---------------------------------------------------------------- what the chain does for every item

  /** A row number item ends as the column of the row numbers, with what else it had. Any other item ends with nothing
    * to unnest, asking for the same thing. */
  predicate EndsAs(item: Item, last: Item) {
    if item.derivation == Some(RowNumber) then
      last.column == Numbered && last.derivation == None && last.path == item.path && last.countAll == item.countAll
    else Same(item, last) && Sane(last) && !Pending(last) && last.derivation == Effective(item)
  }

  /** The row number of this item is taken by the first stage, and every later stage carries it on. */
  ghost predicate NumberedThroughout(item: Item, last: Item, stages: seq<Stage>) {
    && |stages| >= 2 && stages[0].op.None? && Carried(item) in stages[0].entries
    && forall j :: 0 < j < |stages| ==>
         && Carried(last) in stages[j].entries
         && (!item.countAll ==> IsExported(Numbered, stages[j].entries, stages[j].fns))
  }

  /** One final item for every item; row numbers on the way; no stage refers to a column that is not there. */
  ghost predicate StagesAsAsked(items: seq<Item>, outcome: Outcome) {
    outcome.Chain? ==>
      && |outcome.items| == |items| && outcome.stages != []
      && (forall k :: 0 <= k < |items| ==> EndsAs(items[k], outcome.items[k]))
      && (forall k :: 0 <= k < |items| && items[k].derivation == Some(RowNumber) ==>
            NumberedThroughout(items[k], outcome.items[k], outcome.stages))
      && (HasRowNumber(items) ==> TakesAll(items, outcome.stages[0]))
      && (forall j :: 0 <= j < |outcome.stages| - 1 ==> Resolves(outcome.stages[j + 1], outcome.stages[j]))
  }

  /** The stage carries exactly these items and unnests nothing. */
  predicate TakesAll(items: seq<Item>, stage: Stage) {
    && stage.op.None? && stage.fns == {} && |stage.entries| == |items|
    && forall k :: 0 <= k < |items| ==> stage.entries[k] == Carried(items[k])
  }

  lemma {:induction false} RunCarries(items: seq<Item>, k: nat)
    requires Run(items).Some? && k < |items| && items[k].path.None?
    ensures var p := Run(items).value;
      |p.items| == |items| && p.items[k] == items[k] && Carried(items[k]) in p.entries
  {
    RunLength(items);
    RunItems(items, k);
    var last := |items| - 1;
    if k < last {
      RunCarries(items[..last], k);
    }
  }

  /** An item without a path is carried by every stage as it is. */
  lemma {:induction false} CarriedThroughout(items: seq<Item>, k: nat)
    requires Stages(items).Chain? && k < |items| && items[k].path.None?
    ensures var r := Stages(items);
      && |r.items| == |items| && r.items[k] == items[k]
      && forall j :: 0 <= j < |r.stages| ==> Carried(items[k]) in r.stages[j].entries
    decreases Remaining(items)
  {
    var p := Run(items).value;
    RunCarries(items, k);
    RunLength(items);
    if p.op.Some? {
      RunShrinks(items);
      CarriedThroughout(p.items, k);
      var rest := Stages(p.items).stages;
      assert Stages(items).stages == [Stage(p.entries, p.op, p.fns)] + rest;
    }
  }

  lemma {:induction false} NumberIsCarried(items: seq<Item>, k: nat)
    requires AllSane(items) && AllStages(items).Chain? && k < |items| && items[k].derivation == Some(RowNumber)
    ensures var r := AllStages(items);
      |r.items| == |items| && EndsAs(items[k], r.items[k]) && NumberedThroughout(items[k], r.items[k], r.stages)
  {
    var converted, later := AllConverted(items), Stages(AllConverted(items));
    assert items[k] in items && Sane(items[k]);
    CarriedThroughout(converted, k);
    hide Stages, Sane;
    assert later.stages != [] && AllStages(items) == Chain([FirstStage(items)] + later.stages, later.items) by {
      FinalCount(items);
    }
    assert CarriedAll(items)[k] in CarriedAll(items);
    forall j | 0 <= j < |later.stages|
      ensures Carried(converted[k]) in later.stages[j].entries
      ensures !items[k].countAll ==> IsExported(Numbered, later.stages[j].entries, later.stages[j].fns)
    {
      var i :| 0 <= i < |later.stages[j].entries| && later.stages[j].entries[i] == Carried(converted[k]);
      assert !items[k].countAll ==> Numbered in Exports(later.stages[j].entries[i], later.stages[j].fns);
    }
  }

  lemma {:induction false} StageAfterResolves(items: seq<Item>, j: nat)
    requires AllSane(items) && AllStages(items).Chain? && j + 1 < |AllStages(items).stages|
    ensures Resolves(AllStages(items).stages[j + 1], AllStages(items).stages[j])
  {
    if HasRowNumber(items) {
      RowNumberStageResolves(items);
      if j > 0 {
        StagesResolve(AllConverted(items), j - 1);
      }
    } else {
      StagesResolve(items, j);
    }
  }

  lemma {:induction false} AllStagesAsAsked(items: seq<Item>)
    requires AllSane(items)
    ensures StagesAsAsked(items, AllStages(items))
  {
    var r := AllStages(items);
    if r.Chain? {
      assert HasRowNumber(items) ==> TakesAll(items, r.stages[0]);
      hide AllStages, Stages, Run, Resolves, NumberedThroughout;
      FinalCount(items);
      forall k | 0 <= k < |items|
        ensures EndsAs(items[k], r.items[k])
        ensures items[k].derivation == Some(RowNumber) ==> NumberedThroughout(items[k], r.items[k], r.stages)
      {
        if items[k].derivation == Some(RowNumber) {
          NumberIsCarried(items, k);
        } else {
          OtherItemEnds(items, k);
        }
      }
      forall j | 0 <= j < |r.stages| - 1
        ensures Resolves(r.stages[j + 1], r.stages[j])
      {
        StageAfterResolves(items, j);
      }
    }
  }

  lemma {:induction false} FinalCount(items: seq<Item>)
    requires AllSane(items) && AllStages(items).Chain?
    ensures |AllStages(items).items| == |items| && AllStages(items).stages != []
    ensures HasRowNumber(items) ==> |AllStages(items).stages| >= 2
  {
    var converted := if HasRowNumber(items) then AllConverted(items) else items;
    ConvertedSane(items);
    if items != [] {
      FinalItemsAnswer(converted, 0);
    } else {
      assert HasRowNumber(items) ==> items != [];
    }
  }

  lemma {:induction false} ConvertedSane(items: seq<Item>)
    requires AllSane(items)
    ensures AllSane(AllConverted(items))
  {
    forall k | 0 <= k < |items|
      ensures Sane(AllConverted(items)[k])
    {
      assert Sane(items[k]);
    }
  }

  lemma {:induction false} OtherItemEnds(items: seq<Item>, k: nat)
    requires AllSane(items) && AllStages(items).Chain? && k < |items| && items[k].derivation != Some(RowNumber)
    ensures |AllStages(items).items| == |items| && EndsAs(items[k], AllStages(items).items[k])
  {
    ConvertedSane(items);
    FinalItemsAnswer(if HasRowNumber(items) then AllConverted(items) else items, k);
  }
}
