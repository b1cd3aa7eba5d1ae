/** What the chain of unnesting stages means with row numbers in it: all that getUnnestingStages of
  * src/DataSet/SqlQueryGenerator.js promises of its result, with a stage for them and without.
  */
module UnnestingNumbers {
  import opened Options
  import opened Unnesting
  import opened UnnestingMeaning
  import opened UnnestingRows

  /** Items as they come from the query: no column is derived yet, and none is a row number. */
  predicate Unnumbered(items: seq<Item>) {
    forall item :: item in items ==> Sane(item) && item.column.Base?
  }

  // ---------------------------------------------------------------- when a chain exists

  lemma {:induction false} NumbersAreApart(a: Item, b: Item, j: nat)
    requires Sane(a) && Sane(b) && a.column.Base? && b.column.Base?
    ensures ClashAt(Converted(a), Converted(b), j) <==> ClashAt(a, b, j)
    ensures BothUnnest(Converted(a), Converted(b), j) <==> BothUnnest(a, b, j)
  {
    assert a.derivation == Some(RowNumber) ==> Full(a) == [] == Full(Converted(a));
    assert b.derivation == Some(RowNumber) ==> Full(b) == [] == Full(Converted(b));
  }

  lemma {:induction false} ExposedAlike(items: seq<Item>, i: nat, k: nat, j: nat)
    requires Unnumbered(items)
    ensures Exposed(AllConverted(items), i, k, j) <==> Exposed(items, i, k, j)
  {
    if i < k < |items| {
      assert items[i] in items && items[k] in items;
      NumbersAreApart(items[i], items[k], j);
      forall z | 0 <= z < i
        ensures Shields(Converted(items[z]), Converted(items[k]), j) <==> Shields(items[z], items[k], j)
      {
        assert items[z] in items;
        forall j1: nat
          ensures BothUnnest(Converted(items[z]), Converted(items[k]), j1) <==> BothUnnest(items[z], items[k], j1)
        {
          NumbersAreApart(items[z], items[k], j1);
        }
      }
    }
  }

  lemma {:induction false} ConvertedOriginal(items: seq<Item>)
    requires Unnumbered(items)
    ensures Original(items) && Original(AllConverted(items)) && AllSane(items)
    ensures NoRowNumbers(AllConverted(items)) && (!HasRowNumber(items) ==> NoRowNumbers(items))
  {
    forall k | 0 <= k < |items|
      ensures Sane(AllConverted(items)[k]) && !AllConverted(items)[k].column.Derived?
    {
      assert items[k] in items;
    }
  }

  /** With row numbers or without, the chain fails exactly if some clash is exposed. */
  lemma {:induction false} AllStagesFailIffExposed(items: seq<Item>)
    requires Unnumbered(items)
    ensures AllStages(items).Crash? <==> SomeExposed(items)
  {
    ConvertedOriginal(items);
    hide Exposed, Original, Stages;
    if HasRowNumber(items) {
      FailsIffExposed(AllConverted(items));
      forall i: nat, k: nat, j: nat
        ensures Exposed(AllConverted(items), i, k, j) <==> Exposed(items, i, k, j)
      {
        ExposedAlike(items, i, k, j);
      }
    } else {
      FailsIffExposed(items);
    }
  }

  // ---------------------------------------------------------------- meaning

  /** A stage that unnests nothing and is not the last one gives the row its number and passes on what it exports. */
  predicate Numbers(stages: seq<Stage>) {
    |stages| > 1 && stages[0].op.None?
  }

  function Later(stages: seq<Stage>): seq<Stage> {
    if Numbers(stages) then stages[1..] else stages
  }

  /** The `n`-th row of the table, as the unnesting stages get it. */
  function EntryRow(source: Row, n: nat, stages: seq<Stage>): Row {
    if Numbers(stages) then NextRow(source[Numbered := Scalar(n)], stages[0], 0) else source
  }

  /** A final row made of it, for one choice of an element per stage. */
  function RowMade(source: Row, n: nat, stages: seq<Stage>, choices: seq<nat>): Option<Row> {
    FinalRow(EntryRow(source, n, stages), Later(stages), choices)
  }

  /** What an item asks for in the `n`-th row of the table. */
  function Asked(source: Row, n: nat, item: Item, pick: Pick): Value {
    if item.derivation == Some(RowNumber) then Scalar(n) else ValueAsked(source, item, pick)
  }

  lemma {:induction false} FirstColumns(items: seq<Item>, source: Row, n: nat, k: nat)
    requires Unnumbered(items) && k < |items| && !items[k].countAll
    ensures var row, c := NextRow(source[Numbered := Scalar(n)], FirstStage(items), 0), Converted(items[k]).column;
      && c in row
      && row[c] == if items[k].derivation == Some(RowNumber) then Scalar(n) else Lookup(source, items[k].column)
  {
    var entries := FirstStage(items).entries;
    assert items[k] in items;
    assert Converted(items[k]).column in Exports(entries[k], {});
  }

  lemma {:induction false} FirstRowHas(items: seq<Item>, source: Row, n: nat)
    requires Unnumbered(items)
    ensures var row := NextRow(source[Numbered := Scalar(n)], FirstStage(items), 0);
      Has(row, AllConverted(items)) && forall c :: c in row ==> !c.Derived?
  {
    var row := NextRow(source[Numbered := Scalar(n)], FirstStage(items), 0);
    var converted, entries := AllConverted(items), FirstStage(items).entries;
    forall k, c | 0 <= k < |converted| && c in Refers(converted[k])
      ensures c in row
    {
      FirstColumns(items, source, n, k);
    }
    forall c | c in row
      ensures !c.Derived?
    {
      var k :| 0 <= k < |entries| && c in Exports(entries[k], {});
      assert items[k] in items;
    }
  }

  lemma {:induction false} ConvertedAsks(items: seq<Item>, source: Row, n: nat, pick: Pick, k: nat)
    requires Unnumbered(items) && k < |items| && !items[k].countAll
    ensures var row := NextRow(source[Numbered := Scalar(n)], FirstStage(items), 0);
      ValueAsked(row, AllConverted(items)[k], pick) == Asked(source, n, items[k], pick)
  {
    FirstColumns(items, source, n, k);
    assert items[k] in items;
    if items[k].derivation == Some(RowNumber) {
      assert Full(Converted(items[k])) == [];
    }
  }

  lemma {:induction false} StagesOfNumbers(items: seq<Item>)
    requires AllStages(items).Chain? && Unnumbered(items)
    ensures var stages := AllStages(items).stages;
      && Numbers(stages) == HasRowNumber(items)
      && (HasRowNumber(items) ==> stages[0] == FirstStage(items))
      && Later(stages) == Stages(if HasRowNumber(items) then AllConverted(items) else items).stages
      && Ops(stages) == Ops(Later(stages))
  {
    ConvertedOriginal(items);
    FinalCount(items);
    var stages := AllStages(items).stages;
    if HasRowNumber(items) {
      assert stages == [FirstStage(items)] + Stages(AllConverted(items)).stages;
      assert stages[1..] == Stages(AllConverted(items)).stages;
    } else if Run(items).value.op.Some? {
      StagesSplit(items);
    }
  }

  /** No array is unnested by two stages. */
  lemma {:induction false} AllStagesUnnestOnce(items: seq<Item>)
    requires Unnumbered(items) && AllStages(items).Chain?
    ensures DistinctPlaces(Ops(AllStages(items).stages))
  {
    StagesOfNumbers(items);
    ConvertedOriginal(items);
    EveryArrayOnce(if HasRowNumber(items) then AllConverted(items) else items);
  }

  /** In every row that the chain makes of the `n`-th row of the table, a row number item reads `n`, and every other
    * item what it asks for in that row, for the elements that the stages chose. */
  lemma {:induction false} AllStagesKeepMeaning(items: seq<Item>, source: Row, n: nat, choices: seq<nat>, k: nat)
    requires Unnumbered(items) && AllStages(items).Chain?
    requires Has(source, items) && forall c :: c in source ==> c.Base?
    requires |choices| == |Ops(AllStages(items).stages)| && RowMade(source, n, AllStages(items).stages, choices).Some?
    requires k < |items| && !items[k].countAll
    ensures var ops, last := Ops(AllStages(items).stages), AllStages(items).items;
            var final := RowMade(source, n, AllStages(items).stages, choices).value;
      && |last| == |items| && last[k].column in final
      && ValueIn(final, last[k]) == Asked(source, n, items[k], PickOf(ops, choices))
  {
    hide Stages, Ops, FinalRow, NextRow, ValueIn, ValueAsked, PickOf, Has;
    StagesOfNumbers(items);
    ConvertedOriginal(items);
    if HasRowNumber(items) {
      FirstRowHas(items, source, n);
      var row := NextRow(source[Numbered := Scalar(n)], FirstStage(items), 0);
      assert !AllConverted(items)[k].countAll;
      ChainKeepsMeaning(AllConverted(items), row, choices, k);
      ConvertedAsks(items, source, n, PickOf(Ops(AllStages(items).stages), choices), k);
    } else {
      assert items[k] in items;
      ChainKeepsMeaning(items, source, choices, k);
    }
  }

  /** The `n`-th row of the table becomes one row for every choice of an element per stage, and in each of these rows
    * every item reads what it asks for: the number of the row, or a value for the elements chosen. */
  lemma {:induction false} AllStagesAreTheProduct(items: seq<Item>, source: Row, n: nat, c: nat, k: nat)
    requires Unnumbered(items) && AllStages(items).Chain?
    requires Has(source, items) && forall c :: c in source ==> c.Base?
    requires var stages := AllStages(items).stages; c < |Choices(EntryRow(source, n, stages), Later(stages))|
    requires k < |items| && !items[k].countAll
    ensures var stages, last := AllStages(items).stages, AllStages(items).items;
            var row := EntryRow(source, n, stages);
            var rows, choices := FinalTable([row], Later(stages)), Choices(row, Later(stages));
      && |rows| == |choices| && |last| == |items| && |choices[c]| == |Ops(stages)|
      && ValueIn(rows[c], last[k]) == Asked(source, n, items[k], PickOf(Ops(stages), choices[c]))
  {
    hide Stages, Ops, FinalRow, NextRow, ValueIn, ValueAsked, PickOf, Has, Choices, FinalTable;
    StagesOfNumbers(items);
    ConvertedOriginal(items);
    if HasRowNumber(items) {
      FirstRowHas(items, source, n);
      var row := NextRow(source[Numbered := Scalar(n)], FirstStage(items), 0);
      assert !AllConverted(items)[k].countAll;
      ChainIsTheProduct(AllConverted(items), row, c, k);
      ConvertedAsks(items, source, n,
                    PickOf(Ops(AllStages(items).stages), Choices(row, Later(AllStages(items).stages))[c]), k);
    } else {
      ChainIsTheProduct(items, source, c, k);
      assert items[k] in items;
    }
  }
}
