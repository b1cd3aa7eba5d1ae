/** The rows that the chain of unnesting stages makes of a table. */
module UnnestingRows {
  import opened Options
  import opened Unnesting
  import opened UnnestingMeaning

  /** The rows that a stage makes of one row, from its i-th element on. */
  function StageRows(row: Row, stage: Stage, i: nat): seq<Row>
    requires stage.op.Some?
    decreases |Unnested(ArrayOf(row, stage.op.value))| - i
  {
    if i >= |Unnested(ArrayOf(row, stage.op.value))| then []
    else [NextRow(row, stage, i)] + StageRows(row, stage, i + 1)
  }

  /** A stage selects from all rows of the stage before it. */
  function StageTable(rows: seq<Row>, stage: Stage): seq<Row>
    requires stage.op.Some?
  {
    if rows == [] then [] else StageRows(rows[0], stage, 0) + StageTable(rows[1..], stage)
  }

  /** The table from which the final stage selects. */
  function FinalTable(rows: seq<Row>, stages: seq<Stage>): seq<Row>
    decreases |stages|
  {
    if stages == [] || stages[0].op.None? then rows else FinalTable(StageTable(rows, stages[0]), stages[1..])
  }

  /** All choices of an element per stage, the last stage running fastest. */
  function Choices(row: Row, stages: seq<Stage>): seq<seq<nat>>
    decreases |stages|, 1, 0
  {
    if stages == [] || stages[0].op.None? then [[]] else ChoicesFrom(row, stages, 0)
  }

  function ChoicesFrom(row: Row, stages: seq<Stage>, i: nat): seq<seq<nat>>
    requires stages != [] && stages[0].op.Some?
    decreases |stages|, 0, |Unnested(ArrayOf(row, stages[0].op.value))| - i
  {
    if i >= |Unnested(ArrayOf(row, stages[0].op.value))| then []
    else Before(i, Choices(NextRow(row, stages[0], i), stages[1..])) + ChoicesFrom(row, stages, i + 1)
  }

  function Before(i: nat, all: seq<seq<nat>>): seq<seq<nat>> {
    if all == [] then [] else [[i] + all[0]] + Before(i, all[1..])
  }

  /** The rows chosen. */
  function ChosenRows(row: Row, stages: seq<Stage>, all: seq<seq<nat>>): seq<Row> {
    if all == [] then []
    else
      var r := FinalRow(row, stages, all[0]);
      (if r.Some? then [r.value] else []) + ChosenRows(row, stages, all[1..])
  }

  lemma {:induction false} ChosenConcat(row: Row, stages: seq<Stage>, a: seq<seq<nat>>, b: seq<seq<nat>>)
    ensures ChosenRows(row, stages, a + b) == ChosenRows(row, stages, a) + ChosenRows(row, stages, b)
  {
    if a == [] {
      assert a + b == b;
    } else {
      assert (a + b)[1..] == a[1..] + b && (a + b)[0] == a[0];
      ChosenConcat(row, stages, a[1..], b);
    }
  }

  lemma {:induction false} ChosenBefore(row: Row, stages: seq<Stage>, i: nat, all: seq<seq<nat>>)
    requires stages != [] && stages[0].op.Some? && i < |Unnested(ArrayOf(row, stages[0].op.value))|
    ensures ChosenRows(row, stages, Before(i, all)) == ChosenRows(NextRow(row, stages[0], i), stages[1..], all)
  {
    hide NextRow, ArrayOf, Unnested;
    if all != [] {
      ChosenBefore(row, stages, i, all[1..]);
      assert ([i] + all[0])[1..] == all[0];
    }
  }

  lemma {:induction false} StageTableConcat(a: seq<Row>, b: seq<Row>, stage: Stage)
    requires stage.op.Some?
    ensures StageTable(a + b, stage) == StageTable(a, stage) + StageTable(b, stage)
  {
    if a == [] {
      assert a + b == b;
    } else {
      assert (a + b)[1..] == a[1..] + b && (a + b)[0] == a[0];
      hide StageRows;
      StageTableConcat(a[1..], b, stage);
      var first, others, last := StageRows(a[0], stage, 0), StageTable(a[1..], stage), StageTable(b, stage);
      assert first + (others + last) == (first + others) + last;
    }
  }

  /** Rows do not meet before the final stage. */
  lemma {:induction false} FinalTableConcat(a: seq<Row>, b: seq<Row>, stages: seq<Stage>)
    ensures FinalTable(a + b, stages) == FinalTable(a, stages) + FinalTable(b, stages)
    decreases |stages|
  {
    if stages != [] && stages[0].op.Some? {
      StageTableConcat(a, b, stages[0]);
      FinalTableConcat(StageTable(a, stages[0]), StageTable(b, stages[0]), stages[1..]);
    }
  }

  /** A row of the table becomes one row for each choice of an element per stage. */
  lemma {:induction false} RowsAreChoices(row: Row, stages: seq<Stage>)
    ensures FinalTable([row], stages) == ChosenRows(row, stages, Choices(row, stages))
    decreases |stages|, 1, 0
  {
    if stages == [] || stages[0].op.None? {
      var one: seq<seq<nat>> := [[]];
      assert one[1..] == [] && FinalRow(row, stages, []) == Some(row);
    } else {
      assert StageTable([row], stages[0]) == StageRows(row, stages[0], 0) + StageTable([], stages[0]);
      assert StageTable([row], stages[0]) == StageRows(row, stages[0], 0);
      RowsAreChoicesFrom(row, stages, 0);
    }
  }

  lemma {:induction false} RowsAreChoicesFrom(row: Row, stages: seq<Stage>, i: nat)
    requires stages != [] && stages[0].op.Some?
    ensures FinalTable(StageRows(row, stages[0], i), stages[1..])
         == ChosenRows(row, stages, ChoicesFrom(row, stages, i))
    decreases |stages|, 0, |Unnested(ArrayOf(row, stages[0].op.value))| - i
  {
    hide NextRow, ArrayOf, Unnested;
    var rest := stages[1..];
    if i < |Unnested(ArrayOf(row, stages[0].op.value))| {
      var next := NextRow(row, stages[0], i);
      RowsAreChoices(next, rest);
      RowsAreChoicesFrom(row, stages, i + 1);
      FinalTableConcat([next], StageRows(row, stages[0], i + 1), rest);
      ChosenBefore(row, stages, i, Choices(next, rest));
      ChosenConcat(row, stages, Before(i, Choices(next, rest)), ChoicesFrom(row, stages, i + 1));
    } else {
      FinalTableConcat([], [], rest);
      assert FinalTable([] + [], rest) == FinalTable([], rest) + FinalTable([], rest);
    }
  }

  lemma {:induction false} BeforeMembers(i: nat, all: seq<seq<nat>>, c: seq<nat>)
    ensures c in Before(i, all) <==> c != [] && c[0] == i && c[1..] in all
  {
    if all != [] {
      BeforeMembers(i, all[1..], c);
      assert ([i] + all[0])[1..] == all[0];
      if c != [] {
        assert c == [c[0]] + c[1..];
      }
    }
  }

  /** The choices are those of an existing element at every stage. */
  lemma {:induction false} ChoicesExist(row: Row, stages: seq<Stage>, c: seq<nat>)
    ensures c in Choices(row, stages) <==> FinalRow(row, stages, c).Some?
    decreases |stages|, 1, 0
  {
    if stages != [] && stages[0].op.Some? {
      ChoicesFromExist(row, stages, 0, c);
    }
  }

  lemma {:induction false} ChoicesFromExist(row: Row, stages: seq<Stage>, i: nat, c: seq<nat>)
    requires stages != [] && stages[0].op.Some?
    ensures c in ChoicesFrom(row, stages, i) <==> c != [] && i <= c[0] && FinalRow(row, stages, c).Some?
    decreases |stages|, 0, |Unnested(ArrayOf(row, stages[0].op.value))| - i
  {
    hide NextRow, ArrayOf, Unnested;
    if i < |Unnested(ArrayOf(row, stages[0].op.value))| {
      var next := NextRow(row, stages[0], i);
      BeforeMembers(i, Choices(next, stages[1..]), c);
      ChoicesFromExist(row, stages, i + 1, c);
      if c != [] {
        ChoicesExist(next, stages[1..], c[1..]);
      }
    }
  }

  /** No row is lost: an empty or missing array gives one choice. */
  lemma {:induction false} EveryRowSurvives(row: Row, stages: seq<Stage>)
    ensures Choices(row, stages) != [] && FinalTable([row], stages) != []
    decreases |stages|
  {
    RowsAreChoices(row, stages);
    if stages != [] && stages[0].op.Some? {
      var inner := Choices(NextRow(row, stages[0], 0), stages[1..]);
      EveryRowSurvives(NextRow(row, stages[0], 0), stages[1..]);
      assert Before(0, inner) != [];
    }
    ChoicesExist(row, stages, Choices(row, stages)[0]);
  }

  predicate NoneTwice(all: seq<seq<nat>>) {
    all == [] || (all[0] !in all[1..] && NoneTwice(all[1..]))
  }

  /** No choice is made twice. */
  lemma {:induction false} ChoicesDiffer(row: Row, stages: seq<Stage>)
    ensures NoneTwice(Choices(row, stages))
    decreases |stages|, 1, 0
  {
    if stages != [] && stages[0].op.Some? {
      ChoicesFromDiffer(row, stages, 0);
    }
  }

  lemma {:induction false} ChoicesFromDiffer(row: Row, stages: seq<Stage>, i: nat)
    requires stages != [] && stages[0].op.Some?
    ensures NoneTwice(ChoicesFrom(row, stages, i))
    decreases |stages|, 0, |Unnested(ArrayOf(row, stages[0].op.value))| - i
  {
    hide NextRow, ArrayOf, Unnested;
    if i < |Unnested(ArrayOf(row, stages[0].op.value))| {
      var inner, others := Choices(NextRow(row, stages[0], i), stages[1..]), ChoicesFrom(row, stages, i + 1);
      ChoicesDiffer(NextRow(row, stages[0], i), stages[1..]);
      ChoicesFromDiffer(row, stages, i + 1);
      forall c | c in others
        ensures c != [] && c[0] != i
      {
        ChoicesFromExist(row, stages, i + 1, c);
      }
      BeforeDiffer(i, inner, others);
    }
  }

  lemma {:induction false} BeforeDiffer(i: nat, all: seq<seq<nat>>, others: seq<seq<nat>>)
    requires NoneTwice(all) && NoneTwice(others) && forall c :: c in others ==> c != [] && c[0] != i
    ensures NoneTwice(Before(i, all) + others)
  {
    var both := Before(i, all) + others;
    if all == [] {
      assert both == others;
    } else {
      BeforeDiffer(i, all[1..], others);
      BeforeMembers(i, all[1..], [i] + all[0]);
      assert ([i] + all[0])[1..] == all[0];
      assert both[1..] == Before(i, all[1..]) + others;
    }
  }

  lemma {:induction false} ChosenAt(row: Row, stages: seq<Stage>, all: seq<seq<nat>>, n: nat)
    requires n < |all| && forall c :: c in all ==> FinalRow(row, stages, c).Some?
    ensures |ChosenRows(row, stages, all)| == |all|
    ensures FinalRow(row, stages, all[n]) == Some(ChosenRows(row, stages, all)[n])
  {
    if |all| > 1 {
      ChosenAt(row, stages, all[1..], if n == 0 then 0 else n - 1);
    } else {
      assert all[1..] == [];
    }
  }

  lemma {:induction false} AsManyChoices(row: Row, stages: seq<Stage>, c: seq<nat>)
    requires FinalRow(row, stages, c).Some?
    requires forall k :: 0 <= k < |stages| - 1 ==> stages[k].op.Some?
    ensures |c| == |Ops(stages)|
    decreases |stages|
  {
    if stages != [] {
      if stages[0].op.Some? {
        AsManyChoices(NextRow(row, stages[0], c[0]), stages[1..], c[1..]);
      } else {
        assert |stages| == 1 && stages[1..] == [];
      }
    }
  }

  lemma {:induction false} OnlyTheLastIsPlain(items: seq<Item>)
    requires Stages(items).Chain?
    ensures forall k :: 0 <= k < |Stages(items).stages| - 1 ==> Stages(items).stages[k].op.Some?
    decreases Remaining(items)
  {
    var p, all := Run(items).value, Stages(items).stages;
    if p.op.Some? {
      StagesSplit(items);
      OnlyTheLastIsPlain(p.items);
      assert forall k :: 0 < k < |all| ==> all[k] == Stages(p.items).stages[k - 1];
    }
  }

  /** A row of the table becomes one row for every choice of an element per stage, no choice is left out or made
    * twice, and in each of these rows every item reads what it asks for, for the elements chosen. */
  lemma {:induction false} ChainIsTheProduct(items: seq<Item>, source: Row, n: nat, k: nat)
    requires Original(items) && NoRowNumbers(items) && Stages(items).Chain?
    requires Has(source, items) && forall c :: c in source ==> !c.Derived?
    requires n < |Choices(source, Stages(items).stages)| && k < |items| && !items[k].countAll
    ensures var stages, last := Stages(items).stages, Stages(items).items;
            var rows, choices := FinalTable([source], stages), Choices(source, stages);
      && |rows| == |choices| && |last| == |items| && |choices[n]| == |Ops(stages)|
      && ValueIn(rows[n], last[k]) == ValueAsked(source, items[k], PickOf(Ops(stages), choices[n]))
  {
    hide NextRow, ValueIn, ValueAsked, PickOf;
    var stages := Stages(items).stages;
    var choices := Choices(source, stages);
    RowsAreChoices(source, stages);
    forall c | c in choices
      ensures FinalRow(source, stages, c).Some?
    {
      ChoicesExist(source, stages, c);
    }
    ChosenAt(source, stages, choices, n);
    OnlyTheLastIsPlain(items);
    AsManyChoices(source, stages, choices[n]);
    ChainKeepsMeaning(items, source, choices[n], k);
  }
}
