/** The cell cache of src/DataSet/CellSet.js.
  *
  * Time stamps hold the recency of the cells, and the size of the JSON object of all cells is kept up to date
  * one cell at a time. Queries are answered by an oracle.
  */
module CellCache {
  import opened ClientCache
  import opened Options
  import opened Recency

  type Measure = string

  /** A cached cell: the values of the measures fetched for it so far. */
  type Cell = map<Measure, string>

  /** How a cached cell is written as an entry of a JSON object, its key included. */
  type Render = (nat, Cell) -> string

  /** The fields that the source keeps in step. `sizes` holds the length of each cell's own one-entry object. */
  datatype State = State(cells: map<nat, Cell>, stamps: map<nat, nat>, sizes: map<nat, nat>, counter: nat,
                         cacheSize: int)

  const Empty := State(map[], map[], map[], 0, 2)

  function Touch(s: State, k: nat): State {
    s.(counter := s.counter + 1, stamps := s.stamps[k := s.counter + 1])
  }

  /** The length of the one-entry object `{key: cell}`. */
  function OwnSize(k: nat, cell: Cell, render: Render): nat {
    |render(k, cell)| + 2
  }

  /** The incremental size after an entry of size `size` was written under `k`: the first entry and the
    * separators count apart. */
  function ResizedTotal(total: int, sizes: map<nat, nat>, k: nat, size: nat): int {
    if k in sizes then total + size - sizes[k]
    else if |sizes| == 0 then size
    else total + size - 1
  }

  function Resized(s: State, k: nat, size: nat): State {
    s.(cacheSize := ResizedTotal(s.cacheSize, s.sizes, k, size), sizes := s.sizes[k := size])
  }

  function Remove(s: State, k: nat): State {
    State(s.cells - {k}, s.stamps - {k}, s.sizes - {k}, s.counter,
          if k !in s.sizes then s.cacheSize else if |s.sizes| == 1 then 2 else s.cacheSize - s.sizes[k] + 1)
  }

  /** Add freshly fetched measures to a cell: it keeps the measures it already had. */
  function Merged(s: State, k: nat, values: Cell): Cell {
    (if k in s.cells then s.cells[k] else map[]) + values
  }

  function WriteCell(s: State, k: nat, values: Cell, render: Render): State {
    var cell := Merged(s, k, values);
    Resized(Touch(s.(cells := s.cells[k := cell]), k), k, OwnSize(k, cell, render))
  }

  /** Evict along `order`, the cells from least to most recently touched, while a limit is exceeded. */
  function Enforced(s: State, order: seq<nat>, maxEntries: int, maxBytes: int): State
    decreases |order|
  {
    if order == [] || (|order| <= maxEntries && s.cacheSize <= maxBytes) then s
    else Enforced(Remove(s, order[0]), order[1..], maxEntries, maxBytes)
  }

  function EnforcedOrder(s: State, order: seq<nat>, maxEntries: int, maxBytes: int): seq<nat>
    decreases |order|
  {
    if order == [] || (|order| <= maxEntries && s.cacheSize <= maxBytes) then order
    else EnforcedOrder(Remove(s, order[0]), order[1..], maxEntries, maxBytes)
  }

  // ---------------------------------------------------------------- what every operation keeps

  /** `order` lists cells by strictly growing time stamp. */
  ghost predicate Ascending(order: seq<nat>, stamps: map<nat, nat>) {
    order != [] ==>
      && order[0] in stamps && (forall k :: k in order[1..] ==> k in stamps && stamps[order[0]] < stamps[k])
      && Ascending(order[1..], stamps)
  }

  /** The object of all cells, from the sizes of their one-entry objects: each of those counts two braces,
    * and the whole has one separator fewer than entries. */
  function ObjectSize(order: seq<nat>, sizes: map<nat, nat>): int
    requires forall k :: k in order ==> k in sizes
  {
    if order == [] then 2 else Weight(Live(order, sizes)) - |order| + 1
  }

  /** `order` is the recency that the time stamps stand for. */
  ghost predicate Ordered(order: seq<nat>, stamps: map<nat, nat>, counter: nat) {
    && NoDuplicates(order) && Ascending(order, stamps)
    && (forall k :: k in order <==> k in stamps)
    && (forall k :: k in stamps ==> stamps[k] <= counter)
  }

  /** Every cell's own size is right, and the running total is the size of the whole object. */
  ghost predicate SizesExact(s: State, order: seq<nat>, render: Render) {
    && (forall k :: k in order <==> k in s.sizes)
    && s.cells.Keys == s.sizes.Keys
    && (forall k :: k in s.cells ==> s.sizes[k] == OwnSize(k, s.cells[k], render))
    && s.cacheSize == ObjectSize(order, s.sizes)
  }

  ghost predicate Consistent(s: State, order: seq<nat>, render: Render) {
    Ordered(order, s.stamps, s.counter) && SizesExact(s, order, render)
  }

  lemma {:induction false} AscendingFrame(order: seq<nat>, a: map<nat, nat>, b: map<nat, nat>)
    requires Ascending(order, a) && forall k :: k in order ==> k in b && k in a && a[k] == b[k]
    ensures Ascending(order, b)
  {
    if order != [] {
      AscendingFrame(order[1..], a, b);
    }
  }

  lemma {:induction false} AscendingWithout(order: seq<nat>, stamps: map<nat, nat>, k: nat)
    requires Ascending(order, stamps)
    ensures Ascending(Without(order, k), stamps)
  {
    if order != [] {
      AscendingWithout(order[1..], stamps, k);
      if order[0] != k {
        assert Without(order, k)[1..] == Without(order[1..], k);
      }
    }
  }

  lemma {:induction false} AscendingAppend(order: seq<nat>, stamps: map<nat, nat>, k: nat)
    requires Ascending(order, stamps) && k in stamps
    requires forall j :: j in order ==> j in stamps && stamps[j] < stamps[k]
    ensures Ascending(order + [k], stamps)
  {
    if order != [] {
      AscendingAppend(order[1..], stamps, k);
      assert (order + [k])[1..] == order[1..] + [k];
    }
  }

  lemma {:induction false} TouchKeepsOrdered(order: seq<nat>, stamps: map<nat, nat>, counter: nat, k: nat)
    requires Ordered(order, stamps, counter)
    ensures Ordered(Touched(order, k), stamps[k := counter + 1], counter + 1)
  {
    TouchedNoDuplicates(order, k);
    AscendingWithout(order, stamps, k);
    AscendingFrame(Without(order, k), stamps, stamps[k := counter + 1]);
    AscendingAppend(Without(order, k), stamps[k := counter + 1], k);
  }

  lemma {:induction false} ResizedTotalIsObjectSize(order: seq<nat>, sizes: map<nat, nat>, k: nat, size: nat)
    requires NoDuplicates(order) && forall j :: j in order <==> j in sizes
    ensures ResizedTotal(ObjectSize(order, sizes), sizes, k, size) == ObjectSize(Touched(order, k), sizes[k := size])
  {
    WeightWrite(order, sizes, k, size);
    KeysCounted(order, sizes);
  }

  lemma {:induction false} WriteKeepsExact(s: State, order: seq<nat>, k: nat, values: Cell, render: Render)
    requires NoDuplicates(order) && SizesExact(s, order, render)
    ensures SizesExact(WriteCell(s, k, values, render), Touched(order, k), render)
  {
    ResizedTotalIsObjectSize(order, s.sizes, k, OwnSize(k, Merged(s, k, values), render));
  }

  lemma {:induction false} WriteKeepsConsistent(s: State, order: seq<nat>, k: nat, values: Cell, render: Render)
    requires Consistent(s, order, render)
    ensures Consistent(WriteCell(s, k, values, render), Touched(order, k), render)
  {
    assert NoDuplicates(order);
    hide Ordered, SizesExact;
    var r := WriteCell(s, k, values, render);
    assert r.stamps == s.stamps[k := s.counter + 1] && r.counter == s.counter + 1;
    assert Ordered(Touched(order, k), r.stamps, r.counter) by {
      TouchKeepsOrdered(order, s.stamps, s.counter, k);
    }
    assert SizesExact(r, Touched(order, k), render) by {
      WriteKeepsExact(s, order, k, values, render);
    }
  }

  lemma {:induction false} TouchKeepsConsistent(s: State, order: seq<nat>, k: nat, render: Render)
    requires Consistent(s, order, render) && k in s.cells
    ensures Consistent(Touch(s, k), Touched(order, k), render)
  {
    TouchKeepsOrdered(order, s.stamps, s.counter, k);
    WeightWrite(order, s.sizes, k, s.sizes[k]);
    assert s.sizes[k := s.sizes[k]] == s.sizes;
  }

  lemma {:induction false} RemoveFirstKeepsConsistent(s: State, order: seq<nat>, render: Render)
    requires Consistent(s, order, render) && order != []
    ensures Consistent(Remove(s, order[0]), order[1..], render)
  {
    AscendingFrame(order[1..], s.stamps, s.stamps - {order[0]});
    LiveFrame(order[1..], s.sizes, s.sizes - {order[0]});
    KeysCounted(order, s.sizes);
  }

  lemma {:induction false} EnforcedKeepsConsistent(s: State, order: seq<nat>, render: Render,
                                                   maxEntries: int, maxBytes: int)
    requires Consistent(s, order, render)
    ensures var r := Enforced(s, order, maxEntries, maxBytes);
      && Consistent(r, EnforcedOrder(s, order, maxEntries, maxBytes), render)
      && (forall k :: k in r.cells ==> k in s.cells && r.cells[k] == s.cells[k])
    decreases |order|
  {
    if order != [] && !(|order| <= maxEntries && s.cacheSize <= maxBytes) {
      RemoveFirstKeepsConsistent(s, order, render);
      EnforcedKeepsConsistent(Remove(s, order[0]), order[1..], render, maxEntries, maxBytes);
    }
  }

  // ---------------------------------------------------------------- sizes are lengths of JSON text

  function Lengths(cells: map<nat, Cell>, render: Render): map<nat, nat> {
    map k | k in cells :: |render(k, cells[k])|
  }

  function Written(cells: map<nat, Cell>, render: Render): map<nat, string> {
    map k | k in cells :: render(k, cells[k])
  }

  lemma {:induction false} OwnSizeIsJsonLength(k: nat, cell: Cell, render: Render)
    ensures OwnSize(k, cell, render) == |ObjectText([render(k, cell)])|
  {
  }

  lemma {:induction false} OwnSizesWeigh(order: seq<nat>, sizes: map<nat, nat>, lengths: map<nat, nat>)
    requires forall k :: k in order ==> k in sizes && k in lengths && sizes[k] == lengths[k] + 2
    ensures Weight(Live(order, sizes)) == Weight(Live(order, lengths)) + 2 * |order|
  {
    if order != [] {
      OwnSizesWeigh(order[1..], sizes, lengths);
    }
  }

  lemma {:induction false} ObjectSizeIsJsonSize(s: State, order: seq<nat>, render: Render)
    requires Consistent(s, order, render)
    ensures s.cacheSize == JsonSize(Live(order, Lengths(s.cells, render)))
  {
    OwnSizesWeigh(order, s.sizes, Lengths(s.cells, render));
  }

  /** The incremental size is the length of the JSON object holding all live cells. */
  lemma {:induction false} IncrementalSizeIsJsonLength(s: State, order: seq<nat>, render: Render)
    requires Consistent(s, order, render)
    ensures s.cacheSize == |ObjectText(Listed(order, Written(s.cells, render)))|
  {
    ObjectSizeIsJsonSize(s, order, render);
    JsonSizeIsLength(order, Written(s.cells, render), Lengths(s.cells, render));
  }

  /** The same specification as the tuple cache's: the survivors are the longest recently touched run that
    * meets both limits (or nothing). */
  lemma {:induction false} EnforcedKeepsTheLongestRecentRun(s: State, order: seq<nat>, render: Render,
                                                            maxEntries: int, maxBytes: int)
    requires Consistent(s, order, render)
    ensures var r, kept := Enforced(s, order, maxEntries, maxBytes), EnforcedOrder(s, order, maxEntries, maxBytes);
      && (forall k :: k in kept ==> k in r.cells)
      && Live(kept, Lengths(r.cells, render))
           == Survivors(Live(order, Lengths(s.cells, render)), Fits(maxEntries, maxBytes))
    decreases |order|
  {
    ObjectSizeIsJsonSize(s, order, render);
    var live := Live(order, Lengths(s.cells, render));
    if order != [] && !(|order| <= maxEntries && s.cacheSize <= maxBytes) {
      RemoveFirstKeepsConsistent(s, order, render);
      LiveFrame(order[1..], Lengths(s.cells, render), Lengths(s.cells - {order[0]}, render));
      assert Live(order[1..], Lengths(s.cells - {order[0]}, render)) == live[1..];
      EnforcedKeepsTheLongestRecentRun(Remove(s, order[0]), order[1..], render, maxEntries, maxBytes);
    }
  }

  // ---------------------------------------------------------------- merging a result

  datatype Row = Row(key: nat, values: Cell)

  /** Write the rows of a result, one after the other. */
  function WrittenAll(s: State, rows: seq<Row>, render: Render): State {
    if rows == [] then s
    else
      var last := rows[|rows| - 1];
      WriteCell(WrittenAll(s, rows[..|rows| - 1], render), last.key, last.values, render)
  }

  function TouchedAll(order: seq<nat>, rows: seq<Row>): seq<nat> {
    if rows == [] then order else Touched(TouchedAll(order, rows[..|rows| - 1]), rows[|rows| - 1].key)
  }

  lemma {:induction false} WrittenOneMore(s: State, order: seq<nat>, rows: seq<Row>, i: nat, render: Render)
    requires i < |rows|
    ensures WrittenAll(s, rows[..i + 1], render)
         == WriteCell(WrittenAll(s, rows[..i], render), rows[i].key, rows[i].values, render)
    ensures TouchedAll(order, rows[..i + 1]) == Touched(TouchedAll(order, rows[..i]), rows[i].key)
  {
    assert rows[..i + 1][..i] == rows[..i];
  }

  lemma {:induction false} WrittenAllKeepsConsistent(s: State, order: seq<nat>, rows: seq<Row>, render: Render)
    requires Consistent(s, order, render)
    ensures Consistent(WrittenAll(s, rows, render), TouchedAll(order, rows), render)
  {
    hide Consistent;
    if rows != [] {
      var init, last := rows[..|rows| - 1], rows[|rows| - 1];
      WrittenAllKeepsConsistent(s, order, init, render);
      WriteKeepsConsistent(WrittenAll(s, init, render), TouchedAll(order, init), last.key, last.values, render);
    }
  }

  /** What is left once a result was merged: of all cells, those of the result being the most recent ones, the longest
    * recent run that meets both limits. */
  ghost predicate Kept(before: State, order: seq<nat>, rows: seq<Row>, render: Render, maxEntries: int, maxBytes: int,
                       after: State, kept: seq<nat>)
  {
    var merged, touched := WrittenAll(before, rows, render), TouchedAll(order, rows);
    && after == Enforced(merged, touched, maxEntries, maxBytes)
    && kept == EnforcedOrder(merged, touched, maxEntries, maxBytes)
    && LongestKept(merged, touched, render, maxEntries, maxBytes, after, kept)
  }

  ghost predicate LongestKept(before: State, order: seq<nat>, render: Render, maxEntries: int, maxBytes: int,
                              after: State, kept: seq<nat>)
  {
    && (forall k :: k in order <==> k in before.cells) && (forall k :: k in kept <==> k in after.cells)
    && Within(after.cells, before.cells)
    && LongestFittingSuffix(Live(order, Lengths(before.cells, render)), Fits(maxEntries, maxBytes),
                            Live(kept, Lengths(after.cells, render)))
  }

  /** Both maps hold the same cell wherever the first has one. */
  ghost predicate Within(fetched: map<nat, Cell>, cells: map<nat, Cell>) {
    forall k :: k in fetched ==> k in cells && fetched[k] == cells[k]
  }

  lemma {:induction false} ConsistentCells(s: State, order: seq<nat>, render: Render)
    requires Consistent(s, order, render)
    ensures forall k :: k in order <==> k in s.cells
  {
  }

  lemma {:induction false} EnforcedIsLongest(s: State, order: seq<nat>, render: Render, maxEntries: int, maxBytes: int)
    requires Consistent(s, order, render)
    ensures LongestKept(s, order, render, maxEntries, maxBytes, Enforced(s, order, maxEntries, maxBytes),
                        EnforcedOrder(s, order, maxEntries, maxBytes))
  {
    var after, kept := Enforced(s, order, maxEntries, maxBytes), EnforcedOrder(s, order, maxEntries, maxBytes);
    hide Consistent, Enforced, EnforcedOrder, Live, Fits, LongestFittingSuffix, Survivors;
    EnforcedKeepsConsistent(s, order, render, maxEntries, maxBytes);
    ConsistentCells(s, order, render);
    ConsistentCells(after, kept, render);
    EnforcedKeepsTheLongestRecentRun(s, order, render, maxEntries, maxBytes);
    SurvivorsAreLongest(Live(order, Lengths(s.cells, render)), Fits(maxEntries, maxBytes));
  }

  lemma {:induction false} EnforcedIsKept(before: State, order: seq<nat>, rows: seq<Row>, render: Render,
                                          maxEntries: int, maxBytes: int)
    requires Consistent(before, order, render)
    ensures var merged, touched := WrittenAll(before, rows, render), TouchedAll(order, rows);
      Kept(before, order, rows, render, maxEntries, maxBytes, Enforced(merged, touched, maxEntries, maxBytes),
           EnforcedOrder(merged, touched, maxEntries, maxBytes))
  {
    hide Consistent, LongestKept, Enforced, EnforcedOrder, WrittenAll, TouchedAll;
    WrittenAllKeepsConsistent(before, order, rows, render);
    EnforcedIsLongest(WrittenAll(before, rows, render), TouchedAll(order, rows), render, maxEntries, maxBytes);
  }

  // ---------------------------------------------------------------- the object

  /** What an uncached query says about one measure of one cell. */
  type Oracle = (nat, Measure) -> string

  /** Every value is the one an uncached query gives. */
  ghost predicate Agrees(cells: map<nat, Cell>, oracle: Oracle) {
    forall k, m :: k in cells && m in cells[k] ==> cells[k][m] == oracle(k, m)
  }

  function RowKeys(rows: seq<Row>): set<nat> {
    if rows == [] then {} else {rows[0].key} + RowKeys(rows[1..])
  }

  function AllMerged(cells: map<nat, Cell>, rows: seq<Row>): map<nat, Cell>
    decreases |rows|
  {
    if rows == [] then cells
    else
      var k := rows[0].key;
      AllMerged(cells[k := (if k in cells then cells[k] else map[]) + rows[0].values], rows[1..])
  }

  function KeysTo(rows: seq<Row>, n: nat): set<nat>
    requires n <= |rows|
  {
    if n == 0 then {} else KeysTo(rows, n - 1) + {rows[n - 1].key}
  }

  lemma {:induction false} KeysToEnd(rows: seq<Row>, n: nat)
    requires n <= |rows|
    ensures KeysTo(rows, n) + RowKeys(rows[n..]) == RowKeys(rows)
  {
    if n == 0 {
      assert rows[0..] == rows;
    } else {
      KeysToEnd(rows, n - 1);
      assert rows[n - 1..][1..] == rows[n..];
    }
  }

  lemma {:induction false} MergedSnoc(cells: map<nat, Cell>, rows: seq<Row>, row: Row)
    ensures var merged := AllMerged(cells, rows);
      AllMerged(cells, rows + [row])
        == merged[row.key := (if row.key in merged then merged[row.key] else map[]) + row.values]
    decreases |rows|
  {
    if rows == [] {
      assert rows + [row] == [row] && [row][1..] == [];
    } else {
      var k := rows[0].key;
      assert (rows + [row])[1..] == rows[1..] + [row];
      MergedSnoc(cells[k := (if k in cells then cells[k] else map[]) + rows[0].values], rows[1..], row);
    }
  }

  lemma {:induction false} WrittenCells(s: State, rows: seq<Row>, render: Render)
    ensures WrittenAll(s, rows, render).cells == AllMerged(s.cells, rows)
  {
    if rows != [] {
      var init, last := rows[..|rows| - 1], rows[|rows| - 1];
      assert rows == init + [last];
      WrittenCells(s, init, render);
      MergedSnoc(s.cells, init, last);
    }
  }

  /** The cell is there and holds all of these measures. */
  ghost predicate Complete(cells: map<nat, Cell>, k: nat, measures: seq<Measure>) {
    k in cells && forall m :: m in measures ==> m in cells[k]
  }

  /** A query for some measures of some cells: one row for each, or one row for cell 0 when no tuples are given. */
  function Queried(asked: seq<nat>, measures: seq<Measure>, oracle: Oracle): seq<Row> {
    RowsFor(Asked(asked), measures, oracle)
  }

  function Asked(asked: seq<nat>): seq<nat> { if asked == [] then [0] else asked }

  function RowsFor(asked: seq<nat>, measures: seq<Measure>, oracle: Oracle): seq<Row> {
    if asked == [] then []
    else [Row(asked[0], Fetched(asked[0], measures, oracle))] + RowsFor(asked[1..], measures, oracle)
  }

  function Fetched(k: nat, measures: seq<Measure>, oracle: Oracle): Cell {
    map m | m in measures :: oracle(k, m)
  }

  lemma {:induction false} RowsForFacts(asked: seq<nat>, measures: seq<Measure>, oracle: Oracle, k: nat)
    ensures var rows := RowsFor(asked, measures, oracle);
      && (k in RowKeys(rows) <==> k in asked)
      && (k in asked ==> Row(k, Fetched(k, measures, oracle)) in rows)
  {
    if asked != [] {
      RowsForFacts(asked[1..], measures, oracle, k);
    }
  }

  /** The cells once a query for some measures of the cells `asked` was merged into them. */
  function Completed(cells: map<nat, Cell>, asked: set<nat>, measures: seq<Measure>, answers: Oracle): map<nat, Cell> {
    map k | k in cells.Keys + asked :: CompletedCell(cells, asked, measures, answers, k)
  }

  /** A cell asked for holds the measures fetched, as answered, and for the rest what it held before. */
  function CompletedCell(cells: map<nat, Cell>, asked: set<nat>, measures: seq<Measure>, answers: Oracle, k: nat): Cell
  {
    if k in asked then CellOf(cells, k) + Fetched(k, measures, answers) else CellOf(cells, k)
  }

  function CellOf(cells: map<nat, Cell>, k: nat): Cell {
    if k in cells then cells[k] else map[]
  }

  function Elements(asked: seq<nat>): set<nat> {
    set k | k in asked
  }

  lemma {:induction false} MergingCompletes(cells: map<nat, Cell>, asked: seq<nat>, measures: seq<Measure>,
                                            answers: Oracle)
    ensures AllMerged(cells, RowsFor(asked, measures, answers)) == Completed(cells, Elements(asked), measures, answers)
    decreases |asked|
  {
    if asked == [] {
      assert Completed(cells, Elements(asked), measures, answers) == cells;
    } else {
      var k := asked[0];
      var merged := cells[k := CellOf(cells, k) + Fetched(k, measures, answers)];
      MergingCompletes(merged, asked[1..], measures, answers);
      assert Elements(asked) == {k} + Elements(asked[1..]);
      CompletedStep(cells, k, Elements(asked[1..]), measures, answers);
    }
  }

  lemma {:induction false} CompletedStep(cells: map<nat, Cell>, k: nat, rest: set<nat>, measures: seq<Measure>,
                                         answers: Oracle)
    ensures var merged := cells[k := CellOf(cells, k) + Fetched(k, measures, answers)];
      Completed(merged, rest, measures, answers) == Completed(cells, {k} + rest, measures, answers)
  {
    var merged := cells[k := CellOf(cells, k) + Fetched(k, measures, answers)];
    forall x: nat
      ensures CompletedCell(merged, rest, measures, answers, x)
           == CompletedCell(cells, {k} + rest, measures, answers, x)
    {
      CompletedCellStep(cells, k, rest, measures, answers, x);
    }
    hide CompletedCell, CellOf, Fetched;
    assert merged.Keys + rest == cells.Keys + ({k} + rest);
  }

  lemma {:induction false} CompletedCellStep(cells: map<nat, Cell>, k: nat, rest: set<nat>, measures: seq<Measure>,
                                             answers: Oracle, x: nat)
    ensures var merged := cells[k := CellOf(cells, k) + Fetched(k, measures, answers)];
      CompletedCell(merged, rest, measures, answers, x) == CompletedCell(cells, {k} + rest, measures, answers, x)
  {
    hide Fetched;
    var f := Fetched(k, measures, answers);
    assert x == k ==> (CellOf(cells, k) + f) + f == CellOf(cells, k) + f;
  }

  lemma {:induction false} CompletedAgrees(cells: map<nat, Cell>, asked: set<nat>, measures: seq<Measure>,
                                           answers: Oracle, truth: Oracle)
    requires Agrees(cells, truth)
    requires forall k, m :: k in asked && m in measures ==> answers(k, m) == truth(k, m)
    ensures Agrees(Completed(cells, asked, measures, answers), truth)
  {
  }

  class CellSet {
    const render: Render
    var cells: map<nat, Cell>
    var stamps: map<nat, nat>
    var sizes: map<nat, nat>
    var counter: nat
    var cacheSize: int
    /** The cells from least to most recently touched. */
    ghost var recency: seq<nat>

    function Contents(): State
      reads this
    {
      State(cells, stamps, sizes, counter, cacheSize)
    }

    ghost predicate Valid()
      reads this
    {
      Consistent(Contents(), recency, render)
    }

    constructor (render: Render)
      ensures Valid() && Contents() == Empty && recency == [] && this.render == render
    {
      this.render := render;
      cells, stamps, sizes, counter, cacheSize := map[], map[], map[], 0, 2;
      recency := [];
    }

    method Clear()
      modifies this
      ensures Valid() && Contents() == Empty && recency == []
    {
      cells, stamps, sizes, counter, cacheSize := map[], map[], map[], 0, 2;
      recency := [];
    }

    method TouchCell(k: nat)
      modifies `stamps, `counter, `recency
      ensures Contents() == Touch(old(Contents()), k) && recency == Touched(old(recency), k)
    {
      counter := counter + 1;
      stamps := stamps[k := counter];
      recency := Touched(recency, k);
    }

    method RemoveCell(k: nat)
      modifies `cells, `stamps, `sizes, `cacheSize
      ensures Contents() == Remove(old(Contents()), k)
    {
      if k in sizes {
        if |sizes| == 1 {
          cacheSize := 2;
        } else {
          cacheSize := cacheSize - sizes[k] + 1;
        }
        sizes := sizes - {k};
      }
      cells := cells - {k};
      stamps := stamps - {k};
      assert k !in old(sizes) ==> sizes == old(sizes) - {k};
    }

    method UpdateCellCacheSize(k: nat)
      requires k in cells
      modifies `sizes, `cacheSize
      ensures Contents() == Resized(old(Contents()), k, OwnSize(k, cells[k], render))
    {
      OwnSizeIsJsonLength(k, cells[k], render);
      var size := |ObjectText([render(k, cells[k])])|;
      if k in sizes {
        cacheSize := cacheSize + (size - sizes[k]);
      } else if |sizes| == 0 {
        cacheSize := size;
      } else {
        cacheSize := cacheSize + (size - 1);
      }
      sizes := sizes[k := size];
    }

    /** Scan all time stamps for the least. */
    method OldestCell() returns (oldest: Option<nat>)
      ensures oldest.None? <==> stamps == map[]
      ensures oldest.Some? ==> oldest.value in stamps
      ensures oldest.Some? ==> forall k :: k in stamps ==> stamps[oldest.value] <= stamps[k]
    {
      oldest := None;
      var rest := stamps.Keys;
      while rest != {}
        invariant rest <= stamps.Keys
        invariant oldest.None? ==> rest == stamps.Keys
        invariant oldest.Some? ==> oldest.value in stamps
        invariant oldest.Some? ==> forall k :: k in stamps && k !in rest ==> stamps[oldest.value] <= stamps[k]
        decreases rest
      {
        var k :| k in rest;
        if oldest.None? || stamps[k] < stamps[oldest.value] {
          oldest := Some(k);
        }
        rest := rest - {k};
      }
    }

    /** What the scan evicts is the first cell of the recency order. */
    method EvictOldest() returns (found: bool)
      requires Valid()
      modifies this
      ensures Valid() && found == (old(recency) != [])
      ensures found ==> Contents() == Remove(old(Contents()), old(recency)[0]) && recency == old(recency)[1..]
      ensures !found ==> Contents() == old(Contents()) && recency == old(recency)
    {
      var oldest := OldestCell();
      if oldest.None? {
        assert recency == [];
        return false;
      }
      OldestIsFirst(recency, stamps, oldest.value);
      RemoveFirstKeepsConsistent(Contents(), recency, render);
      RemoveCell(oldest.value);
      recency := recency[1..];
      return true;
    }

    method EnforceCacheLimits(maxEntries: int, maxBytes: int)
      requires Valid()
      modifies this
      ensures Valid()
      ensures Contents() == Enforced(old(Contents()), old(recency), maxEntries, maxBytes)
      ensures recency == EnforcedOrder(old(Contents()), old(recency), maxEntries, maxBytes)
    {
      KeysCounted(recency, stamps);
      while |stamps| > maxEntries || cacheSize > maxBytes
        invariant Valid() && |stamps| == |recency|
        invariant Enforced(Contents(), recency, maxEntries, maxBytes)
               == Enforced(old(Contents()), old(recency), maxEntries, maxBytes)
        invariant EnforcedOrder(Contents(), recency, maxEntries, maxBytes)
               == EnforcedOrder(old(Contents()), old(recency), maxEntries, maxBytes)
        decreases |recency|
      {
        var found := EvictOldest();
        if !found {
          break;
        }
        KeysCounted(recency, stamps);
      }
    }

    method WriteRow(k: nat, values: Cell)
      modifies this
      ensures Contents() == WriteCell(old(Contents()), k, values, render)
      ensures recency == Touched(old(recency), k)
    {
      cells := cells[k := Merged(Contents(), k, values)];
      TouchCell(k);
      UpdateCellCacheSize(k);
    }

    method MergeRow(row: Row)
      requires Valid()
      modifies this
      ensures Valid()
      ensures cells.Keys == old(cells).Keys + {row.key}
      ensures Contents() == WriteCell(old(Contents()), row.key, row.values, render)
      ensures recency == Touched(old(recency), row.key)
    {
      WriteKeepsConsistent(Contents(), recency, row.key, row.values, render);
      WriteRow(row.key, row.values);
    }

    /** Merge the rows of a result into the cache. The result holds references to the cached cells, so it is
      * read once all rows are merged. */
    method MergeRows(rows: seq<Row>) returns (fetched: map<nat, Cell>)
      requires Valid()
      modifies this
      ensures Valid() && cells == AllMerged(old(cells), rows)
      ensures fetched.Keys == RowKeys(rows) && Within(fetched, cells)
      ensures Contents() == WrittenAll(old(Contents()), rows, render) && recency == TouchedAll(old(recency), rows)
    {
      WrittenCells(Contents(), rows, render);
      var keys := WriteRows(rows);
      fetched := map k | k in keys :: cells[k];
    }

    method WriteRows(rows: seq<Row>) returns (keys: set<nat>)
      requires Valid()
      modifies this
      ensures Valid() && keys == RowKeys(rows) && keys <= cells.Keys
      ensures Contents() == WrittenAll(old(Contents()), rows, render) && recency == TouchedAll(old(recency), rows)
    {
      hide Consistent, WriteCell, Touched;
      keys := {};
      for i := 0 to |rows|
        invariant Valid()
        invariant keys == KeysTo(rows, i) && keys <= cells.Keys
        invariant Contents() == WrittenAll(old(Contents()), rows[..i], render)
        invariant recency == TouchedAll(old(recency), rows[..i])
      {
        WrittenOneMore(old(Contents()), old(recency), rows, i, render);
        MergeRow(rows[i]);
        keys := keys + {rows[i].key};
      }
      KeysToEnd(rows, |rows|);
      assert rows[..|rows|] == rows && rows[|rows|..] == [];
    }

    /** The merged cells are returned whether or not they stay cached once the limits are enforced. */
    method ExtractCells(rows: seq<Row>, maxEntries: int, maxBytes: int) returns (fetched: map<nat, Cell>)
      requires Valid()
      modifies this
      ensures Valid() && Within(cells, AllMerged(old(cells), rows))
      ensures fetched.Keys == RowKeys(rows) && Within(fetched, AllMerged(old(cells), rows))
      ensures Kept(old(Contents()), old(recency), rows, render, maxEntries, maxBytes, Contents(), recency)
    {
      hide Kept;
      EnforcedIsKept(Contents(), recency, rows, render, maxEntries, maxBytes);
      fetched := MergeRows(rows);
      EnforcedKeepsConsistent(Contents(), recency, render, maxEntries, maxBytes);
      EnforceCacheLimits(maxEntries, maxBytes);
    }

    /** Is everything requested cached for this cell? If not, name the measures that a query must fetch: from
      * the first missing one on, since the source forgets the cell there. */
    method CheckCell(k: nat, measures: seq<Measure>, already: seq<Measure>) returns (complete: bool,
                     toFetch: seq<Measure>)
      requires measures != []
      ensures complete == Complete(cells, k, measures)
      ensures if complete then toFetch == already else toFetch != []
      ensures forall m :: m in already ==> m in toFetch
      ensures forall m :: m in toFetch ==> m in already || m in measures
      ensures forall m :: m in measures ==> m in toFetch || (k in cells && m in cells[k])
      ensures forall m :: m in toFetch <==> m in already || LacksBefore(cells, k, measures, m)
    {
      complete, toFetch := k in cells, already;
      for j := 0 to |measures|
        invariant complete <==> k in cells && forall i :: 0 <= i < j ==> measures[i] in cells[k]
        invariant if complete then toFetch == already else toFetch != [] || j == 0
        invariant forall m :: m in already ==> m in toFetch
        invariant forall m :: m in toFetch ==> m in already || m in measures
        invariant forall i :: 0 <= i < j ==> measures[i] in toFetch || (k in cells && measures[i] in cells[k])
        invariant forall m :: m in toFetch <==> m in already || LacksBefore(cells, k, measures[..j], m)
      {
        forall m
          ensures LacksBefore(cells, k, measures[..j + 1], m) <==>
            || LacksBefore(cells, k, measures[..j], m)
            || (m == measures[j] && (k !in cells || exists i :: 0 <= i <= j && measures[i] !in cells[k]))
        {
          LacksOneMore(cells, k, measures, j, m);
        }
        if !complete || measures[j] !in cells[k] {
          complete := false;
          if measures[j] !in toFetch {
            toFetch := toFetch + [measures[j]];
          }
        }
      }
      assert measures[..|measures|] == measures;
    }

    /** Split the requested cells into those served from the cache and those to query. */
    method Split(coords: seq<nat>, measures: seq<Measure>)
      returns (available: map<nat, Cell>, toQuery: seq<nat>, toFetch: seq<Measure>)
      requires measures != []
      ensures Divided(cells, coords, measures, available, toQuery, toFetch)
      ensures FetchesLacking(cells, coords, measures, toFetch)
    {
      hide LacksBefore;
      available, toQuery, toFetch := map[], [], [];
      for i := 0 to |coords|
        invariant Divided(cells, coords[..i], measures, available, toQuery, toFetch)
        invariant FetchesLacking(cells, coords[..i], measures, toFetch)
      {
        var complete;
        complete, toFetch := CheckCell(coords[i], measures, toFetch);
        if complete {
          available := available[coords[i] := cells[coords[i]]];
        } else {
          toQuery := toQuery + [coords[i]];
        }
        assert coords[..i + 1] == coords[..i] + [coords[i]];
      }
      assert coords[..|coords|] == coords;
    }

    /** Run the query for some measures of some cells and merge its rows. */
    method FetchCells(asked: seq<nat>, measures: seq<Measure>, answers: Oracle, maxEntries: int, maxBytes: int)
      returns (fetched: map<nat, Cell>)
      requires Valid()
      modifies this
      ensures Valid() && Within(cells, Completed(old(cells), Elements(Asked(asked)), measures, answers))
      ensures fetched.Keys == Elements(Asked(asked))
      ensures Within(fetched, Completed(old(cells), Elements(Asked(asked)), measures, answers))
      ensures Kept(old(Contents()), old(recency), Queried(asked, measures, answers), render, maxEntries, maxBytes,
                   Contents(), recency)
    {
      hide Kept;
      var rows := Queried(asked, measures, answers);
      MergingCompletes(cells, Asked(asked), measures, answers);
      fetched := ExtractCells(rows, maxEntries, maxBytes);
      forall k: nat
        ensures k in fetched <==> k in Asked(asked)
      {
        RowsForFacts(Asked(asked), measures, answers, k);
      }
    }

    /** Cells that are complete in the cache are served from it. The others are queried if tuples were found for them;
      * if that is none of them, a cell without tuples is queried under number 0. What is returned is exact; what is
      * cached is so as far as the limits do not evict it. */
    method GetCells(coords: seq<nat>, measures: seq<Measure>, sent: set<nat>, answers: Oracle, maxEntries: int,
                    maxBytes: int)
      returns (result: Option<map<nat, Cell>>, ghost fetch: seq<Measure>)
      requires Valid()
      modifies this
      ensures Valid() && (result.None? <==> measures == [])
      ensures result.None? || ToQuery(old(cells), coords, measures) == {} ==> Contents() == old(Contents())
      ensures result.Some? ==>
        && Fetches(old(cells), coords, measures, fetch)
        && result.value == Answered(old(cells), coords, measures, sent, fetch, answers)
        && Within(cells, Completed(old(cells), Sent(old(cells), coords, measures, sent), fetch, answers))
      ensures result.Some? ==> FetchesLacking(old(cells), coords, measures, fetch)
      ensures result.Some? && ToQuery(old(cells), coords, measures) != {} ==>
        KeptAfterQuery(old(Contents()), old(recency), Sent(old(cells), coords, measures, sent), fetch, answers, render,
                       maxEntries, maxBytes, Contents(), recency)
    {
      hide Kept, LacksBefore;
      fetch := [];
      if measures == [] {
        return None, [];
      }
      var available, toQuery, toFetch := Split(coords, measures);
      fetch := toFetch;
      ghost var before := cells;
      if toFetch == [] {
        AllAvailable(before, coords, measures, available, toQuery, toFetch, sent, answers);
        return Some(available), toFetch;
      }
      var asked := SentOf(toQuery, sent);
      SentFacts(before, coords, measures, available, toQuery, toFetch, sent, asked);
      var fetched := FetchCells(asked, toFetch, answers, maxEntries, maxBytes);
      FetchedIsAnswered(before, coords, measures, available, toQuery, toFetch, sent, answers, fetched);
      result := Some(available + fetched);
    }
  }

  /** The cell lacks this measure, or one before it. */
  ghost predicate LacksBefore(cells: map<nat, Cell>, k: nat, measures: seq<Measure>, m: Measure) {
    exists i, j :: 0 <= i <= j < |measures| && measures[j] == m && (k !in cells || measures[i] !in cells[k])
  }

  /** A query fetches what some cell asked for lacks: from its first missing measure on. */
  ghost predicate FetchesLacking(cells: map<nat, Cell>, coords: seq<nat>, measures: seq<Measure>, fetch: seq<Measure>) {
    forall m :: m in fetch <==> exists k :: k in coords && LacksBefore(cells, k, measures, m)
  }

  /** After a query for the cells `asked` the cache is as merging its rows leaves it. */
  ghost predicate KeptAfterQuery(before: State, order: seq<nat>, asked: set<nat>, fetch: seq<Measure>, answers: Oracle,
                                 render: Render, maxEntries: int, maxBytes: int, after: State, kept: seq<nat>)
  {
    exists rows: seq<nat> :: Elements(Asked(rows)) == asked
      && Kept(before, order, Queried(rows, fetch, answers), render, maxEntries, maxBytes, after, kept)
  }

  lemma {:induction false} LacksOneMore(cells: map<nat, Cell>, k: nat, measures: seq<Measure>, n: nat, m: Measure)
    requires n < |measures|
    ensures LacksBefore(cells, k, measures[..n + 1], m) <==>
              || LacksBefore(cells, k, measures[..n], m)
              || (m == measures[n] && (k !in cells || exists i :: 0 <= i <= n && measures[i] !in cells[k]))
  {
    var more, fewer := measures[..n + 1], measures[..n];
    assert forall i :: 0 <= i < n ==> fewer[i] == more[i] == measures[i];
    if i, j :| 0 <= i <= j < |fewer| && fewer[j] == m && (k !in cells || fewer[i] !in cells[k]) {
      assert more[j] == m && (k !in cells || more[i] !in cells[k]);
    }
    if m == measures[n] {
      assert more[n] == m;
      if k !in cells {
        assert 0 <= n <= n < |more|;
      } else if i :| 0 <= i <= n && measures[i] !in cells[k] {
        assert more[i] !in cells[k];
      }
    }
  }

  /** What is fetched completes every cell that the cache cannot answer. */
  ghost predicate Fetches(cells: map<nat, Cell>, coords: seq<nat>, measures: seq<Measure>, fetch: seq<Measure>) {
    && (forall m :: m in fetch ==> m in measures)
    && forall k, m :: k in coords && m in measures && !Complete(cells, k, measures) ==>
         m in fetch || (k in cells && m in cells[k])
  }

  /** What comes back: the cells asked for, completed, next to the cells that the cache can answer. */
  ghost function Answered(cells: map<nat, Cell>, coords: seq<nat>, measures: seq<Measure>, sent: set<nat>,
                          fetch: seq<Measure>, answers: Oracle): map<nat, Cell>
  {
    map k | k in Returned(cells, coords, measures, sent) ::
      CompletedCell(cells, Sent(cells, coords, measures, sent), fetch, answers, k)
  }

  lemma {:induction false} AllAvailable(cells: map<nat, Cell>, coords: seq<nat>, measures: seq<Measure>,
                                        available: map<nat, Cell>, toQuery: seq<nat>, toFetch: seq<Measure>,
                                        sent: set<nat>, answers: Oracle)
    requires Divided(cells, coords, measures, available, toQuery, toFetch) && toFetch == []
    ensures ToQuery(cells, coords, measures) == {} && Fetches(cells, coords, measures, toFetch)
    ensures available == Answered(cells, coords, measures, sent, toFetch, answers)
    ensures Completed(cells, Sent(cells, coords, measures, sent), toFetch, answers) == cells
  {
    hide Complete;
    assert ToQuery(cells, coords, measures) == {};
  }

  lemma {:induction false} FetchedIsAnswered(cells: map<nat, Cell>, coords: seq<nat>, measures: seq<Measure>,
                                             available: map<nat, Cell>, toQuery: seq<nat>, toFetch: seq<Measure>,
                                             sent: set<nat>, answers: Oracle, fetched: map<nat, Cell>)
    requires Divided(cells, coords, measures, available, toQuery, toFetch)
    requires var asked := Sent(cells, coords, measures, sent);
      fetched.Keys == asked && Within(fetched, Completed(cells, asked, toFetch, answers))
    ensures Fetches(cells, coords, measures, toFetch)
    ensures available + fetched == Answered(cells, coords, measures, sent, toFetch, answers)
  {
    hide Complete, Sent, Fetched;
  }

  /** A cell requested comes back with every measure. */
  lemma {:induction false} AnsweredIsComplete(cells: map<nat, Cell>, coords: seq<nat>, measures: seq<Measure>,
                                              sent: set<nat>, fetch: seq<Measure>, answers: Oracle, k: nat)
    requires Fetches(cells, coords, measures, fetch)
    requires k in coords && k in Answered(cells, coords, measures, sent, fetch, answers)
    ensures Complete(Answered(cells, coords, measures, sent, fetch, answers), k, measures)
  {
    hide Sent;
  }

  /** The cells that the cache cannot answer. */
  ghost function ToQuery(cells: map<nat, Cell>, coords: seq<nat>, measures: seq<Measure>): set<nat> {
    set k | k in coords && !Complete(cells, k, measures)
  }

  /** Those of them that are queried. */
  ghost function Sent(cells: map<nat, Cell>, coords: seq<nat>, measures: seq<Measure>, sent: set<nat>): set<nat> {
    var toQuery := ToQuery(cells, coords, measures);
    if toQuery == {} then {} else if toQuery * sent == {} then {0} else toQuery * sent
  }

  /** Those answered and those queried. */
  ghost function Returned(cells: map<nat, Cell>, coords: seq<nat>, measures: seq<Measure>, sent: set<nat>): set<nat> {
    (set k | k in coords) - ToQuery(cells, coords, measures) + Sent(cells, coords, measures, sent)
  }

  function SentOf(toQuery: seq<nat>, sent: set<nat>): (asked: seq<nat>)
    ensures forall k :: k in asked <==> k in toQuery && k in sent
  {
    if toQuery == [] then []
    else (if toQuery[0] in sent then [toQuery[0]] else []) + SentOf(toQuery[1..], sent)
  }

  lemma {:induction false} SentFacts(cells: map<nat, Cell>, coords: seq<nat>, measures: seq<Measure>,
                                     available: map<nat, Cell>, toQuery: seq<nat>, toFetch: seq<Measure>,
                                     sent: set<nat>, asked: seq<nat>)
    requires Divided(cells, coords, measures, available, toQuery, toFetch) && toFetch != []
    requires asked == SentOf(toQuery, sent)
    ensures ToQuery(cells, coords, measures) != {}
    ensures forall k :: k in toQuery <==> k in ToQuery(cells, coords, measures)
    ensures Elements(Asked(asked)) == Sent(cells, coords, measures, sent)
  {
    assert toQuery[0] in toQuery && toQuery[0] in ToQuery(cells, coords, measures);
    var both := ToQuery(cells, coords, measures) * sent;
    assert forall k :: k in asked <==> k in both;
    if asked != [] {
      assert asked[0] in both;
    }
  }

  /** The requested cells that the cache can answer are taken from it, the others are to be queried, and the
    * measures to fetch complete every one of those. */
  ghost predicate Divided(cells: map<nat, Cell>, coords: seq<nat>, measures: seq<Measure>,
                          available: map<nat, Cell>, toQuery: seq<nat>, toFetch: seq<Measure>)
  {
    && Within(available, cells)
    && (forall k :: k in coords ==> if Complete(cells, k, measures) then k in available else k in toQuery)
    && (forall k :: k in available ==> k in coords && Complete(cells, k, measures))
    && (forall k :: k in toQuery ==> k in coords && !Complete(cells, k, measures))
    && (forall k, m :: k in toQuery && m in measures ==> m in toFetch || (k in cells && m in cells[k]))
    && (forall m :: m in toFetch ==> m in measures)
    && (toQuery == [] <==> toFetch == [])
  }

  lemma {:induction false} OldestIsFirst(order: seq<nat>, stamps: map<nat, nat>, oldest: nat)
    requires Ascending(order, stamps) && (forall k :: k in order <==> k in stamps) && oldest in stamps
    requires forall k :: k in stamps ==> stamps[oldest] <= stamps[k]
    ensures order != [] && order[0] == oldest
  {
    assert oldest in order;
  }
}
