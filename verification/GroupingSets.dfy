/** Totals: the grouping sets of src/DataSet/SqlQueryGenerator.js and the ids that tell their rows apart. */
module GroupingSets {
  /** An SQL expression. Only whether two expressions are the same matters here. */
  type Expr(==, !new)

  datatype Axis = Rows | Columns | Cells

  datatype Item = Item(axis: Axis, expr: Expr, totals: bool, descending: bool, nullsFirst: bool)

  function OnAxis(items: seq<Item>, axis: Axis): seq<Item> {
    if items == [] then []
    else if items[0].axis == axis then [items[0]] + OnAxis(items[1..], axis)
    else OnAxis(items[1..], axis)
  }

  function Exprs(items: seq<Item>): (exprs: seq<Expr>)
    ensures |exprs| == |items|
  {
    if items == [] then [] else [items[0].expr] + Exprs(items[1..])
  }

  /** The expressions of the totals items of the rows and columns axes. */
  function TotalsExprs(items: seq<Item>): seq<Expr> {
    if items == [] then []
    else if items[0].totals && items[0].axis != Cells then [items[0].expr] + TotalsExprs(items[1..])
    else TotalsExprs(items[1..])
  }

  /** For every totals item of one axis, the expressions before it; `before` are those of the items to the left. */
  function TotalsSets(axis: seq<Item>, before: seq<Expr>): seq<seq<Expr>> {
    if axis == [] then []
    else if axis[0].totals then [before] + TotalsSets(axis[1..], before + [axis[0].expr])
    else TotalsSets(axis[1..], before + [axis[0].expr])
  }

  /** The entries of the ORDER BY list: a placeholder stands for a grouping bit until the bits are known. */
  datatype Term =
    | Placeholder(expr: Expr)
    | Bit(shift: nat, descending: bool)
    | Key(expr: Expr, descending: bool, nullsFirst: bool)

  function KeyOf(item: Item): Term {
    Key(item.expr, item.descending, item.nullsFirst)
  }

  function FirstTerms(items: seq<Item>): seq<Term> {
    if items == [] then []
    else if items[0].axis == Cells then FirstTerms(items[1..])
    else if items[0].totals then [Placeholder(items[0].expr), KeyOf(items[0])] + FirstTerms(items[1..])
    else [KeyOf(items[0])] + FirstTerms(items[1..])
  }

  /** The lists that the loop over the query's items fills. */
  datatype Lists = Lists(rowsBy: seq<Expr>, rowsSets: seq<seq<Expr>>, columnsBy: seq<Expr>,
                         columnsSets: seq<seq<Expr>>, idExprs: seq<Expr>, orderBy: seq<Term>)

  function Grouped(s: Lists, item: Item): Lists {
    if item.axis == Cells then s
    else if item.axis == Rows then
      s.(rowsBy := s.rowsBy + [item.expr], rowsSets := if item.totals then s.rowsSets + [s.rowsBy] else s.rowsSets)
    else
      s.(columnsBy := s.columnsBy + [item.expr],
      columnsSets := if item.totals then s.columnsSets + [s.columnsBy] else s.columnsSets)
  }

  function Ordered(s: Lists, item: Item): Lists {
    if item.axis == Cells then s
    else if item.totals then
      s.(idExprs := s.idExprs + [item.expr], orderBy := s.orderBy + [Placeholder(item.expr), KeyOf(item)])
    else s.(orderBy := s.orderBy + [KeyOf(item)])
  }

  function Collect(s: Lists, items: seq<Item>): Lists
    decreases |items|
  {
    if items == [] then s else Collect(Ordered(Grouped(s, items[0]), items[0]), items[1..])
  }

  lemma {:induction false} CollectedSets(s: Lists, items: seq<Item>)
    ensures var r, rows, columns := Collect(s, items), OnAxis(items, Rows), OnAxis(items, Columns);
      && r.rowsBy == s.rowsBy + Exprs(rows) && r.rowsSets == s.rowsSets + TotalsSets(rows, s.rowsBy)
      && r.columnsBy == s.columnsBy + Exprs(columns)
      && r.columnsSets == s.columnsSets + TotalsSets(columns, s.columnsBy)
    decreases |items|
  {
    if items != [] {
      var next, rest := Ordered(Grouped(s, items[0]), items[0]), items[1..];
      CollectedSets(next, rest);
      assert Collect(s, items) == Collect(next, rest);
      hide Collect;
      FirstOnAxis(items[0], OnAxis(rest, Rows), s.rowsBy);
      FirstOnAxis(items[0], OnAxis(rest, Columns), s.columnsBy);
      hide Exprs, TotalsSets;
    }
  }

  /** What an item that comes first on its axis adds. */
  lemma {:induction false} FirstOnAxis(item: Item, others: seq<Item>, before: seq<Expr>)
    ensures before + Exprs([item] + others) == (before + [item.expr]) + Exprs(others)
    ensures TotalsSets([item] + others, before)
         == (if item.totals then [before] else []) + TotalsSets(others, before + [item.expr])
  {
    assert ([item] + others)[1..] == others;
  }

  lemma {:induction false} CollectedTerms(s: Lists, items: seq<Item>)
    ensures Collect(s, items).idExprs == s.idExprs + TotalsExprs(items)
    ensures Collect(s, items).orderBy == s.orderBy + FirstTerms(items)
    decreases |items|
  {
    if items != [] {
      CollectedTerms(Ordered(Grouped(s, items[0]), items[0]), items[1..]);
    }
  }

  /** The loop over the query's items. */
  method CollectItems(items: seq<Item>)
    returns (rowsBy: seq<Expr>, rowsSets: seq<seq<Expr>>, columnsBy: seq<Expr>, columnsSets: seq<seq<Expr>>,
             idExprs: seq<Expr>, orderBy: seq<Term>)
    ensures rowsBy == Exprs(OnAxis(items, Rows)) && rowsSets == TotalsSets(OnAxis(items, Rows), [])
    ensures columnsBy == Exprs(OnAxis(items, Columns)) && columnsSets == TotalsSets(OnAxis(items, Columns), [])
    ensures idExprs == TotalsExprs(items) && orderBy == FirstTerms(items)
  {
    rowsBy, rowsSets, columnsBy, columnsSets, idExprs, orderBy := [], [], [], [], [], [];
    ghost var none := Lists([], [], [], [], [], []);
    for i := 0 to |items|
      invariant Collect(Lists(rowsBy, rowsSets, columnsBy, columnsSets, idExprs, orderBy), items[i..])
             == Collect(none, items)
    {
      var item := items[i];
      ghost var was := Lists(rowsBy, rowsSets, columnsBy, columnsSets, idExprs, orderBy);
      assert items[i..][0] == item && items[i..][1..] == items[i + 1..];
      if item.axis == Cells {
        continue;
      }
      if item.totals {
        if item.axis == Rows {
          rowsSets := rowsSets + [rowsBy];
        } else {
          columnsSets := columnsSets + [columnsBy];
        }
        idExprs := idExprs + [item.expr];
        orderBy := orderBy + [Placeholder(item.expr)];
      }
      if item.axis == Rows {
        rowsBy := rowsBy + [item.expr];
      } else {
        columnsBy := columnsBy + [item.expr];
      }
      orderBy := orderBy + [KeyOf(item)];
      assert Lists(rowsBy, rowsSets, columnsBy, columnsSets, idExprs, orderBy) == Ordered(Grouped(was, item), item) by {
        assert was.orderBy + [Placeholder(item.expr)] + [KeyOf(item)]
            == was.orderBy + [Placeholder(item.expr), KeyOf(item)];
      }
    }
    CollectedSets(none, items);
    CollectedTerms(none, items);
  }

  /** The grouping sets of one axis: those of its totals, and the set of all its expressions. */
  function AxisSets(exprs: seq<Expr>, totals: seq<seq<Expr>>): seq<seq<Expr>> {
    if totals != [] then
      if |totals[|totals| - 1]| < |exprs| then totals + [exprs] else totals
    else if exprs != [] then [exprs] else []
  }

  function Joined(a: seq<Expr>, others: seq<seq<Expr>>): seq<seq<Expr>> {
    if others == [] then [] else [a + others[0]] + Joined(a, others[1..])
  }

  function Cross(a: seq<seq<Expr>>, b: seq<seq<Expr>>): seq<seq<Expr>> {
    if a == [] then [] else Joined(a[0], b) + Cross(a[1..], b)
  }

  /** An axis without sets takes no part in the product. */
  function AllSets(rows: seq<seq<Expr>>, columns: seq<seq<Expr>>): seq<seq<Expr>> {
    if rows == [] then columns else if columns == [] then rows else Cross(rows, columns)
  }

  datatype GroupBy = Nothing | Plain(exprs: seq<Expr>) | Sets(sets: seq<seq<Expr>>, idExprs: seq<Expr>)

  function Clause(items: seq<Item>): GroupBy {
    var rows, columns := OnAxis(items, Rows), OnAxis(items, Columns);
    var rowsSets, columnsSets := TotalsSets(rows, []), TotalsSets(columns, []);
    if rowsSets != [] || columnsSets != [] then
      Sets(AllSets(AxisSets(Exprs(rows), rowsSets), AxisSets(Exprs(columns), columnsSets)), TotalsExprs(items))
    else if rows != [] || columns != [] then Plain(Exprs(rows) + Exprs(columns))
    else Nothing
  }

  method GenerateGroupBy(items: seq<Item>) returns (groupBy: GroupBy)
    ensures groupBy == Clause(items)
    ensures forall rows, columns, cells :: InAxes(items, rows, columns, cells) ==> GroupsAsAsked(rows, columns, groupBy)
  {
    ClauseIsAsAsked(items);
    var rowsBy, rowsSets, columnsBy, columnsSets, idExprs, orderBy := CollectItems(items);
    if rowsSets == [] && columnsSets == [] {
      return if rowsBy != [] || columnsBy != [] then Plain(rowsBy + columnsBy) else Nothing;
    }
    var rows := CompleteSets(rowsBy, rowsSets);
    var columns := CompleteSets(columnsBy, columnsSets);
    if rows != [] && columns != [] {
      var product := CrossProduct(rows, columns);
      return Sets(product, idExprs);
    }
    return Sets(if rows != [] then rows else columns, idExprs);
  }

  method CompleteSets(exprs: seq<Expr>, totals: seq<seq<Expr>>) returns (sets: seq<seq<Expr>>)
    ensures sets == AxisSets(exprs, totals)
  {
    sets := totals;
    if totals != [] {
      if |totals[|totals| - 1]| < |exprs| {
        sets := sets + [exprs];
      }
    } else if exprs != [] {
      sets := sets + [exprs];
    }
  }

  method CrossProduct(a: seq<seq<Expr>>, b: seq<seq<Expr>>) returns (product: seq<seq<Expr>>)
    ensures product == Cross(a, b)
  {
    product := [];
    for i := 0 to |a|
      invariant product + Cross(a[i..], b) == Cross(a, b)
    {
      var joined := JoinAll(a[i], b);
      assert a[i..][1..] == a[i + 1..];
      product := product + joined;
    }
  }

  method JoinAll(a: seq<Expr>, others: seq<seq<Expr>>) returns (joined: seq<seq<Expr>>)
    ensures joined == Joined(a, others)
  {
    joined := [];
    for j := 0 to |others|
      invariant joined + Joined(a, others[j..]) == Joined(a, others)
    {
      assert others[j..][1..] == others[j + 1..];
      joined := joined + [a + others[j]];
    }
  }

  // ---------------------------------------------------------------- which sets are generated

  /** The items of one axis. */
  predicate IsAxis(items: seq<Item>, axis: Axis) {
    forall item :: item in items ==> item.axis == axis
  }

  /** An axis may be rolled up from a totals item on, or not at all. */
  predicate Level(axis: seq<Item>, p: nat) {
    p == |axis| || (p < |axis| && axis[p].totals)
  }

  predicate HasTotals(axis: seq<Item>) {
    exists item :: item in axis && item.totals
  }

  lemma {:induction false} OnAxisFacts(items: seq<Item>, axis: Axis)
    ensures IsAxis(OnAxis(items, axis), axis)
    ensures IsAxis(items, axis) ==> OnAxis(items, axis) == items
    ensures (forall item :: item in items ==> item.axis != axis) ==> OnAxis(items, axis) == []
  {
    if items != [] {
      OnAxisFacts(items[1..], axis);
    }
  }

  lemma {:induction false} OnAxisConcat(a: seq<Item>, b: seq<Item>, axis: Axis)
    ensures OnAxis(a + b, axis) == OnAxis(a, axis) + OnAxis(b, axis)
  {
    if a == [] {
      assert a + b == b;
    } else {
      OnAxisConcat(a[1..], b, axis);
      assert (a + b)[1..] == a[1..] + b;
    }
  }

  lemma {:induction false} TotalsExprsOfFirst(item: Item, rest: seq<Item>)
    ensures TotalsExprs([item] + rest)
         == (if item.totals && item.axis != Cells then [item.expr] else []) + TotalsExprs(rest)
  {
    assert ([item] + rest)[1..] == rest;
  }

  lemma {:induction false} TotalsExprsConcat(a: seq<Item>, b: seq<Item>)
    ensures TotalsExprs(a + b) == TotalsExprs(a) + TotalsExprs(b)
  {
    if a == [] {
      assert a + b == b;
    } else {
      var rest := a[1..];
      TotalsExprsConcat(rest, b);
      TotalsExprsOfFirst(a[0], rest);
      TotalsExprsOfFirst(a[0], rest + b);
      hide TotalsExprs;
      var first := if a[0].totals && a[0].axis != Cells then [a[0].expr] else [];
      assert a == [a[0]] + rest && a + b == [a[0]] + (rest + b);
      Associates(first, TotalsExprs(rest), TotalsExprs(b));
    }
  }

  lemma {:induction false} Associates(a: seq<Expr>, b: seq<Expr>, c: seq<Expr>)
    ensures (a + b) + c == a + (b + c)
  {
  }

  lemma {:induction false} ExprsAt(items: seq<Item>, i: nat)
    requires i < |items|
    ensures Exprs(items)[i] == items[i].expr
  {
    if i > 0 {
      ExprsAt(items[1..], i - 1);
    }
  }

  /** The sets of the totals of an axis are the prefixes that end before a totals item. */
  ghost predicate EndsBeforeTotals(axis: seq<Item>, before: seq<Expr>, s: seq<Expr>) {
    exists p: nat :: p < |axis| && axis[p].totals && s == before + Exprs(axis)[..p]
  }

  lemma {:induction false} LongerPrefix(axis: seq<Item>, before: seq<Expr>, p: nat)
    requires p < |axis|
    ensures before + [axis[0].expr] + Exprs(axis[1..])[..p] == before + Exprs(axis)[..p + 1]
  {
  }

  lemma {:induction false} EndsBeforeTotalsStep(axis: seq<Item>, before: seq<Expr>, s: seq<Expr>)
    requires axis != []
    ensures EndsBeforeTotals(axis, before, s) <==>
              (axis[0].totals && s == before) || EndsBeforeTotals(axis[1..], before + [axis[0].expr], s)
  {
    var longer := before + [axis[0].expr];
    assert before + Exprs(axis)[..0] == before;
    hide Exprs;
    if EndsBeforeTotals(axis, before, s) {
      var p: nat :| p < |axis| && axis[p].totals && s == before + Exprs(axis)[..p];
      if p > 0 {
        LongerPrefix(axis, before, p - 1);
        assert axis[1..][p - 1].totals && s == longer + Exprs(axis[1..])[..p - 1];
      }
    }
    if EndsBeforeTotals(axis[1..], longer, s) {
      var p: nat :| p < |axis[1..]| && axis[1..][p].totals && s == longer + Exprs(axis[1..])[..p];
      LongerPrefix(axis, before, p);
      assert axis[p + 1].totals && s == before + Exprs(axis)[..p + 1];
    }
  }

  lemma {:induction false} TotalsSetsArePrefixes(axis: seq<Item>, before: seq<Expr>, s: seq<Expr>)
    ensures s in TotalsSets(axis, before) <==> EndsBeforeTotals(axis, before, s)
    decreases |axis|
  {
    if axis != [] {
      TotalsSetsArePrefixes(axis[1..], before + [axis[0].expr], s);
      EndsBeforeTotalsStep(axis, before, s);
    }
  }

  lemma {:induction false} TotalsSetsShape(axis: seq<Item>, before: seq<Expr>)
    ensures var sets := TotalsSets(axis, before);
      && (sets != [] <==> HasTotals(axis))
      && (sets != [] ==> |sets[|sets| - 1]| < |before| + |axis|)
    decreases |axis|
  {
    if axis != [] {
      TotalsSetsShape(axis[1..], before + [axis[0].expr]);
      assert axis[0] in axis;
    }
  }

  /** An axis with items has exactly the prefixes at its levels for grouping sets. */
  lemma {:induction false} AxisSetsAreLevels(axis: seq<Item>, s: seq<Expr>)
    requires axis != []
    ensures s in AxisSets(Exprs(axis), TotalsSets(axis, [])) <==>
              exists p: nat :: Level(axis, p) && s == Exprs(axis)[..p]
  {
    var totals := TotalsSets(axis, []);
    TotalsSetsArePrefixes(axis, [], s);
    TotalsSetsShape(axis, []);
    hide TotalsSets, Exprs;
    assert Exprs(axis)[..|axis|] == Exprs(axis) && Level(axis, |axis|);
    if p: nat :| p < |axis| && axis[p].totals && s == [] + Exprs(axis)[..p] {
      assert Level(axis, p) && s == Exprs(axis)[..p];
    }
    if p: nat :| Level(axis, p) && s == Exprs(axis)[..p] && p < |axis| {
      assert axis[p].totals && s == [] + Exprs(axis)[..p];
    }
    assert |Exprs(axis)| == |axis|;
    if s in totals + [Exprs(axis)] {
      assert s in totals || s == Exprs(axis);
    }
  }

  lemma {:induction false} JoinedMembers(a: seq<Expr>, others: seq<seq<Expr>>, s: seq<Expr>)
    ensures s in Joined(a, others) <==> exists b :: b in others && s == a + b
  {
    if others != [] {
      JoinedMembers(a, others[1..], s);
      if b :| b in others && s == a + b && b != others[0] {
        assert b in others[1..];
      }
      assert others[0] in others;
    }
  }

  lemma {:induction false} CrossMembers(a: seq<seq<Expr>>, b: seq<seq<Expr>>, s: seq<Expr>)
    ensures s in Cross(a, b) <==> exists x, y :: x in a && y in b && s == x + y
  {
    if a != [] {
      CrossMembers(a[1..], b, s);
      JoinedMembers(a[0], b, s);
      if x, y :| x in a && y in b && s == x + y && x != a[0] {
        assert x in a[1..];
      }
      assert a[0] in a;
    }
  }

  /** The query groups by every level of the rows axis with every level of the columns axis, and by nothing else. */
  lemma {:induction false} SetsAreAllLevels(rows: seq<Item>, columns: seq<Item>, cells: seq<Item>, s: seq<Expr>)
    requires IsAxis(rows, Rows) && IsAxis(columns, Columns) && IsAxis(cells, Cells)
    requires HasTotals(rows) || HasTotals(columns)
    ensures Clause(rows + columns + cells).Sets?
    ensures s in Clause(rows + columns + cells).sets <==>
              exists p: nat, q: nat ::
                Level(rows, p) && Level(columns, q) && s == Exprs(rows)[..p] + Exprs(columns)[..q]
  {
    ClauseOfAxes(rows, columns, cells);
    var r, c := AxisSets(Exprs(rows), TotalsSets(rows, [])), AxisSets(Exprs(columns), TotalsSets(columns, []));
    if rows == [] {
      assert r == [] && columns != [];
      AxisSetsAreLevels(columns, s);
      assert forall q: nat :: q <= |columns| ==> Exprs(rows)[..0] + Exprs(columns)[..q] == Exprs(columns)[..q];
      assert Level(rows, 0);
    } else if columns == [] {
      assert c == [];
      AxisSetsAreLevels(rows, s);
      assert forall p: nat :: p <= |rows| ==> Exprs(rows)[..p] + Exprs(columns)[..0] == Exprs(rows)[..p];
      assert Level(columns, 0);
    } else {
      BothAxes(rows, columns, s);
    }
  }

  lemma {:induction false} BothAxes(rows: seq<Item>, columns: seq<Item>, s: seq<Expr>)
    requires rows != [] && columns != []
    ensures var r, c := AxisSets(Exprs(rows), TotalsSets(rows, [])), AxisSets(Exprs(columns), TotalsSets(columns, []));
      && r != [] && c != []
      && (s in Cross(r, c) <==>
            exists p: nat, q: nat :: Level(rows, p) && Level(columns, q) && s == Exprs(rows)[..p] + Exprs(columns)[..q])
  {
    var r, c := AxisSets(Exprs(rows), TotalsSets(rows, [])), AxisSets(Exprs(columns), TotalsSets(columns, []));
    CrossMembers(r, c, s);
    if x, y :| x in r && y in c && s == x + y {
      AxisSetsAreLevels(rows, x);
      AxisSetsAreLevels(columns, y);
      var p: nat :| Level(rows, p) && x == Exprs(rows)[..p];
      var q: nat :| Level(columns, q) && y == Exprs(columns)[..q];
      assert s == Exprs(rows)[..p] + Exprs(columns)[..q];
    }
    if p: nat, q: nat :| Level(rows, p) && Level(columns, q) && s == Exprs(rows)[..p] + Exprs(columns)[..q] {
      AxisSetsAreLevels(rows, Exprs(rows)[..p]);
      AxisSetsAreLevels(columns, Exprs(columns)[..q]);
    }
  }

  lemma {:induction false} ClauseOfAxes(rows: seq<Item>, columns: seq<Item>, cells: seq<Item>)
    requires IsAxis(rows, Rows) && IsAxis(columns, Columns) && IsAxis(cells, Cells)
    requires HasTotals(rows) || HasTotals(columns)
    ensures Clause(rows + columns + cells)
         == Sets(AllSets(AxisSets(Exprs(rows), TotalsSets(rows, [])),
                         AxisSets(Exprs(columns), TotalsSets(columns, []))),
                 TotalsExprs(rows) + TotalsExprs(columns))
  {
    AxisOf(rows, columns, cells, Rows);
    AxisOf(rows, columns, cells, Columns);
    assert TotalsExprs(rows + columns + cells) == TotalsExprs(rows) + TotalsExprs(columns) by {
      TotalsExprsConcat(rows + columns, cells);
      TotalsExprsConcat(rows, columns);
      NoTotalsInCells(cells);
    }
    TotalsSetsShape(rows, []);
    TotalsSetsShape(columns, []);
  }

  lemma {:induction false} AxisOf(rows: seq<Item>, columns: seq<Item>, cells: seq<Item>, axis: Axis)
    requires IsAxis(rows, Rows) && IsAxis(columns, Columns) && IsAxis(cells, Cells)
    ensures axis == Rows ==> OnAxis(rows + columns + cells, axis) == rows
    ensures axis == Columns ==> OnAxis(rows + columns + cells, axis) == columns
  {
    OnAxisConcat(rows + columns, cells, axis);
    OnAxisConcat(rows, columns, axis);
    OnAxisFacts(rows, axis);
    OnAxisFacts(columns, axis);
    OnAxisFacts(cells, axis);
  }

  lemma {:induction false} NoTotalsInCells(cells: seq<Item>)
    requires IsAxis(cells, Cells)
    ensures TotalsExprs(cells) == []
  {
    if cells != [] {
      assert cells[0] in cells;
      NoTotalsInCells(cells[1..]);
    }
  }

  // ---------------------------------------------------------------- what the clause says, place by place

  /** How many totals items there are before `p`. */
  function TotalsBefore(axis: seq<Item>, p: nat): nat
    requires p <= |axis|
  {
    if p == 0 then 0 else TotalsBefore(axis, p - 1) + if axis[p - 1].totals then 1 else 0
  }

  lemma {:induction false} TotalsBeforeTail(axis: seq<Item>, p: nat)
    requires 0 < p <= |axis|
    ensures TotalsBefore(axis, p) == TotalsBefore(axis[1..], p - 1) + if axis[0].totals then 1 else 0
  {
    if p > 1 {
      TotalsBeforeTail(axis, p - 1);
    }
  }

  lemma {:induction false} TotalsBeforeGrows(axis: seq<Item>, p: nat, q: nat)
    requires p <= q <= |axis|
    ensures TotalsBefore(axis, p) <= TotalsBefore(axis, q)
    ensures p < q && axis[p].totals ==> TotalsBefore(axis, p) < TotalsBefore(axis, q)
  {
    if p < q {
      TotalsBeforeGrows(axis, p, q - 1);
    }
  }

  lemma {:induction false} TotalsSetAt(axis: seq<Item>, before: seq<Expr>, p: nat)
    requires p < |axis| && axis[p].totals
    ensures TotalsBefore(axis, p) < |TotalsSets(axis, before)|
    ensures TotalsSets(axis, before)[TotalsBefore(axis, p)] == before + Exprs(axis)[..p]
    decreases p
  {
    if p > 0 {
      TotalsSetAt(axis[1..], before + [axis[0].expr], p - 1);
      TotalsBeforeTail(axis, p);
      assert before + [axis[0].expr] + Exprs(axis[1..])[..p - 1] == before + Exprs(axis)[..p];
    } else {
      assert before + Exprs(axis)[..0] == before;
    }
  }

  lemma {:induction false} TotalsSetsCount(axis: seq<Item>, before: seq<Expr>)
    ensures |TotalsSets(axis, before)| == TotalsBefore(axis, |axis|)
    decreases |axis|
  {
    if axis != [] {
      TotalsSetsCount(axis[1..], before + [axis[0].expr]);
      TotalsBeforeTail(axis, |axis|);
    }
  }

  lemma {:induction false} TotalsExprAt(axis: seq<Item>, p: nat)
    requires Uncelled(axis) && p < |axis| && axis[p].totals
    ensures TotalsBefore(axis, p) < |TotalsExprs(axis)| && TotalsExprs(axis)[TotalsBefore(axis, p)] == axis[p].expr
  {
    if p > 0 {
      TotalsExprAt(axis[1..], p - 1);
      TotalsBeforeTail(axis, p);
    }
  }

  lemma {:induction false} TotalsExprsCount(axis: seq<Item>)
    requires Uncelled(axis)
    ensures |TotalsExprs(axis)| == TotalsBefore(axis, |axis|)
  {
    if axis != [] {
      TotalsExprsCount(axis[1..]);
      TotalsBeforeTail(axis, |axis|);
    }
  }

  /** The set of a level stands after those of the totals items before it. */
  lemma {:induction false} AxisSetAt(axis: seq<Item>, p: nat)
    requires axis != [] && Level(axis, p)
    ensures var sets := AxisSets(Exprs(axis), TotalsSets(axis, []));
      |sets| == TotalsBefore(axis, |axis|) + 1 && TotalsBefore(axis, p) < |sets|
      && sets[TotalsBefore(axis, p)] == Exprs(axis)[..p]
  {
    TotalsSetsShape(axis, []);
    TotalsSetsCount(axis, []);
    assert Exprs(axis)[..|axis|] == Exprs(axis);
    if p < |axis| {
      TotalsSetAt(axis, [], p);
      assert [] + Exprs(axis)[..p] == Exprs(axis)[..p];
    }
  }

  lemma {:induction false} JoinedAt(a: seq<Expr>, others: seq<seq<Expr>>, j: nat)
    requires j < |others|
    ensures |Joined(a, others)| == |others| && Joined(a, others)[j] == a + others[j]
  {
    if j > 0 {
      JoinedAt(a, others[1..], j - 1);
    } else if |others| > 1 {
      JoinedAt(a, others[1..], 0);
    }
  }

  /** The place of column `j` of row `i` in a table of `width` columns. */
  function Place(i: nat, width: nat, j: nat): nat {
    i * width + j
  }

  lemma {:induction false} PlaceInRow(i: nat, width: nat, j: nat)
    ensures Place(0, width, j) == j && Place(i + 1, width, j) == width + Place(i, width, j)
    ensures Place(i, 1, 0) == i
  {
    assert (i + 1) * width == i * width + width;
  }

  lemma {:induction false} CrossLength(a: seq<seq<Expr>>, b: seq<seq<Expr>>)
    ensures |Cross(a, b)| == Place(|a|, |b|, 0)
  {
    hide Place;
    if a == [] {
      PlaceInRow(0, |b|, 0);
    } else {
      CrossLength(a[1..], b);
      PlaceInRow(|a| - 1, |b|, 0);
      if b != [] {
        JoinedAt(a[0], b, 0);
      }
    }
  }

  lemma {:induction false} CrossAt(a: seq<seq<Expr>>, b: seq<seq<Expr>>, i: nat, j: nat)
    requires i < |a| && j < |b|
    ensures Place(i, |b|, j) < |Cross(a, b)| && Cross(a, b)[Place(i, |b|, j)] == a[i] + b[j]
  {
    hide Place;
    JoinedAt(a[0], b, j);
    if i == 0 {
      PlaceInRow(0, |b|, j);
    } else {
      CrossAt(a[1..], b, i - 1, j);
      PlaceInRow(i - 1, |b|, j);
    }
  }

  /** No item is on the cells axis. */
  predicate Uncelled(axis: seq<Item>) {
    forall k :: 0 <= k < |axis| ==> axis[k].axis != Cells
  }

  /** Without totals: the expressions of all items, rows before columns; no clause if there are none. */
  ghost predicate GroupsPlainly(rows: seq<Item>, columns: seq<Item>, groupBy: GroupBy) {
    && (groupBy == Nothing <==> rows == [] && columns == [])
    && (groupBy.Plain? <==> rows != [] || columns != [])
    && (groupBy.Plain? ==>
          && |groupBy.exprs| == |rows| + |columns|
          && (forall k :: 0 <= k < |rows| ==> groupBy.exprs[k] == rows[k].expr)
          && (forall k :: 0 <= k < |columns| ==> groupBy.exprs[|rows| + k] == columns[k].expr))
  }

  /** With totals: one set for each level of rows with each level of columns, the latter running faster, each with the
    * expressions of the items before the levels; they are as many as a table of all levels has places. */
  ghost predicate SetsOfLevels(rows: seq<Item>, columns: seq<Item>, sets: seq<seq<Expr>>) {
    && |sets| == Place(TotalsBefore(rows, |rows|) + 1, TotalsBefore(columns, |columns|) + 1, 0)
    && forall p: nat, q: nat :: Level(rows, p) && Level(columns, q) ==> HasLevelSet(rows, columns, sets, p, q)
  }

  /** The set of two levels stands after those of smaller ones: as many as there are totals items before them. */
  ghost predicate HasLevelSet(rows: seq<Item>, columns: seq<Item>, sets: seq<seq<Expr>>, p: nat, q: nat)
    requires p <= |rows| && q <= |columns|
  {
    IsLevelSet(rows, p, columns, q, sets,
               Place(TotalsBefore(rows, p), TotalsBefore(columns, |columns|) + 1, TotalsBefore(columns, q)))
  }

  /** The ids are over the expressions of the totals items, rows before columns. */
  ghost predicate IdsOfTotals(rows: seq<Item>, columns: seq<Item>, idExprs: seq<Expr>) {
    var r, c := TotalsBefore(rows, |rows|), TotalsBefore(columns, |columns|);
    && |idExprs| == r + c
    && (forall p: nat :: p < |rows| && rows[p].totals ==> HasAt(idExprs, TotalsBefore(rows, p), rows[p].expr))
    && (forall q: nat :: q < |columns| && columns[q].totals ==>
          HasAt(idExprs, r + TotalsBefore(columns, q), columns[q].expr))
  }

  ghost predicate GroupsByLevels(rows: seq<Item>, columns: seq<Item>, groupBy: GroupBy) {
    groupBy.Sets? && SetsOfLevels(rows, columns, groupBy.sets) && IdsOfTotals(rows, columns, groupBy.idExprs)
  }

  predicate HasAt(exprs: seq<Expr>, n: nat, e: Expr) {
    n < |exprs| && exprs[n] == e
  }

  /** The `n`-th set holds the expressions of the first `p` rows items and then of the first `q` columns items. */
  ghost predicate IsLevelSet(rows: seq<Item>, p: nat, columns: seq<Item>, q: nat, sets: seq<seq<Expr>>, n: nat)
    requires p <= |rows| && q <= |columns|
  {
    && n < |sets| && |sets[n]| == p + q
    && (forall k :: 0 <= k < p ==> sets[n][k] == rows[k].expr)
    && (forall k :: 0 <= k < q ==> sets[n][p + k] == columns[k].expr)
  }

  lemma {:induction false} ClauseWithoutTotals(rows: seq<Item>, columns: seq<Item>, cells: seq<Item>)
    requires IsAxis(rows, Rows) && IsAxis(columns, Columns) && IsAxis(cells, Cells)
    requires !HasTotals(rows) && !HasTotals(columns)
    ensures GroupsPlainly(rows, columns, Clause(rows + columns + cells))
  {
    AxisOf(rows, columns, cells, Rows);
    AxisOf(rows, columns, cells, Columns);
    TotalsSetsShape(rows, []);
    TotalsSetsShape(columns, []);
    forall k: nat | k < |rows| ensures Exprs(rows)[k] == rows[k].expr { ExprsAt(rows, k); }
    forall k: nat | k < |columns| ensures Exprs(columns)[k] == columns[k].expr { ExprsAt(columns, k); }
  }

  lemma {:induction false} PrefixesSideBySide(rows: seq<Item>, p: nat, columns: seq<Item>, q: nat,
                                              sets: seq<seq<Expr>>, n: nat)
    requires p <= |rows| && q <= |columns| && n < |sets| && sets[n] == Exprs(rows)[..p] + Exprs(columns)[..q]
    ensures IsLevelSet(rows, p, columns, q, sets, n)
  {
    forall k: nat | k < p ensures Exprs(rows)[k] == rows[k].expr { ExprsAt(rows, k); }
    forall k: nat | k < q ensures Exprs(columns)[k] == columns[k].expr { ExprsAt(columns, k); }
  }

  /** The set of two levels, in the product or in the sets of the one axis that has any. */
  lemma {:induction false} SetAtPlace(ofRows: seq<seq<Expr>>, ofColumns: seq<seq<Expr>>, i: nat, j: nat)
    requires ofRows != [] || ofColumns != []
    requires i < |ofRows| || (ofRows == [] && i == 0)
    requires j < |ofColumns| || (ofColumns == [] && j == 0)
    ensures var sets := AllSets(ofRows, ofColumns);
            var r, c := if ofRows == [] then 1 else |ofRows|, if ofColumns == [] then 1 else |ofColumns|;
      && |sets| == Place(r, c, 0) && Place(i, c, j) < |sets|
      && sets[Place(i, c, j)] == (if ofRows == [] then [] else ofRows[i])
                                 + (if ofColumns == [] then [] else ofColumns[j])
  {
    hide Place, Cross;
    if ofRows == [] {
      PlaceInRow(0, |ofColumns|, j);
      PlaceInRow(0, |ofColumns|, 0);
    } else if ofColumns == [] {
      PlaceInRow(i, 1, 0);
      PlaceInRow(|ofRows|, 1, 0);
    } else {
      CrossAt(ofRows, ofColumns, i, j);
      CrossLength(ofRows, ofColumns);
    }
  }

  /** The place of a level among the sets of its axis, if it has any. */
  lemma {:induction false} LevelPlace(axis: seq<Item>, p: nat)
    requires Level(axis, p)
    ensures var sets, n := AxisSets(Exprs(axis), TotalsSets(axis, [])), TotalsBefore(axis, p);
      && (sets == [] <==> axis == [])
      && TotalsBefore(axis, |axis|) + 1 == (if sets == [] then 1 else |sets|)
      && (n < |sets| || (sets == [] && n == 0))
      && Exprs(axis)[..p] == if sets == [] then [] else sets[n]
  {
    if axis != [] {
      AxisSetAt(axis, p);
    }
  }

  lemma {:induction false} LevelSetAt(rows: seq<Item>, columns: seq<Item>, p: nat, q: nat)
    requires rows != [] || columns != []
    requires Level(rows, p) && Level(columns, q)
    ensures var sets := AllSets(AxisSets(Exprs(rows), TotalsSets(rows, [])),
                                AxisSets(Exprs(columns), TotalsSets(columns, [])));
      && |sets| == Place(TotalsBefore(rows, |rows|) + 1, TotalsBefore(columns, |columns|) + 1, 0)
      && HasLevelSet(rows, columns, sets, p, q)
  {
    hide Place, IsLevelSet, AxisSets, TotalsSets, TotalsBefore, AllSets, Exprs;
    var ofRows, ofColumns := AxisSets(Exprs(rows), TotalsSets(rows, [])),
                             AxisSets(Exprs(columns), TotalsSets(columns, []));
    LevelPlace(rows, p);
    LevelPlace(columns, q);
    SetAtPlace(ofRows, ofColumns, TotalsBefore(rows, p), TotalsBefore(columns, q));
    PrefixesSideBySide(rows, p, columns, q, AllSets(ofRows, ofColumns),
                       Place(TotalsBefore(rows, p), TotalsBefore(columns, |columns|) + 1, TotalsBefore(columns, q)));
  }

  lemma {:induction false} TotalsAreTheIds(rows: seq<Item>, columns: seq<Item>)
    requires IsAxis(rows, Rows) && IsAxis(columns, Columns)
    ensures IdsOfTotals(rows, columns, TotalsExprs(rows) + TotalsExprs(columns))
  {
    assert Uncelled(rows) && Uncelled(columns);
    hide TotalsExprs, TotalsBefore;
    TotalsExprsCount(rows);
    TotalsExprsCount(columns);
    var idExprs := TotalsExprs(rows) + TotalsExprs(columns);
    forall p: nat | p < |rows| && rows[p].totals
      ensures HasAt(idExprs, TotalsBefore(rows, p), rows[p].expr)
    {
      TotalsExprAt(rows, p);
    }
    forall q: nat | q < |columns| && columns[q].totals
      ensures HasAt(idExprs, TotalsBefore(rows, |rows|) + TotalsBefore(columns, q), columns[q].expr)
    {
      TotalsExprAt(columns, q);
    }
  }

  lemma {:induction false} LevelsAreTheSets(rows: seq<Item>, columns: seq<Item>)
    requires rows != [] || columns != []
    ensures SetsOfLevels(rows, columns, AllSets(AxisSets(Exprs(rows), TotalsSets(rows, [])),
                                                AxisSets(Exprs(columns), TotalsSets(columns, []))))
  {
    var sets := AllSets(AxisSets(Exprs(rows), TotalsSets(rows, [])), AxisSets(Exprs(columns), TotalsSets(columns, [])));
    assert Level(rows, |rows|) && Level(columns, |columns|);
    hide AllSets, AxisSets, TotalsSets, HasLevelSet, Place, Exprs, TotalsBefore;
    forall p: nat, q: nat | Level(rows, p) && Level(columns, q)
      ensures HasLevelSet(rows, columns, sets, p, q)
    {
      LevelSetAt(rows, columns, p, q);
    }
    LevelSetAt(rows, columns, |rows|, |columns|);
  }

  lemma {:induction false} ClauseWithTotals(rows: seq<Item>, columns: seq<Item>, cells: seq<Item>)
    requires IsAxis(rows, Rows) && IsAxis(columns, Columns) && IsAxis(cells, Cells)
    requires HasTotals(rows) || HasTotals(columns)
    ensures GroupsByLevels(rows, columns, Clause(rows + columns + cells))
  {
    hide Clause, AllSets, AxisSets, TotalsSets, TotalsExprs, Exprs, SetsOfLevels, IdsOfTotals;
    ClauseOfAxes(rows, columns, cells);
    LevelsAreTheSets(rows, columns);
    TotalsAreTheIds(rows, columns);
  }

  /** The items of the rows axis, then those of the columns axis, then those of the cells. */
  predicate InAxes(items: seq<Item>, rows: seq<Item>, columns: seq<Item>, cells: seq<Item>) {
    IsAxis(rows, Rows) && IsAxis(columns, Columns) && IsAxis(cells, Cells) && items == rows + columns + cells
  }

  ghost predicate GroupsAsAsked(rows: seq<Item>, columns: seq<Item>, groupBy: GroupBy) {
    if HasTotals(rows) || HasTotals(columns) then GroupsByLevels(rows, columns, groupBy)
    else GroupsPlainly(rows, columns, groupBy)
  }

  lemma {:induction false} ClauseIsAsAsked(items: seq<Item>)
    ensures forall rows, columns, cells :: InAxes(items, rows, columns, cells) ==>
              GroupsAsAsked(rows, columns, Clause(items))
  {
    hide Clause, GroupsByLevels, GroupsPlainly, HasTotals;
    forall rows, columns, cells | InAxes(items, rows, columns, cells)
      ensures GroupsAsAsked(rows, columns, Clause(items))
    {
      if HasTotals(rows) || HasTotals(columns) {
        ClauseWithTotals(rows, columns, cells);
      } else {
        ClauseWithoutTotals(rows, columns, cells);
      }
    }
  }
}
