/** How a requested cell finds its aggregated row: the join of src/DataSet/CellSet.js. */
module CellJoin {
  import opened GroupingSets
  import opened GroupingIds

  datatype Value = Null | Val(n: int)

  /** A row of the data: the value of every expression. */
  type Fact = Expr -> Value

  /** A row of the aggregated result: a group of facts that agree on a grouping set. */
  datatype Row = Row(grouping: seq<Expr>, values: map<Expr, Value>)

  function RowOf(s: seq<Expr>, fact: Fact): Row {
    Row(s, map e | e in s :: fact(e))
  }

  /** What a column shows: expressions that are rolled up show NULL, as do real NULLs. */
  function Cell(row: Row, e: Expr): Value {
    if e in row.values then row.values[e] else Null
  }

  /** GROUPING SETS: one row for every grouping set and every combination of values that occurs. */
  ghost predicate Aggregated(data: seq<Fact>, rows: seq<Item>, columns: seq<Item>, row: Row) {
    exists p: nat, q: nat, i: nat :: GroupedAt(data, rows, columns, row, p, q, i)
  }

  ghost predicate GroupedAt(data: seq<Fact>, rows: seq<Item>, columns: seq<Item>, row: Row, p: nat, q: nat, i: nat) {
    Level(rows, p) && Level(columns, q) && i < |data| && row == RowOf(SetAt(rows, columns, p, q), data[i])
  }

  /** A tuple of an axis as its tuple set holds it: shown values and grouping id. */
  datatype Tuple = Tuple(values: seq<Value>, id: nat)

  function TupleOf(axis: seq<Item>, p: nat, fact: Fact): Tuple
    requires p <= |axis|
  {
    Tuple(Shown(axis, RowOf(Exprs(axis)[..p], fact)), AxisPart(axis, p).id)
  }

  function Shown(axis: seq<Item>, row: Row): (values: seq<Value>)
    ensures |values| == |axis|
    ensures forall k :: 0 <= k < |axis| ==> values[k] == Cell(row, axis[k].expr)
  {
    if axis == [] then [] else [Cell(row, axis[0].expr)] + Shown(axis[1..], row)
  }

  /** The join condition: null-safe equality of all axis columns, and equality of the grouping ids. */
  predicate Matches(rows: seq<Item>, columns: seq<Item>, values: seq<Value>, id: int, row: Row) {
    && values == Shown(rows + columns, row)
    && id == GroupingId(TotalsExprs(rows) + TotalsExprs(columns), row.grouping)
  }

  /** The axes are well-formed: no totals item repeats an expression, and the axes share none. */
  ghost predicate WellFormed(rows: seq<Item>, columns: seq<Item>) {
    && Uncelled(rows) && Uncelled(columns) && TotalsAreNew(rows) && TotalsAreNew(columns)
    && (forall e :: e in Exprs(rows) ==> e !in Exprs(columns))
  }

  lemma {:induction false} TotalsAreOnAxis(axis: seq<Item>, e: Expr)
    requires e in TotalsExprs(axis)
    ensures e in Exprs(axis)
  {
    if axis != [] && e != axis[0].expr {
      TotalsAreOnAxis(axis[1..], e);
    }
  }

  lemma {:induction false} WellFormedIsApart(rows: seq<Item>, columns: seq<Item>)
    requires WellFormed(rows, columns)
    ensures Apart(rows, columns)
  {
    forall e | e in TotalsExprs(rows)
      ensures e !in Exprs(columns)
    {
      TotalsAreOnAxis(rows, e);
    }
    forall e | e in TotalsExprs(columns)
      ensures e !in Exprs(rows)
    {
      TotalsAreOnAxis(columns, e);
    }
  }

  /** Equal ids mean equal grouping sets. */
  lemma {:induction false} SameIdSameSet(rows: seq<Item>, columns: seq<Item>, p: nat, q: nat, u: nat, v: nat)
    requires WellFormed(rows, columns)
    requires Level(rows, p) && Level(columns, q) && Level(rows, u) && Level(columns, v)
    requires GroupingId(TotalsExprs(rows) + TotalsExprs(columns), SetAt(rows, columns, p, q))
          == GroupingId(TotalsExprs(rows) + TotalsExprs(columns), SetAt(rows, columns, u, v))
    ensures p == u && q == v
  {
    WellFormedIsApart(rows, columns);
    CrossIdsDiffer(rows, columns, p, q, u, v);
  }

  /** Every expression of a grouping set is shown by some column. */
  lemma {:induction false} SetIsShown(rows: seq<Item>, columns: seq<Item>, p: nat, q: nat, e: Expr) returns (k: nat)
    requires p <= |rows| && q <= |columns| && e in SetAt(rows, columns, p, q)
    ensures k < |rows + columns| && (rows + columns)[k].expr == e
  {
    var i :| 0 <= i < |SetAt(rows, columns, p, q)| && SetAt(rows, columns, p, q)[i] == e;
    if i < p {
      ExprsAt(rows, i);
      k := i;
    } else {
      ExprsAt(columns, i - p);
      k := |rows| + (i - p);
    }
  }

  lemma {:induction false} SameShownSameRow(rows: seq<Item>, columns: seq<Item>, p: nat, q: nat, a: Fact, b: Fact)
    requires p <= |rows| && q <= |columns|
    requires Shown(rows + columns, RowOf(SetAt(rows, columns, p, q), a))
          == Shown(rows + columns, RowOf(SetAt(rows, columns, p, q), b))
    ensures RowOf(SetAt(rows, columns, p, q), a) == RowOf(SetAt(rows, columns, p, q), b)
  {
    var s := SetAt(rows, columns, p, q);
    var x, y := RowOf(s, a), RowOf(s, b);
    forall e | e in s
      ensures x.values[e] == y.values[e]
    {
      var k := SetIsShown(rows, columns, p, q, e);
      assert Shown(rows + columns, x)[k] == Shown(rows + columns, y)[k];
    }
    assert x.values == y.values;
  }

  /** Whatever is asked for, at most one row answers, real NULLs in the data or not. */
  lemma {:induction false} AtMostOneRowAnswers(data: seq<Fact>, rows: seq<Item>, columns: seq<Item>,
                                               values: seq<Value>, id: int,
                            x: Row, y: Row)
    requires WellFormed(rows, columns)
    requires Aggregated(data, rows, columns, x) && Matches(rows, columns, values, id, x)
    requires Aggregated(data, rows, columns, y) && Matches(rows, columns, values, id, y)
    ensures x == y
  {
    var p: nat, q: nat, i: nat :| GroupedAt(data, rows, columns, x, p, q, i);
    var u: nat, v: nat, j: nat :| GroupedAt(data, rows, columns, y, u, v, j);
    SameIdSameSet(rows, columns, p, q, u, v);
    SameShownSameRow(rows, columns, p, q, data[i], data[j]);
  }

  /** A row tuple of level `p` and a column tuple of level `q` are asked for with the combined id. */
  function Asked(rows: seq<Item>, columns: seq<Item>, p: nat, a: Fact, q: nat, b: Fact): (r: (seq<Value>, int))
    requires p <= |rows| && q <= |columns|
  {
    (TupleOf(rows, p, a).values + TupleOf(columns, q, b).values,
     Combined([AxisPart(rows, p), AxisPart(columns, q)]))
  }

  lemma {:induction false} ShownConcat(a: seq<Item>, b: seq<Item>, row: Row)
    ensures Shown(a + b, row) == Shown(a, row) + Shown(b, row)
  {
    var x, y := Shown(a + b, row), Shown(a, row) + Shown(b, row);
    forall k | 0 <= k < |a| + |b|
      ensures x[k] == y[k]
    {
      assert (a + b)[k] == if k < |a| then a[k] else b[k - |a|];
    }
  }

  /** The columns of an axis show the same for a group of both axes as for the axis alone. */
  lemma {:induction false} AxisShows(axis: seq<Item>, s: seq<Expr>, p: nat, a: Fact, fact: Fact)
    requires p <= |axis| && forall e :: e in Exprs(axis) ==> (e in s <==> e in Exprs(axis)[..p])
    requires forall e :: e in Exprs(axis)[..p] ==> fact(e) == a(e)
    ensures Shown(axis, RowOf(s, fact)) == TupleOf(axis, p, a).values
  {
    var x, y := Shown(axis, RowOf(s, fact)), Shown(axis, RowOf(Exprs(axis)[..p], a));
    forall k | 0 <= k < |axis|
      ensures x[k] == y[k]
    {
      ExprsAt(axis, k);
      assert axis[k].expr in Exprs(axis);
    }
  }

  /** A fact that has the values of both tuples shows exactly what was asked for. */
  lemma {:induction false} GroupShowsTuples(rows: seq<Item>, columns: seq<Item>, p: nat, a: Fact, q: nat, b: Fact,
                                            fact: Fact)
    requires WellFormed(rows, columns) && p <= |rows| && q <= |columns|
    requires forall e :: e in Exprs(rows)[..p] ==> fact(e) == a(e)
    requires forall e :: e in Exprs(columns)[..q] ==> fact(e) == b(e)
    ensures Shown(rows + columns, RowOf(SetAt(rows, columns, p, q), fact)) == Asked(rows, columns, p, a, q, b).0
  {
    var s := SetAt(rows, columns, p, q);
    ShownConcat(rows, columns, RowOf(s, fact));
    PrefixPart(rows, columns, p, q);
    AxisShows(rows, s, p, a, fact);
    AxisShows(columns, s, q, b, fact);
  }

  lemma {:induction false} PrefixPart(rows: seq<Item>, columns: seq<Item>, p: nat, q: nat)
    requires p <= |rows| && q <= |columns| && forall e :: e in Exprs(rows) ==> e !in Exprs(columns)
    ensures forall e :: e in Exprs(rows) ==> (e in SetAt(rows, columns, p, q) <==> e in Exprs(rows)[..p])
    ensures forall e :: e in Exprs(columns) ==> (e in SetAt(rows, columns, p, q) <==> e in Exprs(columns)[..q])
  {
    assert forall e :: e in Exprs(columns)[..q] ==> e in Exprs(columns);
    assert forall e :: e in Exprs(rows)[..p] ==> e in Exprs(rows);
  }

  /** The row of the group that both tuples describe. */
  ghost predicate IsGroupOf(rows: seq<Item>, columns: seq<Item>, p: nat, a: Fact, q: nat, b: Fact, row: Row)
    requires p <= |rows| && q <= |columns|
  {
    && row.grouping == SetAt(rows, columns, p, q)
    && (forall e :: e in row.values <==> e in row.grouping)
    && (forall e :: e in Exprs(rows)[..p] ==> row.values[e] == a(e))
    && (forall e :: e in Exprs(columns)[..q] ==> row.values[e] == b(e))
  }

  /** With up to 31 totals items, the row that answers for two tuples is the row of the group they describe. */
  lemma {:induction false} AnswerIsTheGroup(data: seq<Fact>, rows: seq<Item>, columns: seq<Item>, p: nat, a: Fact,
                                            q: nat, b: Fact, row: Row)
    requires WellFormed(rows, columns) && Level(rows, p) && Level(columns, q)
    requires |TotalsExprs(rows)| + |TotalsExprs(columns)| <= 31
    requires Aggregated(data, rows, columns, row)
    ensures var asked := Asked(rows, columns, p, a, q, b);
            Matches(rows, columns, asked.0, asked.1, row) <==> IsGroupOf(rows, columns, p, a, q, b, row)
  {
    var u: nat, v: nat, i: nat :| GroupedAt(data, rows, columns, row, u, v, i);
    var asked := Asked(rows, columns, p, a, q, b);
    AskedIdIsExact(rows, columns, p, a, q, b);
    if Matches(rows, columns, asked.0, asked.1, row) {
      SameIdSameSet(rows, columns, u, v, p, q);
      MatchedValues(rows, columns, p, a, q, b, row);
    }
    if IsGroupOf(rows, columns, p, a, q, b, row) {
      SameSetSameLevels(data[i], row, SetAt(rows, columns, u, v), SetAt(rows, columns, p, q));
      GroupShowsTuples(rows, columns, p, a, q, b, data[i]);
    }
  }

  lemma {:induction false} SameSetSameLevels(fact: Fact, row: Row, s: seq<Expr>, t: seq<Expr>)
    requires row == RowOf(s, fact) && row.grouping == t
    ensures s == t && forall e :: e in t ==> row.values[e] == fact(e)
  {
  }

  lemma {:induction false} AskedIdIsExact(rows: seq<Item>, columns: seq<Item>, p: nat, a: Fact, q: nat, b: Fact)
    requires WellFormed(rows, columns) && p <= |rows| && q <= |columns|
    requires |TotalsExprs(rows)| + |TotalsExprs(columns)| <= 31
    ensures Asked(rows, columns, p, a, q, b).1
         == GroupingId(TotalsExprs(rows) + TotalsExprs(columns), SetAt(rows, columns, p, q))
  {
    WellFormedIsApart(rows, columns);
    CellIdIsGroupingId(rows, columns, p, q);
  }

  lemma {:induction false} MatchedValues(rows: seq<Item>, columns: seq<Item>, p: nat, a: Fact, q: nat, b: Fact,
                                         row: Row)
    requires p <= |rows| && q <= |columns|
    requires row.grouping == SetAt(rows, columns, p, q) && forall e :: e in row.values <==> e in row.grouping
    requires Asked(rows, columns, p, a, q, b).0 == Shown(rows + columns, row)
    ensures IsGroupOf(rows, columns, p, a, q, b, row)
  {
    ShownConcat(rows, columns, row);
    var shown := Shown(rows, row) + Shown(columns, row);
    assert TupleOf(rows, p, a).values == shown[..|rows|] == Shown(rows, row);
    assert TupleOf(columns, q, b).values == shown[|rows|..] == Shown(columns, row);
    ShownPrefix(rows, p, a, row);
    ShownPrefix(columns, q, b, row);
  }

  lemma {:induction false} ShownPrefix(axis: seq<Item>, p: nat, a: Fact, row: Row)
    requires p <= |axis| && TupleOf(axis, p, a).values == Shown(axis, row)
    requires forall e :: e in Exprs(axis)[..p] ==> e in row.values
    ensures forall e :: e in Exprs(axis)[..p] ==> row.values[e] == a(e)
  {
    forall e | e in Exprs(axis)[..p]
      ensures row.values[e] == a(e)
    {
      var k :| 0 <= k < p && Exprs(axis)[..p][k] == e;
      ExprsAt(axis, k);
      assert TupleOf(axis, p, a).values[k] == Shown(axis, row)[k];
    }
  }

  /** Without totals two facts are of one group exactly if they agree on every rows item and every columns item. */
  lemma {:induction false} OneGroupIffSameItems(rows: seq<Item>, columns: seq<Item>, groupBy: GroupBy, a: Fact, b: Fact)
    requires GroupsPlainly(rows, columns, groupBy) && groupBy.Plain?
    ensures RowOf(groupBy.exprs, a) == RowOf(groupBy.exprs, b) <==>
      forall item :: item in rows || item in columns ==> a(item.expr) == b(item.expr)
  {
    var x, y := RowOf(groupBy.exprs, a), RowOf(groupBy.exprs, b);
    if x == y {
      forall k | 0 <= k < |rows| ensures a(rows[k].expr) == b(rows[k].expr) {
        assert groupBy.exprs[k] in groupBy.exprs && x.values[groupBy.exprs[k]] == y.values[groupBy.exprs[k]];
      }
      forall k | 0 <= k < |columns| ensures a(columns[k].expr) == b(columns[k].expr) {
        var e := groupBy.exprs[|rows| + k];
        assert e in groupBy.exprs && x.values[e] == y.values[e];
      }
    }
    if forall item :: item in rows || item in columns ==> a(item.expr) == b(item.expr) {
      forall k: nat | k < |groupBy.exprs| ensures a(groupBy.exprs[k]) == b(groupBy.exprs[k]) {
        if k < |rows| {
          assert rows[k] in rows;
        } else {
          assert columns[k - |rows|] in columns && groupBy.exprs[|rows| + (k - |rows|)] == columns[k - |rows|].expr;
        }
      }
      assert x.values == y.values;
    }
  }
}
