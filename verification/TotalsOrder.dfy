/** The ORDER BY that src/DataSet/SqlQueryGenerator.js generates for an axis, and what it does to totals rows. */
module TotalsOrder {
  import opened GroupingSets
  import opened GroupingIds
  import opened CellJoin

  /** The terms once the first `done` placeholders are replaced: totals sort on their grouping bit. */
  function Mixed(items: seq<Item>, done: nat, totalsFirst: bool): seq<Term> {
    if items == [] then []
    else if items[0].axis == Cells then Mixed(items[1..], done, totalsFirst)
    else if !items[0].totals then [KeyOf(items[0])] + Mixed(items[1..], done, totalsFirst)
    else if done == 0 then [Placeholder(items[0].expr), KeyOf(items[0])] + Mixed(items[1..], 0, totalsFirst)
    else [Bit(|TotalsExprs(items[1..])|, totalsFirst), KeyOf(items[0])] + Mixed(items[1..], done - 1, totalsFirst)
  }

  function IndexOf(terms: seq<Term>, term: Term): (k: int)
    ensures -1 <= k < |terms|
  {
    if terms == [] then -1
    else if terms[0] == term then 0
    else
      var k := IndexOf(terms[1..], term);
      if k < 0 then -1 else k + 1
  }

  method FindTerm(terms: seq<Term>, term: Term) returns (k: int)
    ensures k == IndexOf(terms, term)
  {
    for i := 0 to |terms|
      invariant IndexOf(terms, term) == if IndexOf(terms[i..], term) < 0 then -1 else i + IndexOf(terms[i..], term)
    {
      assert terms[i..][1..] == terms[i + 1..];
      if terms[i] == term {
        return i;
      }
    }
    return -1;
  }

  lemma {:induction false} MixedStart(items: seq<Item>, totalsFirst: bool)
    ensures Mixed(items, 0, totalsFirst) == FirstTerms(items)
  {
    if items != [] {
      MixedStart(items[1..], totalsFirst);
    }
  }

  /** Replacing the first placeholder for the next totals expression goes one totals item on. */
  predicate GoesOn(items: seq<Item>, done: nat, totalsFirst: bool) {
    done < |TotalsExprs(items)| &&
    var terms := Mixed(items, done, totalsFirst);
    var k := IndexOf(terms, Placeholder(TotalsExprs(items)[done]));
    k >= 0 && terms[k := Bit(|TotalsExprs(items)| - done - 1, totalsFirst)] == Mixed(items, done + 1, totalsFirst)
  }

  /** The first placeholder left is that of the next totals item, even if expressions repeat. */
  lemma {:induction false} MixedStep(items: seq<Item>, done: nat, totalsFirst: bool)
    requires done < |TotalsExprs(items)|
    ensures GoesOn(items, done, totalsFirst)
  {
    var rest := items[1..];
    if items[0].axis == Cells {
      MixedStep(rest, done, totalsFirst);
    } else if items[0].totals && done == 0 {
      FirstPlaceholder(items, totalsFirst);
    } else {
      var left := if items[0].totals then done - 1 else done;
      MixedStep(rest, left, totalsFirst);
      LaterGoesOn(items, done, left, totalsFirst);
    }
  }

  lemma {:induction false} LaterGoesOn(items: seq<Item>, done: nat, left: nat, totalsFirst: bool)
    requires items != [] && items[0].axis != Cells && done == left + if items[0].totals then 1 else 0
    requires GoesOn(items[1..], left, totalsFirst)
    ensures GoesOn(items, done, totalsFirst)
  {
    hide Mixed, TotalsExprs, IndexOf, FirstOf;
    var rest := items[1..];
    var first := FirstOf(items, totalsFirst);
    TotalsExprsTail(items, left, done);
    MixedLater(items, done, totalsFirst);
    MixedLater(items, done + 1, totalsFirst);
    ReplaceLater(first, Mixed(rest, left, totalsFirst), Placeholder(TotalsExprs(rest)[left]),
                 Bit(|TotalsExprs(rest)| - left - 1, totalsFirst));
  }

  lemma {:induction false} TotalsExprsTail(items: seq<Item>, left: nat, done: nat)
    requires items != [] && items[0].axis != Cells && done == left + if items[0].totals then 1 else 0
    requires left < |TotalsExprs(items[1..])|
    ensures |TotalsExprs(items)| - done == |TotalsExprs(items[1..])| - left
    ensures TotalsExprs(items)[done] == TotalsExprs(items[1..])[left]
  {
  }

  /** The terms of the first item, once its placeholder is replaced. */
  function FirstOf(items: seq<Item>, totalsFirst: bool): (first: seq<Term>)
    requires items != []
    ensures forall term :: term in first ==> !term.Placeholder?
  {
    if items[0].totals then [Bit(|TotalsExprs(items[1..])|, totalsFirst), KeyOf(items[0])] else [KeyOf(items[0])]
  }

  lemma {:induction false} MixedLater(items: seq<Item>, done: nat, totalsFirst: bool)
    requires items != [] && items[0].axis != Cells && (items[0].totals ==> done > 0)
    ensures Mixed(items, done, totalsFirst) == FirstOf(items, totalsFirst)
              + Mixed(items[1..], if items[0].totals then done - 1 else done, totalsFirst)
  {
  }

  lemma {:induction false} FirstPlaceholder(items: seq<Item>, totalsFirst: bool)
    requires items != [] && items[0].axis != Cells && items[0].totals
    ensures var terms := Mixed(items, 0, totalsFirst);
      && IndexOf(terms, Placeholder(TotalsExprs(items)[0])) == 0
      && terms[0 := Bit(|TotalsExprs(items)| - 1, totalsFirst)] == Mixed(items, 1, totalsFirst)
  {
  }

  lemma {:induction false} ReplaceLater(first: seq<Term>, others: seq<Term>, x: Term, y: Term)
    requires x !in first && IndexOf(others, x) >= 0
    ensures IndexOf(first + others, x) == |first| + IndexOf(others, x)
    ensures (first + others)[IndexOf(first + others, x) := y] == first + others[IndexOf(others, x) := y]
  {
    if first == [] {
      assert first + others == others;
    } else {
      assert (first + others)[1..] == first[1..] + others;
      ReplaceLater(first[1..], others, x, y);
    }
  }

  /** Replace the placeholder of every totals expression, found by searching for it. */
  method ReplacePlaceholders(ghost items: seq<Item>, orderBy: seq<Term>, idExprs: seq<Expr>, totalsFirst: bool)
    returns (terms: seq<Term>)
    requires orderBy == FirstTerms(items) && idExprs == TotalsExprs(items)
    ensures terms == Mixed(items, |TotalsExprs(items)|, totalsFirst)
  {
    terms := orderBy;
    MixedStart(items, totalsFirst);
    for done := 0 to |idExprs|
      invariant terms == Mixed(items, done, totalsFirst)
    {
      MixedStep(items, done, totalsFirst);
      var k := FindTerm(terms, Placeholder(idExprs[done]));
      terms := terms[k := Bit(|idExprs| - done - 1, totalsFirst)];
    }
  }

  method GenerateOrderBy(items: seq<Item>, totalsFirst: bool) returns (terms: seq<Term>)
    ensures terms == Mixed(items, |TotalsExprs(items)|, totalsFirst)
    ensures Uncelled(items) ==> SortsAsAsked(items, totalsFirst, terms)
  {
    if Uncelled(items) {
      GeneratedTermsSort(items, totalsFirst);
    }
    var rowsBy, rowsSets, columnsBy, columnsSets, idExprs, orderBy := CollectItems(items);
    terms := ReplacePlaceholders(items, orderBy, idExprs, totalsFirst);
  }

  // ---------------------------------------------------------------- the terms, item by item

  function ItemTerms(axis: seq<Item>, i: nat, totalsFirst: bool): seq<Term>
    requires i < |axis|
  {
    if axis[i].totals then [Bit(TotalsFrom(axis, i + 1), totalsFirst), KeyOf(axis[i])] else [KeyOf(axis[i])]
  }

  function TermsFrom(axis: seq<Item>, i: nat, totalsFirst: bool): seq<Term>
    requires i <= |axis|
    decreases |axis| - i
  {
    if i == |axis| then [] else ItemTerms(axis, i, totalsFirst) + TermsFrom(axis, i + 1, totalsFirst)
  }

  function TermsTo(axis: seq<Item>, q: nat, totalsFirst: bool): seq<Term>
    requires q <= |axis|
  {
    if q == 0 then [] else TermsTo(axis, q - 1, totalsFirst) + ItemTerms(axis, q - 1, totalsFirst)
  }

  lemma {:induction false} TermsFromTail(axis: seq<Item>, i: nat, totalsFirst: bool)
    requires 0 < i <= |axis|
    ensures TermsFrom(axis, i, totalsFirst) == TermsFrom(axis[1..], i - 1, totalsFirst)
    decreases |axis| - i
  {
    if i < |axis| {
      TermsFromTail(axis, i + 1, totalsFirst);
      TotalsFromTail(axis, i + 1);
    }
  }

  lemma {:induction false} GeneratedTerms(axis: seq<Item>, totalsFirst: bool)
    requires Uncelled(axis)
    ensures Mixed(axis, |TotalsExprs(axis)|, totalsFirst) == TermsFrom(axis, 0, totalsFirst)
  {
    if axis != [] {
      GeneratedTerms(axis[1..], totalsFirst);
      TermsFromTail(axis, 1, totalsFirst);
      TotalsCount(axis[1..]);
      TotalsFromTail(axis, 1);
    }
  }

  lemma {:induction false} TermsSplit(axis: seq<Item>, q: nat, totalsFirst: bool)
    requires q <= |axis|
    ensures TermsFrom(axis, 0, totalsFirst) == TermsTo(axis, q, totalsFirst) + TermsFrom(axis, q, totalsFirst)
  {
    if q > 0 {
      TermsSplit(axis, q - 1, totalsFirst);
    }
  }

  // ---------------------------------------------------------------- sorting

  /** Does a sort on this term put `a` strictly before `b`? */
  predicate Before(axis: seq<Item>, term: Term, a: Row, b: Row) {
    match term
    case Placeholder(_) => false
    case Bit(shift, descending) =>
      var x, y := BitAt(RowId(axis, a), shift), BitAt(RowId(axis, b), shift);
      if descending then x > y else x < y
    case Key(expr, descending, nullsFirst) =>
      var x, y := Cell(a, expr), Cell(b, expr);
      if x == y then false
      else if x == Null then nullsFirst
      else if y == Null then !nullsFirst
      else if descending then x.n > y.n else x.n < y.n
  }

  function RowId(axis: seq<Item>, row: Row): nat {
    GroupingId(TotalsExprs(axis), row.grouping)
  }

  predicate LexBefore(axis: seq<Item>, terms: seq<Term>, a: Row, b: Row) {
    terms != []
    && (Before(axis, terms[0], a, b) || (!Before(axis, terms[0], b, a) && LexBefore(axis, terms[1..], a, b)))
  }

  /** No row comes after one that it sorts before. */
  predicate Sorted(axis: seq<Item>, terms: seq<Term>, result: seq<Row>) {
    forall i, j :: 0 <= i < j < |result| ==> !LexBefore(axis, terms, result[j], result[i])
  }

  predicate Tied(axis: seq<Item>, terms: seq<Term>, a: Row, b: Row) {
    forall term :: term in terms ==> !Before(axis, term, a, b) && !Before(axis, term, b, a)
  }

  /** Rows between two tied ones are tied with them. */
  lemma {:induction false} TiedBetween(axis: seq<Item>, first: seq<Term>, others: seq<Term>, a: Row, b: Row, c: Row)
    requires !LexBefore(axis, first + others, b, a) && !LexBefore(axis, first + others, c, b)
    requires Tied(axis, first, a, c) && forall term :: term in first ==> !term.Placeholder?
    ensures Tied(axis, first, a, b)
  {
    if first != [] {
      assert (first + others)[1..] == first[1..] + others;
      assert !Before(axis, first[0], a, c) && !Before(axis, first[0], c, a);
      NoneBetween(axis, first[0], a, b, c);
      TiedBetween(axis, first[1..], others, a, b, c);
    }
  }

  lemma {:induction false} NoneBetween(axis: seq<Item>, term: Term, a: Row, b: Row, c: Row)
    requires !term.Placeholder?
    requires !Before(axis, term, a, c) && !Before(axis, term, c, a)
    requires !Before(axis, term, b, a) && !Before(axis, term, c, b)
    ensures !Before(axis, term, a, b) && !Before(axis, term, b, c)
  {
  }

  lemma {:induction false} TiedThenBefore(axis: seq<Item>, first: seq<Term>, others: seq<Term>, a: Row, b: Row)
    requires Tied(axis, first, a, b) && others != [] && Before(axis, others[0], a, b)
    ensures LexBefore(axis, first + others, a, b)
  {
    if first == [] {
      assert first + others == others;
    } else {
      assert (first + others)[1..] == first[1..] + others;
      assert !Before(axis, first[0], a, b) && !Before(axis, first[0], b, a);
      TiedThenBefore(axis, first[1..], others, a, b);
    }
  }

  // ---------------------------------------------------------------- groups

  /** A row of the axis query: its grouping set is that of one of the levels. */
  predicate AxisRow(axis: seq<Item>, row: Row) {
    Level(axis, |row.grouping|) && row.grouping == Exprs(axis)[..|row.grouping|]
  }

  /** Both rows belong to the same group on the first `q` items, and neither rolls any of those up. */
  predicate SameGroup(axis: seq<Item>, q: nat, a: Row, b: Row)
    requires q <= |axis|
  {
    |a.grouping| >= q && |b.grouping| >= q && forall k :: 0 <= k < q ==> Cell(a, axis[k].expr) == Cell(b, axis[k].expr)
  }

  /** A totals item's bit is set in the rows that roll it up. */
  lemma {:induction false} TotalsBit(axis: seq<Item>, i: nat, row: Row)
    requires Uncelled(axis) && TotalsAreNew(axis) && AxisRow(axis, row) && i < |axis| && axis[i].totals
    ensures BitAt(RowId(axis, row), TotalsFrom(axis, i + 1)) == if i < |row.grouping| then 0 else 1
  {
    var p := |row.grouping|;
    LevelIdIsOnes(axis, p);
    OnesBits(TotalsFrom(axis, p), TotalsFrom(axis, i + 1));
    if i < p {
      TotalsFromShrinks(axis, i + 1, p);
    } else {
      TotalsFromShrinks(axis, p, i);
    }
  }

  lemma {:induction false} TotalsFromShrinks(axis: seq<Item>, p: nat, q: nat)
    requires p <= q <= |axis|
    ensures TotalsFrom(axis, p) >= TotalsFrom(axis, q)
    decreases q - p
  {
    if p < q {
      TotalsFromShrinks(axis, p + 1, q);
    }
  }

  /** Sorting equal on the terms of the first `q` items means being of one group of that depth. */
  lemma {:induction false} TiedIffSameGroup(axis: seq<Item>, q: nat, totalsFirst: bool, a: Row, b: Row)
    requires Uncelled(axis) && TotalsAreNew(axis) && AxisRow(axis, a) && AxisRow(axis, b)
    requires q <= |axis| && |a.grouping| >= q
    ensures Tied(axis, TermsTo(axis, q, totalsFirst), a, b) <==> SameGroup(axis, q, a, b)
    ensures forall term :: term in TermsTo(axis, q, totalsFirst) ==> !term.Placeholder?
  {
    if q > 0 {
      TiedIffSameGroup(axis, q - 1, totalsFirst, a, b);
      TiedConcat(axis, TermsTo(axis, q - 1, totalsFirst), ItemTerms(axis, q - 1, totalsFirst), a, b);
      TiedOnItem(axis, q - 1, totalsFirst, a, b);
    }
  }

  lemma {:induction false} TiedConcat(axis: seq<Item>, first: seq<Term>, others: seq<Term>, a: Row, b: Row)
    ensures Tied(axis, first + others, a, b) <==> Tied(axis, first, a, b) && Tied(axis, others, a, b)
  {
    if Tied(axis, first + others, a, b) {
      forall term | term in first || term in others
        ensures !Before(axis, term, a, b) && !Before(axis, term, b, a)
      {
        assert term in first + others;
      }
    }
  }

  lemma {:induction false} TiedOnItem(axis: seq<Item>, i: nat, totalsFirst: bool, a: Row, b: Row)
    requires Uncelled(axis) && TotalsAreNew(axis) && AxisRow(axis, a) && AxisRow(axis, b)
    requires i < |axis| && i < |a.grouping|
    ensures |b.grouping| >= i ==>
              (Tied(axis, ItemTerms(axis, i, totalsFirst), a, b) <==>
                 |b.grouping| > i && Cell(a, axis[i].expr) == Cell(b, axis[i].expr))
  {
    var terms := ItemTerms(axis, i, totalsFirst);
    if |b.grouping| >= i {
      if axis[i].totals {
        TotalsBit(axis, i, a);
        TotalsBit(axis, i, b);
        assert terms[0] in terms && terms[1] in terms;
      } else {
        assert |b.grouping| > i;
        assert terms[0] in terms;
      }
    }
  }

  /** However deep the group, its rows are contiguous in the sorted result. */
  lemma {:induction false} GroupsAreContiguous(axis: seq<Item>, totalsFirst: bool, result: seq<Row>, q: nat, i: nat,
                                               j: nat, k: nat)
    requires Uncelled(axis) && TotalsAreNew(axis) && q <= |axis|
    requires forall row :: row in result ==> AxisRow(axis, row)
    requires Sorted(axis, Mixed(axis, |TotalsExprs(axis)|, totalsFirst), result)
    requires i < j < k < |result| && SameGroup(axis, q, result[i], result[k])
    ensures SameGroup(axis, q, result[i], result[j])
  {
    var a, b, c := result[i], result[j], result[k];
    assert AxisRow(axis, a) && AxisRow(axis, b) && AxisRow(axis, c);
    GeneratedTerms(axis, totalsFirst);
    TermsSplit(axis, q, totalsFirst);
    TiedIffSameGroup(axis, q, totalsFirst, a, c);
    TiedBetween(axis, TermsTo(axis, q, totalsFirst), TermsFrom(axis, q, totalsFirst), a, b, c);
    TiedIffSameGroup(axis, q, totalsFirst, a, b);
  }

  /** The totals row of a group stands after all its details, or before them: at every level at once. */
  lemma {:induction false} TotalsStandAside(axis: seq<Item>, totalsFirst: bool, result: seq<Row>, q: nat, total: nat,
                                            detail: nat)
    requires Uncelled(axis) && TotalsAreNew(axis) && q < |axis| && axis[q].totals
    requires forall row :: row in result ==> AxisRow(axis, row)
    requires Sorted(axis, Mixed(axis, |TotalsExprs(axis)|, totalsFirst), result)
    requires total < |result| && detail < |result| && SameGroup(axis, q, result[total], result[detail])
    requires |result[total].grouping| == q < |result[detail].grouping|
    ensures if totalsFirst then total < detail else detail < total
  {
    var t, d := result[total], result[detail];
    assert AxisRow(axis, t) && AxisRow(axis, d);
    GeneratedTerms(axis, totalsFirst);
    TermsSplit(axis, q, totalsFirst);
    var first, others := TermsTo(axis, q, totalsFirst), TermsFrom(axis, q, totalsFirst);
    TiedIffSameGroup(axis, q, totalsFirst, t, d);
    TotalsBit(axis, q, t);
    TotalsBit(axis, q, d);
    assert others[0] == Bit(TotalsFrom(axis, q + 1), totalsFirst);
    if totalsFirst {
      TiedThenBefore(axis, first, others, t, d);
    } else {
      TiedThenBefore(axis, first, others, d, t);
    }
    assert total != detail;
  }

  // ---------------------------------------------------------------- the directions asked for

  /** `x` may stand before `y` in a column of this item: NULLs first or last, numbers up or down. */
  predicate MayPrecede(item: Item, x: Value, y: Value) {
    && (x != Null && y != Null && x != y ==> (x.n > y.n <==> item.descending))
    && (x == Null && y != Null ==> item.nullsFirst)
    && (x != Null && y == Null ==> !item.nullsFirst)
  }

  /** Within a group the rows that do not roll the next item up are in the direction of that item. */
  ghost predicate InDirection(axis: seq<Item>, result: seq<Row>) {
    forall q, i, j ::
      0 <= q < |axis| && 0 <= i < j < |result| && SameGroup(axis, q, result[i], result[j])
      && |result[i].grouping| > q && |result[j].grouping| > q ==>
        MayPrecede(axis[q], Cell(result[i], axis[q].expr), Cell(result[j], axis[q].expr))
  }

  ghost predicate GroupsTogether(axis: seq<Item>, result: seq<Row>) {
    forall q, i, j, k ::
      0 <= q <= |axis| && 0 <= i < j < k < |result| && SameGroup(axis, q, result[i], result[k]) ==>
        SameGroup(axis, q, result[i], result[j])
  }

  ghost predicate TotalsAside(axis: seq<Item>, totalsFirst: bool, result: seq<Row>) {
    forall q, total, detail ::
      0 <= q < |axis| && axis[q].totals && 0 <= total < |result| && 0 <= detail < |result|
      && SameGroup(axis, q, result[total], result[detail])
      && |result[total].grouping| == q < |result[detail].grouping| ==>
        if totalsFirst then total < detail else detail < total
  }

  /** What the terms make of a result of the axis query. */
  ghost predicate SortsAsAsked(axis: seq<Item>, totalsFirst: bool, terms: seq<Term>) {
    forall result :: Sorted(axis, terms, result) && AxisRows(axis, result) ==>
      && InDirection(axis, result)
      && (TotalsAreNew(axis) ==> GroupsTogether(axis, result) && TotalsAside(axis, totalsFirst, result))
  }

  predicate AxisRows(axis: seq<Item>, result: seq<Row>) {
    forall row :: row in result ==> AxisRow(axis, row)
  }

  /** The bit of a totals item is not set in a row that groups by its expression. */
  lemma {:induction false} GroupedBit(axis: seq<Item>, k: nat, row: Row)
    requires Uncelled(axis) && k < |axis| && axis[k].totals && AxisRow(axis, row) && k < |row.grouping|
    ensures BitAt(RowId(axis, row), TotalsFrom(axis, k + 1)) == 0
  {
    ExprsAt(axis, k);
    assert row.grouping[k] == axis[k].expr;
    GroupingBits(TotalsExprs(axis), row.grouping, RankOf(axis, k));
  }

  lemma {:induction false} GroupTies(axis: seq<Item>, q: nat, totalsFirst: bool, a: Row, b: Row)
    requires Uncelled(axis) && AxisRow(axis, a) && AxisRow(axis, b) && q <= |axis| && SameGroup(axis, q, a, b)
    ensures Tied(axis, TermsTo(axis, q, totalsFirst), a, b)
  {
    if q > 0 {
      GroupTies(axis, q - 1, totalsFirst, a, b);
      TiedConcat(axis, TermsTo(axis, q - 1, totalsFirst), ItemTerms(axis, q - 1, totalsFirst), a, b);
      if axis[q - 1].totals {
        GroupedBit(axis, q - 1, a);
        GroupedBit(axis, q - 1, b);
      }
    }
  }

  /** The first term that tells two rows of a group apart is the key of the next item. */
  lemma {:induction false} GroupSplits(axis: seq<Item>, q: nat, totalsFirst: bool, a: Row, b: Row)
    requires Uncelled(axis) && AxisRow(axis, a) && AxisRow(axis, b) && q < |axis| && SameGroup(axis, q, a, b)
    requires |a.grouping| > q && |b.grouping| > q && Before(axis, KeyOf(axis[q]), a, b)
    ensures LexBefore(axis, Mixed(axis, |TotalsExprs(axis)|, totalsFirst), a, b)
  {
    GeneratedTerms(axis, totalsFirst);
    TermsSplit(axis, q, totalsFirst);
    GroupTies(axis, q, totalsFirst, a, b);
    var first, others := TermsTo(axis, q, totalsFirst), TermsFrom(axis, q, totalsFirst);
    if axis[q].totals {
      var bit := [Bit(TotalsFrom(axis, q + 1), totalsFirst)];
      GroupedBit(axis, q, a);
      GroupedBit(axis, q, b);
      TiedConcat(axis, first, bit, a, b);
      assert first + others == (first + bit) + others[1..];
      TiedThenBefore(axis, first + bit, others[1..], a, b);
    } else {
      TiedThenBefore(axis, first, others, a, b);
    }
  }

  lemma {:induction false} SortedInDirection(axis: seq<Item>, totalsFirst: bool, result: seq<Row>)
    requires Uncelled(axis) && AxisRows(axis, result)
    requires Sorted(axis, Mixed(axis, |TotalsExprs(axis)|, totalsFirst), result)
    ensures InDirection(axis, result)
  {
    forall q: nat, i: nat, j: nat |
      q < |axis| && i < j < |result| && SameGroup(axis, q, result[i], result[j])
      && |result[i].grouping| > q && |result[j].grouping| > q
      ensures MayPrecede(axis[q], Cell(result[i], axis[q].expr), Cell(result[j], axis[q].expr))
    {
      var a, b := result[i], result[j];
      assert AxisRow(axis, a) && AxisRow(axis, b);
      if Before(axis, KeyOf(axis[q]), b, a) {
        GroupSplits(axis, q, totalsFirst, b, a);
      }
    }
  }

  /** The generated terms sort every result as the items ask, and keep its groups together with their totals. */
  lemma {:induction false} GeneratedTermsSort(axis: seq<Item>, totalsFirst: bool)
    requires Uncelled(axis)
    ensures SortsAsAsked(axis, totalsFirst, Mixed(axis, |TotalsExprs(axis)|, totalsFirst))
  {
    var terms := Mixed(axis, |TotalsExprs(axis)|, totalsFirst);
    hide Mixed, SameGroup, Sorted;
    forall result: seq<Row> | Sorted(axis, terms, result) && AxisRows(axis, result)
      ensures InDirection(axis, result)
      ensures TotalsAreNew(axis) ==> GroupsTogether(axis, result) && TotalsAside(axis, totalsFirst, result)
    {
      SortedInDirection(axis, totalsFirst, result);
      if TotalsAreNew(axis) {
        forall q: nat, i: nat, j: nat, k: nat |
          q <= |axis| && i < j < k < |result| && SameGroup(axis, q, result[i], result[k])
          ensures SameGroup(axis, q, result[i], result[j])
        {
          GroupsAreContiguous(axis, totalsFirst, result, q, i, j, k);
        }
        forall q: nat, total: nat, detail: nat |
          q < |axis| && axis[q].totals && total < |result| && detail < |result|
          && SameGroup(axis, q, result[total], result[detail])
          && |result[total].grouping| == q < |result[detail].grouping|
          ensures if totalsFirst then total < detail else detail < total
        {
          TotalsStandAside(axis, totalsFirst, result, q, total, detail);
        }
      }
    }
  }
}
