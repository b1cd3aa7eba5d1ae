/** What filter conditions mean under the three-valued logic of SQL. */
module FilterMeaning {
  import opened FilterSql

  datatype Truth = True | False | Unknown

  function Not3(a: Truth): Truth {
    match a case True => False case False => True case Unknown => Unknown
  }

  function And3(a: Truth, b: Truth): Truth {
    if a == False || b == False then False else if a == Unknown || b == Unknown then Unknown else True
  }

  function Or3(a: Truth, b: Truth): Truth {
    Not3(And3(Not3(a), Not3(b)))
  }

  function Of(b: bool): Truth {
    if b then True else False
  }

  /** Which values a pattern matches. */
  type Patterns = (int, int) -> bool

  /** The columns of a row; NullLit is NULL. */
  type Row = Column -> Literal

  function Compare(v: Literal, l: Literal): Truth {
    if v == NullLit || l == NullLit then Unknown else Of(v == l)
  }

  function AtLeast(v: Literal, l: Literal): Truth {
    if v == NullLit || l == NullLit then Unknown else Of(v.n >= l.n)
  }

  /** IN is the disjunction of equalities. */
  function InList(v: Literal, literals: seq<Literal>): Truth {
    if literals == [] then False else Or3(Compare(v, literals[0]), InList(v, literals[1..]))
  }

  function Matched(v: Literal, p: Literal, patterns: Patterns): Truth {
    if v == NullLit || p == NullLit then Unknown else Of(patterns(v.n, p.n))
  }

  function Inside(v: Literal, low: Literal, high: Literal): Truth {
    And3(AtLeast(v, low), AtLeast(high, v))
  }

  function EvalCheck(check: Check, v: Literal, patterns: Patterns): Truth {
    match check
    case IsNull => Of(v == NullLit)
    case IsNotNull => Of(v != NullLit)
    case Equal(l) => Compare(v, l)
    case Unequal(l) => Not3(Compare(v, l))
    case OneOf(ls) => InList(v, ls)
    case NoneOf(ls) => Not3(InList(v, ls))
    case Matches(p) => Matched(v, p, patterns)
    case NoMatch(p) => Not3(Matched(v, p, patterns))
    case Within(a, b) => Inside(v, a, b)
    case Outside(a, b) => Not3(Inside(v, a, b))
  }

  function EvalPrim(prim: Prim, row: Row, patterns: Patterns): Truth {
    match prim
    case Test(column, check) => EvalCheck(check, row(column), patterns)
    case Group(condition) => EvalDisj(condition, row, patterns)
  }

  function EvalConj(conj: Conj, row: Row, patterns: Patterns): Truth {
    match conj
    case Only(prim) => EvalPrim(prim, row, patterns)
    case Both(prim, others) => And3(EvalPrim(prim, row, patterns), EvalConj(others, row, patterns))
  }

  function EvalDisj(disj: Disj, row: Row, patterns: Patterns): Truth {
    match disj
    case Just(conj) => EvalConj(conj, row, patterns)
    case Either(conj, others) => Or3(EvalConj(conj, row, patterns), EvalDisj(others, row, patterns))
  }

  /** A WHERE clause keeps the rows for which it is TRUE. */
  predicate Keeps(filter: Filter, row: Row, patterns: Patterns)
    requires filter.literals != [] && Paired(filter)
  {
    EvalConj(Tree(filter), row, patterns) == True
  }

  // ---------------------------------------------------------------- what the user asked for

  /** Does the i-th value speak for `v`? A listed NULL speaks for NULL. */
  predicate Speaks(filter: Filter, i: nat, v: Literal, patterns: Patterns)
    requires i < |filter.literals| && Paired(filter)
  {
    var l := filter.literals[i];
    if v == NullLit || l == NullLit then v == l
    else
      match filter.kind
      case Include => v == l
      case Exclude => v == l
      case LikeAny => patterns(v.n, l.n)
      case NotLike => patterns(v.n, l.n)
      case InRange => filter.highs[i] != NullLit && l.n <= v.n <= filter.highs[i].n
      case NotInRange => filter.highs[i] != NullLit && l.n <= v.n <= filter.highs[i].n
  }

  /** The value is listed, matches a pattern, or lies in a range. */
  ghost predicate Listed(filter: Filter, v: Literal, patterns: Patterns)
    requires Paired(filter)
  {
    exists i :: 0 <= i < |filter.literals| && Speaks(filter, i, v, patterns)
  }

  function Nulls(literals: seq<Literal>): nat {
    if literals == [] then 0 else Nulls(literals[1..]) + if literals[0] == NullLit then 1 else 0
  }

  lemma {:induction false} NullsNone(literals: seq<Literal>)
    ensures Nulls(literals) == 0 <==> !HasNull(literals)
  {
    if literals != [] {
      NullsNone(literals[1..]);
    }
  }

  lemma {:induction false} SplicedNulls(literals: seq<Literal>)
    requires HasNull(literals)
    ensures Nulls(Spliced(literals, FirstNull(literals))) == Nulls(literals) - 1
  {
    var i := FirstNull(literals);
    if i == 0 {
      assert Spliced(literals, 0) == literals[1..];
    } else {
      SplicedNulls(literals[1..]);
      assert Spliced(literals, i) == [literals[0]] + Spliced(literals[1..], i - 1);
    }
  }

  /** Taking out the first NULL takes out what speaks for NULL, and nothing else. */
  lemma {:induction false} RestSpeaks(filter: Filter, k: nat, v: Literal, patterns: Patterns)
    requires HasNull(filter.literals) && Paired(filter) && k < |Rest(filter).literals|
    ensures Paired(Rest(filter)) && |Rest(filter).literals| == |filter.literals| - 1
    ensures var at := if k < FirstNull(filter.literals) then k else k + 1;
      Speaks(Rest(filter), k, v, patterns) <==> Speaks(filter, at, v, patterns)
  {
  }

  lemma {:induction false} RestLists(filter: Filter, v: Literal, patterns: Patterns)
    requires HasNull(filter.literals) && Paired(filter)
    ensures Paired(Rest(filter))
    ensures v == NullLit ==> Listed(filter, v, patterns)
    ensures v != NullLit ==> (Listed(filter, v, patterns) <==> Listed(Rest(filter), v, patterns))
  {
    var i, rest := FirstNull(filter.literals), Rest(filter);
    if v == NullLit {
      assert Speaks(filter, i, v, patterns);
    } else {
      assert !Speaks(filter, i, v, patterns);
      assert |rest.literals| == |filter.literals| - 1;
      hide Speaks, Rest;
      if k :| 0 <= k < |filter.literals| && Speaks(filter, k, v, patterns) {
        RestSpeaks(filter, if k < i then k else k - 1, v, patterns);
      }
      if k :| 0 <= k < |rest.literals| && Speaks(rest, k, v, patterns) {
        RestSpeaks(filter, k, v, patterns);
      }
    }
  }

  // ---------------------------------------------------------------- the tests of all values

  /** Some value from the i-th on speaks for `v`. */
  ghost predicate ListedFrom(filter: Filter, i: nat, v: Literal, patterns: Patterns)
    requires Paired(filter)
  {
    exists k :: i <= k < |filter.literals| && Speaks(filter, k, v, patterns)
  }

  lemma {:induction false} ListedStep(filter: Filter, i: nat, v: Literal, patterns: Patterns)
    requires Paired(filter) && i < |filter.literals|
    ensures ListedFrom(filter, i, v, patterns) <==>
      Speaks(filter, i, v, patterns) || ListedFrom(filter, i + 1, v, patterns)
  {
  }

  /** The test for a value is decided: for NULL it never is. */
  predicate Decided(filter: Filter, i: nat, v: Literal)
    requires i < |filter.literals| && Paired(filter)
  {
    var l := filter.literals[i];
    v != NullLit &&
    if IsRange(filter.kind) then
      (l != NullLit && filter.highs[i] != NullLit) || (l != NullLit && v.n < l.n)
      || (filter.highs[i] != NullLit && filter.highs[i].n < v.n)
    else l != NullLit
  }

  lemma {:induction false} CheckMeans(filter: Filter, i: nat, v: Literal, patterns: Patterns)
    requires i < |filter.literals| && Paired(filter)
    ensures var t := EvalCheck(CheckAt(filter, i), v, patterns);
      if Exclusive(filter.kind) then
        t == (if !Decided(filter, i, v) then Unknown else Of(!Speaks(filter, i, v, patterns)))
      else
        t == (if !Decided(filter, i, v) then Unknown else Of(Speaks(filter, i, v, patterns)))
    ensures v != NullLit && Speaks(filter, i, v, patterns) ==> Decided(filter, i, v)
  {
  }

  /** A disjunction of tests is TRUE exactly for the listed values. */
  lemma {:induction false} AnyMeans(filter: Filter, i: nat, row: Row, patterns: Patterns)
    requires i < |filter.literals| && Paired(filter) && !Exclusive(filter.kind)
    ensures var v := row(filter.column);
      EvalDisj(AnyFrom(filter, i), row, patterns) == True <==> v != NullLit && ListedFrom(filter, i, v, patterns)
    decreases |filter.literals| - i
  {
    var v := row(filter.column);
    var test := Test(filter.column, CheckAt(filter, i));
    CheckMeans(filter, i, v, patterns);
    ListedStep(filter, i, v, patterns);
    assert EvalConj(Only(test), row, patterns) == EvalPrim(test, row, patterns);
    if i + 1 < |filter.literals| {
      AnyMeans(filter, i + 1, row, patterns);
    }
  }

  ghost predicate AllDecided(filter: Filter, i: nat, v: Literal)
    requires Paired(filter)
  {
    forall k :: i <= k < |filter.literals| ==> Decided(filter, k, v)
  }

  /** A conjunction of negated tests is TRUE for the values not listed, as far as all tests are decided. */
  lemma {:induction false} AllMeans(filter: Filter, i: nat, row: Row, patterns: Patterns)
    requires i < |filter.literals| && Paired(filter) && Exclusive(filter.kind)
    ensures var v := row(filter.column);
      EvalConj(AllFrom(filter, i), row, patterns) == True <==>
        !ListedFrom(filter, i, v, patterns) && AllDecided(filter, i, v)
    decreases |filter.literals| - i
  {
    var v := row(filter.column);
    var test := Test(filter.column, CheckAt(filter, i));
    CheckMeans(filter, i, v, patterns);
    ListedStep(filter, i, v, patterns);
    assert EvalPrim(test, row, patterns) == EvalCheck(CheckAt(filter, i), v, patterns);
    if i + 1 < |filter.literals| {
      AllMeans(filter, i + 1, row, patterns);
    }
  }

  lemma {:induction false} InListMeans(v: Literal, literals: seq<Literal>)
    ensures InList(v, literals) == True <==> v != NullLit && v in literals
    ensures InList(v, literals) == False <==> literals == [] || (v != NullLit && v !in literals && NullLit !in literals)
  {
    if literals != [] {
      InListMeans(v, literals[1..]);
    }
  }

  /** The one test of an equality filter. */
  lemma {:induction false} ListTestMeans(filter: Filter, row: Row, patterns: Patterns)
    requires (filter.kind == Include || filter.kind == Exclude) && filter.literals != []
    ensures var v, t := row(filter.column), EvalPrim(ListTest(filter), row, patterns);
      t == True <==> v != NullLit && if filter.kind == Include then Listed(filter, v, patterns)
                                     else !Listed(filter, v, patterns) && NullLit !in filter.literals
  {
    var v := row(filter.column);
    InListMeans(v, filter.literals);
    assert Listed(filter, v, patterns) <==> v in filter.literals by {
      if v in filter.literals {
        var i :| 0 <= i < |filter.literals| && filter.literals[i] == v;
        assert Speaks(filter, i, v, patterns);
      }
    }
  }

  lemma {:induction false} NullIn(literals: seq<Literal>)
    ensures NullLit in literals <==> Nulls(literals) > 0
  {
    if literals != [] {
      NullIn(literals[1..]);
    }
  }

  // ---------------------------------------------------------------- whole conditions

  /** When the tests of the values cannot be all decided, a negative condition is not TRUE. */
  ghost predicate TestsDecided(rest: Filter, v: Literal)
    requires Paired(rest)
  {
    if rest.kind == Exclude then v != NullLit && NullLit !in rest.literals else AllDecided(rest, 0, v)
  }

  lemma {:induction false} PositiveValues(rest: Filter, nulls: bool, row: Row, patterns: Patterns)
    requires rest.literals != [] && Paired(rest) && !Exclusive(rest.kind)
    ensures var v := row(rest.column);
      EvalConj(ValuesTree(rest, nulls), row, patterns) == True <==>
        (nulls && v == NullLit) || (v != NullLit && Listed(rest, v, patterns))
  {
    var isNull := Only(Test(rest.column, IsNull));
    assert EvalConj(isNull, row, patterns) == EvalPrim(isNull.prim, row, patterns) == Of(row(rest.column) == NullLit);
    assert ListedFrom(rest, 0, row(rest.column), patterns) <==> Listed(rest, row(rest.column), patterns);
    if rest.kind == Include {
      var t := Only(ListTest(rest));
      ListTestMeans(rest, row, patterns);
      assert EvalDisj(Just(t), row, patterns) == EvalConj(t, row, patterns) == EvalPrim(ListTest(rest), row, patterns);
      EvalWrapped(Just(t), row, patterns);
      EvalWrapped(Either(isNull, Just(t)), row, patterns);
      EvalWrapped(Just(Wrapped(Either(isNull, Just(t)))), row, patterns);
    } else {
      AnyMeans(rest, 0, row, patterns);
      EvalWrapped(Either(isNull, AnyFrom(rest, 0)), row, patterns);
      EvalWrapped(AnyFrom(rest, 0), row, patterns);
      SingleTest(rest, row, patterns);
    }
  }

  lemma {:induction false} EvalWrapped(disj: Disj, row: Row, patterns: Patterns)
    ensures EvalConj(Wrapped(disj), row, patterns) == EvalDisj(disj, row, patterns)
    ensures EvalDisj(Just(Wrapped(disj)), row, patterns) == EvalDisj(disj, row, patterns)
  {
    assert EvalPrim(Group(disj), row, patterns) == EvalDisj(disj, row, patterns);
    assert EvalConj(Wrapped(disj), row, patterns) == EvalPrim(Group(disj), row, patterns);
  }

  lemma {:induction false} SingleTest(rest: Filter, row: Row, patterns: Patterns)
    requires rest.literals != [] && Paired(rest)
    ensures |rest.literals| == 1 ==>
      EvalConj(AllFrom(rest, 0), row, patterns) == EvalDisj(AnyFrom(rest, 0), row, patterns)
  {
    var test := Test(rest.column, CheckAt(rest, 0));
    assert EvalDisj(Just(Only(test)), row, patterns) == EvalConj(Only(test), row, patterns);
  }

  lemma {:induction false} NegativeValues(rest: Filter, nulls: bool, row: Row, patterns: Patterns)
    requires rest.literals != [] && Paired(rest) && Exclusive(rest.kind)
    ensures var v := row(rest.column);
      EvalConj(ValuesTree(rest, nulls), row, patterns) == True <==>
        (!nulls && rest.kind != NotInRange && v == NullLit)
        || (v != NullLit && !Listed(rest, v, patterns) && TestsDecided(rest, v))
  {
    var v := row(rest.column);
    var isNull := Only(Test(rest.column, IsNull));
    assert EvalConj(isNull, row, patterns) == EvalPrim(isNull.prim, row, patterns) == Of(v == NullLit);
    assert EvalPrim(NullTest(rest), row, patterns) == Of(v != NullLit);
    assert ListedFrom(rest, 0, v, patterns) <==> Listed(rest, v, patterns);
    if rest.kind == Exclude {
      var t := Only(ListTest(rest));
      ListTestMeans(rest, row, patterns);
      assert EvalConj(t, row, patterns) == EvalPrim(ListTest(rest), row, patterns);
      assert EvalDisj(Just(t), row, patterns) == EvalConj(t, row, patterns);
      var both := Both(NullTest(rest), t);
      assert EvalConj(both, row, patterns) == And3(EvalPrim(NullTest(rest), row, patterns), EvalConj(t, row, patterns));
      assert EvalDisj(Just(both), row, patterns) == EvalConj(both, row, patterns);
      EvalWrapped(Just(both), row, patterns);
      EvalWrapped(Either(isNull, Just(t)), row, patterns);
      EvalWrapped(Just(Wrapped(Either(isNull, Just(t)))), row, patterns);
    } else {
      AllMeans(rest, 0, row, patterns);
      NeverDecided(rest, v);
      assert EvalDisj(Just(AllFrom(rest, 0)), row, patterns) == EvalConj(AllFrom(rest, 0), row, patterns);
      assert EvalDisj(Just(isNull), row, patterns) == EvalConj(isNull, row, patterns);
      EvalWrapped(Just(AllFrom(rest, 0)), row, patterns);
      EvalWrapped(Either(Wrapped(Just(AllFrom(rest, 0))), Just(isNull)), row, patterns);
    }
  }

  lemma {:induction false} NeverDecided(rest: Filter, v: Literal)
    requires rest.literals != [] && Paired(rest)
    ensures AllDecided(rest, 0, v) ==> v != NullLit
  {
    assert AllDecided(rest, 0, v) ==> Decided(rest, 0, v);
  }

  lemma {:induction false} NullOnly(filter: Filter, row: Row, patterns: Patterns)
    requires filter.literals != [] && Paired(filter) && HasNull(filter.literals) && Rest(filter).literals == []
    ensures Keeps(filter, row, patterns) <==> (row(filter.column) == NullLit) != Exclusive(filter.kind)
  {
    assert EvalConj(Only(NullTest(filter)), row, patterns) == EvalPrim(NullTest(filter), row, patterns);
  }

  /** IN, LIKE and BETWEEN keep exactly the listed values, NULL among them if it is listed. */
  lemma {:induction false} PositiveFilterKeepsListed(filter: Filter, row: Row, patterns: Patterns)
    requires filter.literals != [] && Paired(filter) && !Exclusive(filter.kind)
    ensures Keeps(filter, row, patterns) <==> Listed(filter, row(filter.column), patterns)
  {
    var v := row(filter.column);
    if HasNull(filter.literals) {
      RestLists(filter, v, patterns);
      if Rest(filter).literals == [] {
        NullOnly(filter, row, patterns);
      } else {
        PositiveValues(Rest(filter), true, row, patterns);
      }
    } else {
      PositiveValues(filter, false, row, patterns);
    }
  }

  /** What is left to test after the first NULL was taken out. */
  function Remaining(filter: Filter): Filter
    requires Paired(filter)
  {
    if HasNull(filter.literals) then Rest(filter) else filter
  }

  /** NOT IN, NOT LIKE and NOT BETWEEN keep the values that are not listed, save those whose tests stay
    * undecided; and NOT BETWEEN does not keep NULL. */
  lemma {:induction false} NegativeFilterKeeps(filter: Filter, row: Row, patterns: Patterns)
    requires filter.literals != [] && Paired(filter) && Exclusive(filter.kind)
    ensures Paired(Remaining(filter))
    ensures var v := row(filter.column);
      Keeps(filter, row, patterns) <==>
        !Listed(filter, v, patterns)
        && if v == NullLit then filter.kind != NotInRange
           else Remaining(filter).literals == [] || TestsDecided(Remaining(filter), v)
  {
    var v := row(filter.column);
    if HasNull(filter.literals) {
      RestLists(filter, v, patterns);
      if Rest(filter).literals == [] {
        NullOnly(filter, row, patterns);
      } else {
        NegativeValues(Rest(filter), true, row, patterns);
      }
    } else {
      NegativeValues(filter, false, row, patterns);
      NullNotListed(filter, patterns);
    }
  }

  lemma {:induction false} NullNotListed(filter: Filter, patterns: Patterns)
    requires Paired(filter) && !HasNull(filter.literals)
    ensures !Listed(filter, NullLit, patterns)
  {
  }

  /** Exclude is the opposite of Include, and Not Like of Like, for every value exactly as long as NULL is listed
    * at most once; with a second NULL the values that are not listed are lost. */
  lemma {:induction false} OppositesPartitionIff(filter: Filter, row: Row, patterns: Patterns)
    requires filter.literals != [] && (filter.kind == Exclude || filter.kind == NotLike)
    ensures var opposite := filter.(kind := if filter.kind == Exclude then Include else LikeAny);
      (Keeps(filter, row, patterns) <==> !Keeps(opposite, row, patterns)) <==>
      (Nulls(filter.literals) <= 1 || Listed(filter, row(filter.column), patterns))
  {
    var v := row(filter.column);
    var opposite := filter.(kind := if filter.kind == Exclude then Include else LikeAny);
    SameListed(filter, opposite, v, patterns);
    PositiveFilterKeepsListed(opposite, row, patterns);
    NegativeFilterKeeps(filter, row, patterns);
    var rest := Remaining(filter);
    NullsNone(filter.literals);
    if HasNull(filter.literals) {
      SplicedNulls(filter.literals);
      RestLists(filter, v, patterns);
    }
    NullIn(rest.literals);
    if v != NullLit {
      DecidedIffNoNull(rest, v);
    }
  }

  /** With NULL listed twice and nothing else, no row at all gets through Exclude or Not Like; and Include or Like
    * keep the rows with NULL only. */
  lemma {:induction false} SecondNullLosesRows(filter: Filter, row: Row, patterns: Patterns)
    requires filter.literals == [NullLit, NullLit] && (filter.kind == Exclude || filter.kind == NotLike)
    ensures var opposite := filter.(kind := if filter.kind == Exclude then Include else LikeAny);
      !Keeps(filter, row, patterns) && (Keeps(opposite, row, patterns) <==> row(filter.column) == NullLit)
  {
    var v := row(filter.column);
    var opposite := filter.(kind := if filter.kind == Exclude then Include else LikeAny);
    assert Nulls([NullLit, NullLit]) == 2 by {
      assert [NullLit, NullLit][1..] == [NullLit] && [NullLit][1..] == [];
    }
    assert Listed(opposite, v, patterns) <==> v == NullLit by {
      if v == NullLit {
        assert Speaks(opposite, 0, v, patterns);
      }
    }
    SameListed(filter, opposite, v, patterns);
    PositiveFilterKeepsListed(opposite, row, patterns);
    OppositesPartitionIff(filter, row, patterns);
  }

  lemma {:induction false} SameListed(a: Filter, b: Filter, v: Literal, patterns: Patterns)
    requires Paired(a) && Paired(b) && a.literals == b.literals
    requires (a.kind == Exclude && b.kind == Include) || (a.kind == NotLike && b.kind == LikeAny)
          || (a.kind == NotInRange && b.kind == InRange && a.highs == b.highs)
    ensures Listed(a, v, patterns) <==> Listed(b, v, patterns)
  {
    assert forall i :: 0 <= i < |a.literals| ==> (Speaks(a, i, v, patterns) <==> Speaks(b, i, v, patterns));
  }

  lemma {:induction false} DecidedIffNoNull(rest: Filter, v: Literal)
    requires (rest.kind == Exclude || rest.kind == NotLike) && v != NullLit
    ensures TestsDecided(rest, v) <==> NullLit !in rest.literals
  {
    if rest.kind == NotLike {
      if NullLit in rest.literals {
        var k :| 0 <= k < |rest.literals| && rest.literals[k] == NullLit;
        assert !Decided(rest, k, v);
      }
    }
  }

  /** Not Between is the opposite of Between exactly for the values in a range and for those not NULL whose
    * comparisons with the bounds are all decided: NULL is lost by both, unless it is listed. */
  lemma {:induction false} RangesPartitionIff(filter: Filter, row: Row, patterns: Patterns)
    requires filter.literals != [] && Paired(filter) && filter.kind == NotInRange
    ensures Paired(Remaining(filter))
    ensures var v := row(filter.column);
      (Keeps(filter, row, patterns) <==> !Keeps(filter.(kind := InRange), row, patterns)) <==>
      (Listed(filter, v, patterns) || (v != NullLit && AllDecided(Remaining(filter), 0, v)))
  {
    var v := row(filter.column);
    SameListed(filter, filter.(kind := InRange), v, patterns);
    PositiveFilterKeepsListed(filter.(kind := InRange), row, patterns);
    NegativeFilterKeeps(filter, row, patterns);
  }

  /** A row with NULL is neither between two bounds nor not between them. */
  lemma {:induction false} RangesLoseNulls(filter: Filter, low: int, high: int, row: Row, patterns: Patterns)
    requires filter.kind == NotInRange && filter.literals == [Val(low)] && filter.highs == [Val(high)]
    requires row(filter.column) == NullLit
    ensures !Keeps(filter, row, patterns) && !Keeps(filter.(kind := InRange), row, patterns)
  {
    assert !Listed(filter, NullLit, patterns) && !HasNull(filter.literals);
    RangesPartitionIff(filter, row, patterns);
    NegativeFilterKeeps(filter, row, patterns);
  }

  // ---------------------------------------------------------------- all filters together

  lemma {:induction false} AppendMeans(a: Conj, b: Conj, row: Row, patterns: Patterns)
    ensures EvalConj(Append(a, b), row, patterns) == And3(EvalConj(a, row, patterns), EvalConj(b, row, patterns))
  {
    if a.Both? {
      AppendMeans(a.others, b, row, patterns);
    }
  }

  lemma {:induction false} AllTreesMean(filters: seq<Filter>, row: Row, patterns: Patterns)
    requires filters != [] && forall filter :: filter in filters ==> filter.literals != [] && Paired(filter)
    ensures EvalConj(AllTrees(filters), row, patterns) == True <==>
              forall filter :: filter in filters ==> Keeps(filter, row, patterns)
  {
    assert filters[0] in filters;
    if |filters| > 1 {
      AllTreesMean(filters[1..], row, patterns);
      AppendMeans(Tree(filters[0]), AllTrees(filters[1..]), row, patterns);
    }
  }

  /** The generated WHERE clause, read by the database's grammar, keeps exactly the rows that every filter keeps. */
  lemma {:induction false} WhereKeepsWhatAllFiltersKeep(filters: seq<Filter>, row: Row, patterns: Patterns)
    requires filters != [] && forall filter :: filter in filters ==> filter.literals != [] && Paired(filter)
    ensures var parsed := ParseDisj(PrintConj(AllTrees(filters)));
      && parsed.Done? && parsed.rest == []
      && (EvalDisj(parsed.tree, row, patterns) == True <==>
            forall filter :: filter in filters ==> Keeps(filter, row, patterns))
  {
    JoinedConditionsParse(filters);
    AllTreesMean(filters, row, patterns);
  }
}
