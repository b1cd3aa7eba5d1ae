/** The text of filter conditions in src/QueryModel/QueryAxisItem.js, and the grammar by which it is read. */
module FilterSql {
  import opened Options

  type Column(==, !new)

  datatype Literal = NullLit | Val(n: int)

  datatype Token =
    | Col(column: Column) | Lit(literal: Literal)
    | Open | Close | Comma | And | Or | Not | Is | Null | Eq | Ne | In | Like | Between

  // ---------------------------------------------------------------- conditions as trees

  datatype Check =
    | IsNull | IsNotNull
    | Equal(literal: Literal) | Unequal(literal: Literal)
    | OneOf(literals: seq<Literal>) | NoneOf(literals: seq<Literal>)
    | Matches(pattern: Literal) | NoMatch(pattern: Literal)
    | Within(low: Literal, high: Literal) | Outside(low: Literal, high: Literal)

  datatype Prim = Test(column: Column, check: Check) | Group(condition: Disj)
  datatype Conj = Only(prim: Prim) | Both(prim: Prim, others: Conj)
  datatype Disj = Just(conj: Conj) | Either(conj: Conj, others: Disj)

  function Commas(literals: seq<Literal>): seq<Token> {
    if literals == [] then []
    else if |literals| == 1 then [Lit(literals[0])]
    else [Lit(literals[0]), Comma] + Commas(literals[1..])
  }

  predicate Negative(check: Check) {
    check.NoneOf? || check.NoMatch? || check.Outside?
  }

  /** A check without the NOT that it may begin with. */
  function PrintBody(check: Check): seq<Token> {
    match check
    case IsNull => [Is, Null]
    case IsNotNull => [Is, Not, Null]
    case Equal(l) => [Eq, Lit(l)]
    case Unequal(l) => [Ne, Lit(l)]
    case OneOf(ls) => [In, Open] + Commas(ls) + [Close]
    case NoneOf(ls) => [In, Open] + Commas(ls) + [Close]
    case Matches(p) => [Like, Lit(p)]
    case NoMatch(p) => [Like, Lit(p)]
    case Within(a, b) => [Between, Lit(a), And, Lit(b)]
    case Outside(a, b) => [Between, Lit(a), And, Lit(b)]
  }

  function PrintCheck(check: Check): seq<Token> {
    if Negative(check) then [Not] + PrintBody(check) else PrintBody(check)
  }

  function PrintPrim(prim: Prim): seq<Token> {
    match prim
    case Test(column, check) => [Col(column)] + PrintCheck(check)
    case Group(condition) => [Open] + PrintDisj(condition) + [Close]
  }

  function PrintConj(conj: Conj): seq<Token> {
    match conj
    case Only(prim) => PrintPrim(prim)
    case Both(prim, others) => PrintPrim(prim) + [And] + PrintConj(others)
  }

  function PrintDisj(disj: Disj): seq<Token> {
    match disj
    case Just(conj) => PrintConj(conj)
    case Either(conj, others) => PrintConj(conj) + [Or] + PrintDisj(others)
  }

  // ---------------------------------------------------------------- the grammar, AND binding tighter than OR

  datatype Parsed<T> = Fail | Done(tree: T, rest: seq<Token>)

  function ParseList(tokens: seq<Token>): (r: Parsed<seq<Literal>>)
    ensures r.Done? ==> |r.rest| < |tokens|
  {
    if |tokens| < 2 || !tokens[0].Lit? then Fail
    else if tokens[1] == Close then Done([tokens[0].literal], tokens[2..])
    else if tokens[1] != Comma then Fail
    else
      match ParseList(tokens[2..])
      case Fail => Fail
      case Done(literals, rest) => Done([tokens[0].literal] + literals, rest)
  }

  function ParsePositive(tokens: seq<Token>, negated: bool): (r: Parsed<Check>)
    ensures r.Done? ==> |r.rest| < |tokens|
  {
    if |tokens| < 2 then Fail
    else if tokens[0] == In && tokens[1] == Open then
      match ParseList(tokens[2..])
      case Fail => Fail
      case Done(literals, rest) => Done(if negated then NoneOf(literals) else OneOf(literals), rest)
    else if tokens[0] == Like && tokens[1].Lit? then
      Done(if negated then NoMatch(tokens[1].literal) else Matches(tokens[1].literal), tokens[2..])
    else if tokens[0] == Between && |tokens| >= 4 && tokens[1].Lit? && tokens[2] == And && tokens[3].Lit? then
      Done(if negated then Outside(tokens[1].literal, tokens[3].literal)
           else Within(tokens[1].literal, tokens[3].literal), tokens[4..])
    else Fail
  }

  function ParseCheck(tokens: seq<Token>): (r: Parsed<Check>)
    ensures r.Done? ==> |r.rest| < |tokens|
  {
    if |tokens| < 2 then Fail
    else if tokens[0] == Is && tokens[1] == Null then Done(IsNull, tokens[2..])
    else if tokens[0] == Is && tokens[1] == Not && |tokens| >= 3 && tokens[2] == Null then Done(IsNotNull, tokens[3..])
    else if tokens[0] == Eq && tokens[1].Lit? then Done(Equal(tokens[1].literal), tokens[2..])
    else if tokens[0] == Ne && tokens[1].Lit? then Done(Unequal(tokens[1].literal), tokens[2..])
    else if tokens[0] == Not then ParsePositive(tokens[1..], true)
    else ParsePositive(tokens, false)
  }

  function ParsePrim(tokens: seq<Token>): (r: Parsed<Prim>)
    ensures r.Done? ==> |r.rest| < |tokens|
    decreases |tokens|, 0
  {
    if tokens == [] then Fail
    else if tokens[0].Col? then
      match ParseCheck(tokens[1..])
      case Fail => Fail
      case Done(check, rest) => Done(Test(tokens[0].column, check), rest)
    else if tokens[0] == Open then
      match ParseDisj(tokens[1..])
      case Fail => Fail
      case Done(disj, rest) => if rest != [] && rest[0] == Close then Done(Group(disj), rest[1..]) else Fail
    else Fail
  }

  function ParseConj(tokens: seq<Token>): (r: Parsed<Conj>)
    ensures r.Done? ==> |r.rest| < |tokens|
    decreases |tokens|, 1
  {
    match ParsePrim(tokens)
    case Fail => Fail
    case Done(prim, rest) =>
      if rest == [] || rest[0] != And then Done(Only(prim), rest)
      else
        match ParseConj(rest[1..])
        case Fail => Fail
        case Done(others, left) => Done(Both(prim, others), left)
  }

  function ParseDisj(tokens: seq<Token>): (r: Parsed<Disj>)
    ensures r.Done? ==> |r.rest| < |tokens|
    decreases |tokens|, 2
  {
    match ParseConj(tokens)
    case Fail => Fail
    case Done(conj, rest) =>
      if rest == [] || rest[0] != Or then Done(Just(conj), rest)
      else
        match ParseDisj(rest[1..])
        case Fail => Fail
        case Done(others, left) => Done(Either(conj, others), left)
  }

  /** The lists of IN are not empty. */
  predicate ProperPrim(prim: Prim)
    decreases prim, 0
  {
    match prim
    case Test(_, check) => (check.OneOf? || check.NoneOf? ==> check.literals != [])
    case Group(condition) => ProperDisj(condition)
  }

  predicate ProperConj(conj: Conj)
    decreases conj, 1
  {
    match conj
    case Only(prim) => ProperPrim(prim)
    case Both(prim, others) => ProperPrim(prim) && ProperConj(others)
  }

  predicate ProperDisj(disj: Disj)
    decreases disj, 2
  {
    match disj
    case Just(conj) => ProperConj(conj)
    case Either(conj, others) => ProperConj(conj) && ProperDisj(others)
  }

  /** What follows is no continuation. */
  predicate Ends(rest: seq<Token>, token: Token) {
    rest == [] || rest[0] != token
  }

  /** Reading past what stands in front. */
  lemma {:induction false} Past(front: seq<Token>, more: seq<Token>)
    ensures (front + more)[|front|..] == more
    ensures forall i :: 0 <= i < |front| ==> (front + more)[i] == front[i]
  {
  }

  lemma {:induction false} Regroup(a: seq<Token>, b: seq<Token>, c: seq<Token>, d: seq<Token>)
    ensures (a + b + c) + d == a + (b + (c + d))
  {
  }

  lemma {:induction false} ListEnd(literal: Literal, rest: seq<Token>)
    ensures ParseList([Lit(literal), Close] + rest) == Done([literal], rest)
  {
    Past([Lit(literal), Close], rest);
  }

  lemma {:induction false} ListGoesOn(literal: Literal, literals: seq<Literal>, more: seq<Token>, rest: seq<Token>)
    requires ParseList(more) == Done(literals, rest)
    ensures ParseList([Lit(literal), Comma] + more) == Done([literal] + literals, rest)
  {
    Past([Lit(literal), Comma], more);
  }

  lemma {:induction false} ListRoundTrip(literals: seq<Literal>, rest: seq<Token>)
    requires literals != []
    ensures ParseList(Commas(literals) + ([Close] + rest)) == Done(literals, rest)
  {
    hide ParseList;
    if |literals| == 1 {
      ListEnd(literals[0], rest);
      assert Commas(literals) + ([Close] + rest) == [Lit(literals[0]), Close] + rest;
      assert [literals[0]] == literals;
    } else {
      var more := Commas(literals[1..]) + ([Close] + rest);
      ListRoundTrip(literals[1..], rest);
      ListGoesOn(literals[0], literals[1..], more, rest);
      assert Commas(literals) + ([Close] + rest) == [Lit(literals[0]), Comma] + more;
      assert [literals[0]] + literals[1..] == literals;
    }
  }

  lemma {:induction false} BodyRoundTrip(check: Check, rest: seq<Token>)
    requires !check.IsNull? && !check.IsNotNull? && !check.Equal? && !check.Unequal?
    requires check.OneOf? || check.NoneOf? ==> check.literals != []
    ensures ParsePositive(PrintBody(check) + rest, Negative(check)) == Done(check, rest)
  {
    if check.OneOf? || check.NoneOf? {
      var more := Commas(check.literals) + ([Close] + rest);
      ListRoundTrip(check.literals, rest);
      Past([In, Open], more);
      Regroup([In, Open], Commas(check.literals), [Close], rest);
    } else {
      Past(PrintBody(check), rest);
    }
  }

  lemma {:induction false} CheckRoundTrip(check: Check, rest: seq<Token>)
    requires check.OneOf? || check.NoneOf? ==> check.literals != []
    ensures ParseCheck(PrintCheck(check) + rest) == Done(check, rest)
  {
    if check.IsNull? || check.IsNotNull? || check.Equal? || check.Unequal? {
      Past(PrintCheck(check), rest);
    } else if Negative(check) {
      NegatedRoundTrip(check, rest);
    } else {
      BodyRoundTrip(check, rest);
    }
  }

  lemma {:induction false} NegatedRoundTrip(check: Check, rest: seq<Token>)
    requires Negative(check) && (check.NoneOf? ==> check.literals != [])
    ensures ParseCheck(PrintCheck(check) + rest) == Done(check, rest)
  {
    var more := PrintBody(check) + rest;
    BodyRoundTrip(check, rest);
    assert |PrintBody(check)| > 0;
    hide PrintBody, ParsePositive, ParseCheck;
    NotParses(more);
    assert ([Not] + PrintBody(check)) + rest == [Not] + more;
  }

  lemma {:induction false} NotParses(more: seq<Token>)
    requires |more| > 0
    ensures ParseCheck([Not] + more) == ParsePositive(more, true)
  {
    assert ([Not] + more)[1..] == more;
  }

  lemma {:induction false} TestRoundTrip(column: Column, check: Check, rest: seq<Token>)
    requires check.OneOf? || check.NoneOf? ==> check.literals != []
    ensures ParsePrim(PrintPrim(Test(column, check)) + rest) == Done(Test(column, check), rest)
  {
    hide ParseCheck, PrintCheck;
    CheckRoundTrip(check, rest);
    Past([Col(column)], PrintCheck(check) + rest);
    assert PrintPrim(Test(column, check)) + rest == [Col(column)] + (PrintCheck(check) + rest);
  }

  lemma {:induction false} PrimRoundTrip(prim: Prim, rest: seq<Token>)
    requires ProperPrim(prim)
    ensures ParsePrim(PrintPrim(prim) + rest) == Done(prim, rest)
    decreases prim, 0
  {
    match prim
    case Test(column, check) =>
      TestRoundTrip(column, check, rest);
    case Group(condition) =>
      var more := PrintDisj(condition) + ([Close] + rest);
      DisjRoundTrip(condition, [Close] + rest);
      Past([Open], more);
      Past([Close], rest);
      Regroup([Open], PrintDisj(condition), [Close], rest);
  }

  lemma {:induction false} ConjRoundTrip(conj: Conj, rest: seq<Token>)
    requires ProperConj(conj) && Ends(rest, And)
    ensures ParseConj(PrintConj(conj) + rest) == Done(conj, rest)
    decreases conj, 1
  {
    match conj
    case Only(prim) =>
      PrimRoundTrip(prim, rest);
    case Both(prim, others) =>
      var more := [And] + (PrintConj(others) + rest);
      PrimRoundTrip(prim, more);
      ConjRoundTrip(others, rest);
      Past([And], PrintConj(others) + rest);
      Regroup(PrintPrim(prim), [And], PrintConj(others), rest);
  }

  /** Whatever the condition, what is printed is read back as it was meant. */
  lemma {:induction false} DisjRoundTrip(disj: Disj, rest: seq<Token>)
    requires ProperDisj(disj) && Ends(rest, And) && Ends(rest, Or)
    ensures ParseDisj(PrintDisj(disj) + rest) == Done(disj, rest)
    decreases disj, 2
  {
    match disj
    case Just(conj) =>
      ConjRoundTrip(conj, rest);
    case Either(conj, others) =>
      var more := [Or] + (PrintDisj(others) + rest);
      ConjRoundTrip(conj, more);
      DisjRoundTrip(others, rest);
      Past([Or], PrintDisj(others) + rest);
      Regroup(PrintConj(conj), [Or], PrintDisj(others), rest);
  }

  // ---------------------------------------------------------------- generating the text

  datatype Kind = Include | Exclude | LikeAny | NotLike | InRange | NotInRange

  predicate Exclusive(kind: Kind) {
    kind == Exclude || kind == NotLike || kind == NotInRange
  }

  predicate IsRange(kind: Kind) {
    kind == InRange || kind == NotInRange
  }

  /** The enabled values of a filter, and for ranges the upper bounds paired with them. */
  datatype Filter = Filter(column: Column, kind: Kind, literals: seq<Literal>, highs: seq<Literal>)

  predicate Paired(filter: Filter) {
    IsRange(filter.kind) ==> |filter.highs| == |filter.literals|
  }

  function FirstNull(literals: seq<Literal>): (i: nat)
    ensures i <= |literals|
    ensures i < |literals| ==> literals[i] == NullLit
    ensures forall j :: 0 <= j < i ==> literals[j] != NullLit
  {
    if literals == [] || literals[0] == NullLit then 0 else 1 + FirstNull(literals[1..])
  }

  predicate HasNull(literals: seq<Literal>) {
    FirstNull(literals) < |literals|
  }

  function Spliced(literals: seq<Literal>, i: nat): seq<Literal>
    requires i < |literals|
  {
    literals[..i] + literals[i + 1..]
  }

  /** The filter without its first NULL. */
  function Rest(filter: Filter): Filter
    requires HasNull(filter.literals) && Paired(filter)
  {
    var i := FirstNull(filter.literals);
    filter.(literals := Spliced(filter.literals, i),
    highs := if IsRange(filter.kind) then Spliced(filter.highs, i) else filter.highs)
  }

  function CheckAt(filter: Filter, i: nat): Check
    requires i < |filter.literals| && Paired(filter)
  {
    match filter.kind
    case Include => Equal(filter.literals[i])
    case Exclude => Unequal(filter.literals[i])
    case LikeAny => Matches(filter.literals[i])
    case NotLike => NoMatch(filter.literals[i])
    case InRange => Within(filter.literals[i], filter.highs[i])
    case NotInRange => Outside(filter.literals[i], filter.highs[i])
  }

  /** The tests for the values from the i-th on, all of which must hold ... */
  function AllFrom(filter: Filter, i: nat): Conj
    requires i < |filter.literals| && Paired(filter)
    decreases |filter.literals| - i
  {
    var test := Test(filter.column, CheckAt(filter, i));
    if i + 1 == |filter.literals| then Only(test) else Both(test, AllFrom(filter, i + 1))
  }

  /** ... or one of which must. */
  function AnyFrom(filter: Filter, i: nat): Disj
    requires i < |filter.literals| && Paired(filter)
    decreases |filter.literals| - i
  {
    var test := Only(Test(filter.column, CheckAt(filter, i)));
    if i + 1 == |filter.literals| then Just(test) else Either(test, AnyFrom(filter, i + 1))
  }

  function NullTest(filter: Filter): Prim {
    Test(filter.column, if Exclusive(filter.kind) then IsNotNull else IsNull)
  }

  /** The one test that an equality filter makes for its values. */
  function ListTest(filter: Filter): Prim
    requires filter.literals != []
  {
    Test(filter.column,
         if |filter.literals| == 1 then
           if filter.kind == Exclude then Unequal(filter.literals[0]) else Equal(filter.literals[0])
         else if filter.kind == Exclude then NoneOf(filter.literals) else OneOf(filter.literals))
  }

  function Wrapped(disj: Disj): Conj {
    Only(Group(disj))
  }

  /** The condition for the values `rest`, which hold no NULL any more if `nulls`. */
  function ValuesTree(rest: Filter, nulls: bool): Conj
    requires rest.literals != [] && Paired(rest)
  {
    var isNull := Only(Test(rest.column, IsNull));
    match rest.kind
    case Include =>
      var t := Only(ListTest(rest));
      if nulls then Wrapped(Just(Wrapped(Either(isNull, Just(t))))) else Wrapped(Just(t))
    case Exclude =>
      var t := Only(ListTest(rest));
      if nulls then Wrapped(Just(Both(NullTest(rest), t))) else Wrapped(Just(Wrapped(Either(isNull, Just(t)))))
    case LikeAny =>
      if nulls then Wrapped(Either(isNull, AnyFrom(rest, 0)))
      else if |rest.literals| == 1 then AllFrom(rest, 0)
      else Wrapped(AnyFrom(rest, 0))
    case NotLike =>
      if nulls then Both(NullTest(rest), AllFrom(rest, 0))
      else Wrapped(Either(Wrapped(Just(AllFrom(rest, 0))), Just(isNull)))
    case InRange =>
      if nulls then Wrapped(Either(isNull, AnyFrom(rest, 0)))
      else if |rest.literals| == 1 then AllFrom(rest, 0)
      else Wrapped(AnyFrom(rest, 0))
    case NotInRange =>
      if nulls then Both(NullTest(rest), AllFrom(rest, 0)) else AllFrom(rest, 0)
  }

  /** The condition that a filter stands for. */
  function Tree(filter: Filter): Conj
    requires filter.literals != [] && Paired(filter)
  {
    if !HasNull(filter.literals) then ValuesTree(filter, false)
    else if Rest(filter).literals == [] then Only(NullTest(filter))
    else ValuesTree(Rest(filter), true)
  }

  method FindNull(literals: seq<Literal>) returns (index: int)
    ensures index == if HasNull(literals) then FirstNull(literals) else -1
  {
    for i := 0 to |literals|
      invariant FirstNull(literals) == i + FirstNull(literals[i..])
    {
      assert literals[i..][1..] == literals[i + 1..];
      if literals[i] == NullLit {
        return i;
      }
    }
    return -1;
  }

  method JoinLiterals(literals: seq<Literal>) returns (tokens: seq<Token>)
    requires literals != []
    ensures tokens == Commas(literals)
  {
    tokens := [Lit(literals[|literals| - 1])];
    assert literals[|literals| - 1..] == [literals[|literals| - 1]];
    for i := |literals| - 1 downto 0
      invariant tokens == Commas(literals[i..])
    {
      assert literals[i..][1..] == literals[i + 1..];
      tokens := [Lit(literals[i]), Comma] + tokens;
    }
    assert literals[0..] == literals;
  }

  /** The tests for the values joined by one operator, in the order of the loop. */
  function Chained(filter: Filter, n: nat, operator: Token): seq<Token>
    requires 0 < n <= |filter.literals| && Paired(filter)
  {
    var test := [Col(filter.column)] + PrintCheck(CheckAt(filter, n - 1));
    if n == 1 then test else Chained(filter, n - 1, operator) + [operator] + test
  }

  lemma {:induction false} ChainedAll(filter: Filter, n: nat)
    requires 0 < n < |filter.literals| && Paired(filter)
    ensures Chained(filter, n, And) + [And] + PrintConj(AllFrom(filter, n)) == PrintConj(AllFrom(filter, 0))
  {
    if n > 1 {
      ChainedAll(filter, n - 1);
      ChainedAssociates(filter, n, And, PrintConj(AllFrom(filter, n)));
    }
  }

  lemma {:induction false} ChainedAny(filter: Filter, n: nat)
    requires 0 < n < |filter.literals| && Paired(filter)
    ensures Chained(filter, n, Or) + [Or] + PrintDisj(AnyFrom(filter, n)) == PrintDisj(AnyFrom(filter, 0))
  {
    var test := Test(filter.column, CheckAt(filter, n - 1));
    assert PrintConj(Only(test)) == PrintPrim(test);
    assert PrintDisj(AnyFrom(filter, n - 1)) == PrintPrim(test) + [Or] + PrintDisj(AnyFrom(filter, n));
    if n > 1 {
      ChainedAny(filter, n - 1);
      ChainedAssociates(filter, n, Or, PrintDisj(AnyFrom(filter, n)));
    }
  }

  lemma {:induction false} ChainedAssociates(filter: Filter, n: nat, operator: Token, more: seq<Token>)
    requires 1 < n <= |filter.literals| && Paired(filter)
    ensures Chained(filter, n, operator) + [operator] + more
         == Chained(filter, n - 1, operator) + [operator]
          + (([Col(filter.column)] + PrintCheck(CheckAt(filter, n - 1))) + [operator] + more)
  {
  }

  lemma {:induction false} WholeAll(filter: Filter, n: nat)
    requires n == |filter.literals| > 0 && Paired(filter)
    ensures Chained(filter, n, And) == PrintConj(AllFrom(filter, 0))
  {
    LastTest(filter);
    if n > 1 {
      ChainedAll(filter, n - 1);
    }
  }

  lemma {:induction false} WholeAny(filter: Filter, n: nat)
    requires n == |filter.literals| > 0 && Paired(filter)
    ensures Chained(filter, n, Or) == PrintDisj(AnyFrom(filter, 0))
  {
    LastTest(filter);
    if n > 1 {
      ChainedAny(filter, n - 1);
    }
  }

  lemma {:induction false} LastTest(filter: Filter)
    requires filter.literals != [] && Paired(filter)
    ensures var n := |filter.literals|;
            var test := [Col(filter.column)] + PrintCheck(CheckAt(filter, n - 1));
      PrintConj(AllFrom(filter, n - 1)) == test && PrintDisj(AnyFrom(filter, n - 1)) == test
  {
    var n := |filter.literals|;
    var test := Test(filter.column, CheckAt(filter, n - 1));
    assert AllFrom(filter, n - 1) == Only(test) && AnyFrom(filter, n - 1) == Just(Only(test));
    assert PrintConj(Only(test)) == PrintPrim(test);
    assert PrintDisj(Just(Only(test))) == PrintConj(Only(test));
  }

  lemma {:induction false} PrintWrapped(disj: Disj)
    ensures PrintConj(Wrapped(disj)) == [Open] + PrintDisj(disj) + [Close]
    ensures PrintDisj(Just(Wrapped(disj))) == [Open] + PrintDisj(disj) + [Close]
  {
    assert PrintPrim(Group(disj)) == [Open] + PrintDisj(disj) + [Close];
    assert PrintConj(Wrapped(disj)) == PrintPrim(Group(disj));
  }

  lemma {:induction false} PrintNullOr(column: Column, others: Disj)
    ensures PrintDisj(Either(Only(Test(column, IsNull)), others)) == [Col(column), Is, Null] + [Or] + PrintDisj(others)
  {
    assert PrintConj(Only(Test(column, IsNull))) == PrintPrim(Test(column, IsNull)) == [Col(column), Is, Null];
  }

  lemma {:induction false} EqualityText(filter: Filter, nulls: bool)
    requires (filter.kind == Include || filter.kind == Exclude) && filter.literals != []
    ensures var test, nullTest := PrintPrim(ListTest(filter)), PrintPrim(NullTest(filter));
      PrintConj(ValuesTree(filter, nulls))
        == if filter.kind == Exclude then
             if nulls then [Open] + (nullTest + [And] + test) + [Close]
             else [Open] + ([Open] + ([Col(filter.column), Is, Null, Or] + test) + [Close]) + [Close]
           else if nulls then [Open] + ([Open] + (nullTest + [Or] + test) + [Close]) + [Close]
           else [Open] + test + [Close]
  {
    var t := Only(ListTest(filter));
    var orNull := Either(Only(Test(filter.column, IsNull)), Just(t));
    assert PrintDisj(Just(t)) == PrintConj(t) == PrintPrim(ListTest(filter));
    PrintNullOr(filter.column, Just(t));
    PrintWrapped(orNull);
    PrintWrapped(Just(Wrapped(orNull)));
    PrintWrapped(Just(t));
    var both := Both(NullTest(filter), t);
    assert PrintDisj(Just(both)) == PrintConj(both) == PrintPrim(NullTest(filter)) + [And] + PrintConj(t);
    PrintWrapped(Just(both));
    assert [Col(filter.column), Is, Null] + [Or] == [Col(filter.column), Is, Null, Or];
    if filter.kind == Include {
      assert PrintPrim(NullTest(filter)) == [Col(filter.column), Is, Null];
    }
  }

  lemma {:induction false} TestsText(filter: Filter, nulls: bool)
    requires filter.kind != Include && filter.kind != Exclude && filter.literals != [] && Paired(filter)
    ensures var all, any := PrintConj(AllFrom(filter, 0)), PrintDisj(AnyFrom(filter, 0));
            var nullTest := PrintPrim(NullTest(filter));
      PrintConj(ValuesTree(filter, nulls))
        == if Exclusive(filter.kind) then
             if nulls then nullTest + [And] + all
             else if filter.kind == NotInRange then all
             else [Open] + (([Open] + all + [Close]) + [Or] + [Col(filter.column), Is, Null]) + [Close]
           else if nulls then [Open] + (nullTest + [Or] + any) + [Close]
           else if |filter.literals| == 1 then any
           else [Open] + any + [Close]
  {
    var all, any := AllFrom(filter, 0), AnyFrom(filter, 0);
    var isNull := Only(Test(filter.column, IsNull));
    PrintNullOr(filter.column, any);
    PrintWrapped(any);
    PrintWrapped(Either(isNull, any));
    PrintWrapped(Just(all));
    assert PrintDisj(Just(all)) == PrintConj(all);
    assert PrintDisj(Just(isNull)) == PrintConj(isNull) == PrintPrim(isNull.prim) == [Col(filter.column), Is, Null];
    PrintWrapped(Either(Wrapped(Just(all)), Just(isNull)));
    if !Exclusive(filter.kind) {
      assert PrintPrim(NullTest(filter)) == [Col(filter.column), Is, Null];
    }
    if |filter.literals| == 1 {
      LastTest(filter);
    }
  }

  /** The INCLUDE and EXCLUDE branch. */
  method EqualitySql(filter: Filter, nullCondition: Option<seq<Token>>) returns (sql: seq<Token>)
    requires (filter.kind == Include || filter.kind == Exclude) && filter.literals != []
    requires nullCondition.Some? ==> nullCondition.value == PrintPrim(NullTest(filter))
    ensures sql == PrintConj(ValuesTree(filter, nullCondition.Some?))
  {
    hide *;
    sql := [];
    EqualityText(filter, nullCondition.Some?);
    var needsParentheses := false;
    var logicalOperator: Option<Token> := None;
    if filter.kind == Exclude {
      if nullCondition.None? {
        sql := [Col(filter.column), Is, Null, Or];
        needsParentheses := true;
      }
      logicalOperator := Some(And);
    }
    var test := ListTestSql(filter);
    sql := sql + test;
    assert sql == if filter.kind == Exclude && nullCondition.None? then [Col(filter.column), Is, Null, Or] + test
                  else test;
    if nullCondition.Some? {
      if logicalOperator.None? {
        logicalOperator := Some(Or);
        needsParentheses := true;
      }
      sql := nullCondition.value + [logicalOperator.value] + sql;
    }
    sql := [Open] + sql + [Close];
    if needsParentheses {
      sql := [Open] + sql + [Close];
    }
  }

  method ListTestSql(filter: Filter) returns (test: seq<Token>)
    requires (filter.kind == Include || filter.kind == Exclude) && filter.literals != []
    ensures test == PrintPrim(ListTest(filter))
  {
    var values := JoinLiterals(filter.literals);
    if |filter.literals| == 1 {
      test := [Col(filter.column), if filter.kind == Exclude then Ne else Eq] + values;
    } else {
      test := [Col(filter.column)]
            + ((if filter.kind == Exclude then [Not, In, Open] else [In, Open]) + values + [Close]);
    }
  }

  /** The LIKE and BETWEEN branches. */
  method TestsSql(filter: Filter, nullCondition: Option<seq<Token>>) returns (sql: seq<Token>)
    requires filter.kind != Include && filter.kind != Exclude && filter.literals != [] && Paired(filter)
    requires nullCondition.Some? ==> nullCondition.value == PrintPrim(NullTest(filter))
    ensures sql == PrintConj(ValuesTree(filter, nullCondition.Some?))
  {
    hide PrintConj, PrintDisj, PrintPrim, PrintCheck, CheckAt, AllFrom, AnyFrom, ValuesTree, NullTest;
    sql := [];
    var needsParentheses := false;
    var logicalOperator := if Exclusive(filter.kind) then Some(And) else None;
    ghost var operator := if Exclusive(filter.kind) then And else Or;
    for i := 0 to |filter.literals|
      invariant i > 0 ==> sql == Chained(filter, i, operator)
      invariant i == 0 ==> sql == []
      invariant if Exclusive(filter.kind) then logicalOperator == Some(And) && !needsParentheses
                else logicalOperator == (if i > 1 then Some(Or) else None) && (needsParentheses <==> i > 1)
    {
      if i > 0 {
        if logicalOperator.None? {
          logicalOperator := Some(Or);
          needsParentheses := true;
        }
        sql := sql + [logicalOperator.value];
      }
      var test := TestSql(filter, i);
      sql := sql + test;
    }
    WholeAll(filter, |filter.literals|);
    WholeAny(filter, |filter.literals|);
    TestsText(filter, nullCondition.Some?);
    if nullCondition.Some? {
      if logicalOperator.None? {
        logicalOperator := Some(Or);
        needsParentheses := true;
      }
      sql := nullCondition.value + [logicalOperator.value] + sql;
    } else if filter.kind == NotLike {
      sql := [Open] + sql + [Close, Or, Col(filter.column), Is, Null];
      needsParentheses := true;
      assert sql == ([Open] + PrintConj(AllFrom(filter, 0)) + [Close]) + [Or] + [Col(filter.column), Is, Null];
    }
    if needsParentheses {
      sql := [Open] + sql + [Close];
    }
  }

  method TestSql(filter: Filter, i: nat) returns (test: seq<Token>)
    requires filter.kind != Include && filter.kind != Exclude && i < |filter.literals| && Paired(filter)
    ensures test == [Col(filter.column)] + PrintCheck(CheckAt(filter, i))
  {
    test := [Col(filter.column)];
    if Exclusive(filter.kind) {
      test := test + [Not];
    }
    if IsRange(filter.kind) {
      test := test + [Between, Lit(filter.literals[i]), And, Lit(filter.highs[i])];
    } else {
      test := test + [Like, Lit(filter.literals[i])];
    }
  }

  /** The whole condition; nothing for a filter without values. */
  method GetFilterConditionSql(filter: Filter) returns (sql: Option<seq<Token>>)
    requires Paired(filter)
    ensures sql == if filter.literals == [] then None else Some(PrintConj(Tree(filter)))
  {
    if filter.literals == [] {
      return None;
    }
    var indexOfNull := FindNull(filter.literals);
    var values, nullCondition := filter, None;
    if indexOfNull != -1 {
      values := filter.(literals := Spliced(filter.literals, indexOfNull));
      if IsRange(filter.kind) {
        values := values.(highs := Spliced(filter.highs, indexOfNull));
      }
      nullCondition := Some([Col(filter.column), Is] + (if Exclusive(filter.kind) then [Not, Null] else [Null]));
      assert nullCondition.value == PrintPrim(NullTest(filter)) == PrintConj(Only(NullTest(filter)));
    }
    if values.literals == [] {
      return nullCondition;
    }
    var text;
    if filter.kind == Include || filter.kind == Exclude {
      text := EqualitySql(values, nullCondition);
    } else {
      text := TestsSql(values, nullCondition);
    }
    return Some(text);
  }

  // ---------------------------------------------------------------- all conditions of a query

  function Append(a: Conj, b: Conj): Conj {
    match a
    case Only(prim) => Both(prim, b)
    case Both(prim, others) => Both(prim, Append(others, b))
  }

  lemma {:induction false} PrintAppend(a: Conj, b: Conj)
    ensures PrintConj(Append(a, b)) == PrintConj(a) + [And] + PrintConj(b)
  {
    if a.Both? {
      PrintAppend(a.others, b);
      assert PrintPrim(a.prim) + [And] + (PrintConj(a.others) + [And] + PrintConj(b))
          == (PrintPrim(a.prim) + [And] + PrintConj(a.others)) + [And] + PrintConj(b);
    }
  }

  /** The filters that have values. */
  function Effective(filters: seq<Filter>): seq<Filter> {
    if filters == [] then []
    else if filters[0].literals == [] then Effective(filters[1..])
    else [filters[0]] + Effective(filters[1..])
  }

  predicate AllPaired(filters: seq<Filter>) {
    forall filter :: filter in filters ==> Paired(filter)
  }

  lemma {:induction false} EffectiveFacts(filters: seq<Filter>)
    ensures forall filter :: filter in Effective(filters) <==> filter in filters && filter.literals != []
  {
    if filters != [] {
      EffectiveFacts(filters[1..]);
    }
  }

  /** The conjunction of all filters. */
  function AllTrees(filters: seq<Filter>): Conj
    requires filters != [] && forall filter :: filter in filters ==> filter.literals != [] && Paired(filter)
  {
    assert filters[0] in filters;
    if |filters| == 1 then Tree(filters[0]) else Append(Tree(filters[0]), AllTrees(filters[1..]))
  }

  lemma {:induction false} AppendAssociates(a: Conj, b: Conj, c: Conj)
    ensures Append(Append(a, b), c) == Append(a, Append(b, c))
  {
    if a.Both? {
      AppendAssociates(a.others, b, c);
    }
  }

  predicate AllEffective(filters: seq<Filter>) {
    forall filter :: filter in filters ==> filter.literals != [] && Paired(filter)
  }

  lemma {:induction false} AllTreesSnoc(filters: seq<Filter>, last: Filter)
    requires filters != [] && AllEffective(filters) && AllEffective([last])
    ensures AllEffective(filters + [last])
    ensures AllTrees(filters + [last]) == Append(AllTrees(filters), Tree(last))
  {
    hide Tree, Append;
    var all := filters + [last];
    assert all[0] == filters[0] && last in [last];
    if |filters| == 1 {
      assert all[1..] == [last];
    } else {
      assert all[1..] == filters[1..] + [last];
      AllTreesSnoc(filters[1..], last);
      AppendAssociates(Tree(filters[0]), AllTrees(filters[1..]), Tree(last));
    }
  }

  lemma {:induction false} FirstTree(filter: Filter)
    requires filter.literals != [] && Paired(filter)
    ensures AllEffective([filter]) && [] + [filter] == [filter] && AllTrees([filter]) == Tree(filter)
  {
  }

  /** Nothing if no filter has values. */
  method GetConditionForFilterItems(filters: seq<Filter>) returns (sql: seq<Token>)
    requires AllPaired(filters)
    ensures forall filter :: filter in Effective(filters) <==> filter in filters && filter.literals != []
    ensures sql == if Effective(filters) == [] then [] else PrintConj(AllTrees(Effective(filters)))
  {
    hide Tree, PrintConj, Append, Effective, AllTrees;
    EffectiveFacts(filters);
    var effective := CullFilters(filters);
    sql := [];
    for i := 0 to |effective|
      invariant AllEffective(effective[..i])
      invariant sql == if i == 0 then [] else PrintConj(AllTrees(effective[..i]))
    {
      assert effective[i] in effective && effective[..i + 1] == effective[..i] + [effective[i]];
      var condition := GetFilterConditionSql(effective[i]);
      if i > 0 {
        AllTreesSnoc(effective[..i], effective[i]);
        PrintAppend(AllTrees(effective[..i]), Tree(effective[i]));
        sql := sql + [And];
      } else {
        FirstTree(effective[0]);
      }
      sql := sql + condition.value;
    }
    assert effective[..|effective|] == effective;
  }

  method CullFilters(filters: seq<Filter>) returns (effective: seq<Filter>)
    ensures effective == Effective(filters)
  {
    effective := [];
    for i := 0 to |filters|
      invariant effective + Effective(filters[i..]) == Effective(filters)
    {
      assert filters[i..][1..] == filters[i + 1..];
      if filters[i].literals != [] {
        effective := effective + [filters[i]];
      }
    }
  }

  lemma {:induction false} AllFromProper(filter: Filter, i: nat)
    requires i < |filter.literals| && Paired(filter)
    ensures ProperConj(AllFrom(filter, i)) && ProperDisj(AnyFrom(filter, i))
    decreases |filter.literals| - i
  {
    if i + 1 < |filter.literals| {
      AllFromProper(filter, i + 1);
    }
  }

  lemma {:induction false} ProperParts(a: Conj, b: Disj)
    requires ProperConj(a)
    ensures ProperDisj(Just(a)) && ProperConj(Wrapped(Just(a)))
    ensures ProperDisj(b) ==> ProperDisj(Either(a, b)) && ProperConj(Wrapped(Either(a, b))) && ProperConj(Wrapped(b))
  {
    assert ProperDisj(Just(a)) && ProperPrim(Group(Just(a)));
    if ProperDisj(b) {
      assert ProperDisj(Either(a, b)) && ProperPrim(Group(Either(a, b))) && ProperPrim(Group(b));
    }
  }

  lemma {:induction false} ValuesTreeProper(rest: Filter, nulls: bool)
    requires rest.literals != [] && Paired(rest)
    ensures ProperConj(ValuesTree(rest, nulls))
  {
    AllFromProper(rest, 0);
    var isNull := Only(Test(rest.column, IsNull));
    assert ProperPrim(isNull.prim) && ProperConj(isNull);
    if rest.kind == Include || rest.kind == Exclude {
      var t := Only(ListTest(rest));
      assert ProperPrim(t.prim) && ProperConj(t);
      ProperParts(t, Just(t));
      ProperParts(isNull, Just(t));
      ProperParts(Wrapped(Either(isNull, Just(t))), Just(t));
      assert ProperPrim(NullTest(rest)) && ProperConj(Both(NullTest(rest), t));
      ProperParts(Both(NullTest(rest), t), Just(t));
    } else {
      var all := AllFrom(rest, 0);
      ProperParts(isNull, AnyFrom(rest, 0));
      ProperParts(all, Just(isNull));
      ProperParts(isNull, Just(isNull));
      ProperParts(Wrapped(Just(all)), Just(isNull));
      assert ProperPrim(NullTest(rest)) && ProperConj(Both(NullTest(rest), all));
    }
  }

  lemma {:induction false} TreeProper(filter: Filter)
    requires filter.literals != [] && Paired(filter)
    ensures ProperConj(Tree(filter))
  {
    if !HasNull(filter.literals) {
      ValuesTreeProper(filter, false);
    } else if Rest(filter).literals != [] {
      ValuesTreeProper(Rest(filter), true);
    } else {
      assert ProperPrim(NullTest(filter));
    }
  }

  lemma {:induction false} AppendProper(a: Conj, b: Conj)
    requires ProperConj(a) && ProperConj(b)
    ensures ProperConj(Append(a, b))
  {
    if a.Both? {
      AppendProper(a.others, b);
    }
  }

  lemma {:induction false} AllTreesProper(filters: seq<Filter>)
    requires filters != [] && forall filter :: filter in filters ==> filter.literals != [] && Paired(filter)
    ensures ProperConj(AllTrees(filters))
  {
    assert filters[0] in filters;
    TreeProper(filters[0]);
    if |filters| > 1 {
      AllTreesProper(filters[1..]);
      AppendProper(Tree(filters[0]), AllTrees(filters[1..]));
    }
  }

  /** The text of all conditions joined by AND is read as the conjunction of the conditions. */
  lemma {:induction false} JoinedConditionsParse(filters: seq<Filter>)
    requires filters != [] && forall filter :: filter in filters ==> filter.literals != [] && Paired(filter)
    ensures ParseDisj(PrintConj(AllTrees(filters))) == Done(Just(AllTrees(filters)), [])
  {
    AllTreesProper(filters);
    DisjRoundTrip(Just(AllTrees(filters)), []);
    assert PrintDisj(Just(AllTrees(filters))) + [] == PrintConj(AllTrees(filters));
  }
}
