/** What the caches share.
  *
  * The eviction rule, as a loop would compute it and as its users rely on it, and orders without repeated keys.
  */
module Recency {

  /** Drop the least recently used entry (the first) until the rest fits or nothing is left. */
  function Survivors<T>(order: seq<T>, fits: seq<T> -> bool): seq<T> {
    if order == [] || fits(order) then order else Survivors(order[1..], fits)
  }

  /** The `n` most recent entries. */
  function Latest<T>(order: seq<T>, n: nat): seq<T>
    requires n <= |order|
  {
    order[|order| - n..]
  }

  /** `kept` is the longest suffix of `order` that fits; it is empty when no suffix does. */
  ghost predicate LongestFittingSuffix<T>(order: seq<T>, fits: seq<T> -> bool, kept: seq<T>) {
    && |kept| <= |order| && kept == Latest(order, |kept|)
    && (kept == [] || fits(kept))
    && forall n: nat :: |kept| < n <= |order| ==> !fits(Latest(order, n))
  }

  lemma {:induction false} SurvivorsAreLongest<T>(order: seq<T>, fits: seq<T> -> bool)
    ensures LongestFittingSuffix(order, fits, Survivors(order, fits))
  {
    assert Latest(order, |order|) == order;
    if order != [] && !fits(order) {
      SurvivorsAreLongest(order[1..], fits);
      assert forall n: nat :: n < |order| ==> Latest(order, n) == Latest(order[1..], n);
    }
  }

  /** The specification leaves no choice. */
  lemma {:induction false} LongestIsUnique<T>(order: seq<T>, fits: seq<T> -> bool, kept: seq<T>)
    requires LongestFittingSuffix(order, fits, kept)
    ensures kept == Survivors(order, fits)
  {
    SurvivorsAreLongest(order, fits);
  }

  /** An entry that fits on its own and comes last is never evicted. */
  lemma {:induction false} LastSurvives<T>(order: seq<T>, fits: seq<T> -> bool)
    requires order != [] && fits([order[|order| - 1]])
    ensures var kept := Survivors(order, fits);
            kept != [] && kept[|kept| - 1] == order[|order| - 1]
  {
    SurvivorsAreLongest(order, fits);
    assert Latest(order, 1) == [order[|order| - 1]];
  }

  ghost predicate NoDuplicates(s: seq<nat>) {
    s != [] ==> s[0] !in s[1..] && NoDuplicates(s[1..])
  }

  /** `s` without `x`, in the same order. */
  function Without(s: seq<nat>, x: nat): (r: seq<nat>)
    ensures x !in r && forall y :: y in r <==> y in s && y != x
  {
    if s == [] then [] else if s[0] == x then Without(s[1..], x) else [s[0]] + Without(s[1..], x)
  }

  /** `x` becomes the most recent entry. */
  function Touched(s: seq<nat>, x: nat): seq<nat> {
    Without(s, x) + [x]
  }

  lemma {:induction false} WithoutAbsent(s: seq<nat>, x: nat)
    requires x !in s
    ensures Without(s, x) == s
  {
    if s != [] {
      WithoutAbsent(s[1..], x);
    }
  }

  lemma {:induction false} WithoutNoDuplicates(s: seq<nat>, x: nat)
    requires NoDuplicates(s)
    ensures NoDuplicates(Without(s, x))
  {
    if s != [] {
      WithoutNoDuplicates(s[1..], x);
      if s[0] != x {
        assert Without(s, x)[1..] == Without(s[1..], x);
      }
    }
  }

  lemma {:induction false} AppendNoDuplicates(s: seq<nat>, x: nat)
    requires NoDuplicates(s) && x !in s
    ensures NoDuplicates(s + [x])
  {
    if s != [] {
      AppendNoDuplicates(s[1..], x);
      assert (s + [x])[1..] == s[1..] + [x];
    }
  }

  lemma {:induction false} TouchedNoDuplicates(s: seq<nat>, x: nat)
    requires NoDuplicates(s)
    ensures NoDuplicates(Touched(s, x))
  {
    WithoutNoDuplicates(s, x);
    AppendNoDuplicates(Without(s, x), x);
  }

  lemma {:induction false} WithoutPresent(s: seq<nat>, x: nat)
    requires NoDuplicates(s) && x in s
    ensures |Without(s, x)| == |s| - 1
    ensures s[0] == x ==> Without(s, x) == s[1..]
  {
    if s[0] == x {
      WithoutAbsent(s[1..], x);
    } else {
      WithoutPresent(s[1..], x);
    }
  }
}
