/** Numbering the cells of a pivot table: getCellIndex and getTupleRanges of src/DataSet/CellSet.js. */
module CellNumbering {
  import opened ClientCache

  /** What the numbering reads of an axis: how many tuples it has, as far as that is known, and whether items are on
    * it. */
  datatype TupleSet = TupleSet(count: Count, hasItems: bool)

  /** A missing count, one that is not a number, and a count of zero are alike to the source. */
  predicate Countless(t: TupleSet) {
    !t.count.Known? || t.count.value == 0
  }

  /** The factor that an axis gives to the axes before it. */
  function Radix(t: TupleSet): int {
    if Countless(t) then 1 else t.count.value
  }

  function Product(sets: seq<TupleSet>): int {
    if sets == [] then 1 else Radix(sets[0]) * Product(sets[1..])
  }

  /** Mixed radix: every coordinate counts as many cells as the axes after it hold. */
  function Index(sets: seq<TupleSet>, at: seq<nat>): int
    requires |at| == |sets|
  {
    if sets == [] then 0 else at[0] * Product(sets[1..]) + Index(sets[1..], at[1..])
  }

  method GetCellIndex(sets: seq<TupleSet>, at: seq<nat>) returns (cellIndex: int)
    requires |at| == |sets|
    ensures cellIndex == Index(sets, at)
  {
    cellIndex := 0;
    for i := 0 to |sets|
      invariant cellIndex + Index(sets[i..], at[i..]) == Index(sets, at)
    {
      var factor: int := at[i];
      for j := i + 1 to |sets|
        invariant factor * Product(sets[j..]) == at[i] * Product(sets[i + 1..])
      {
        ProductFrom(sets, j, factor);
        if !Countless(sets[j]) {
          factor := factor * sets[j].count.value;
        }
      }
      IndexFrom(sets, at, i);
      cellIndex := cellIndex + factor;
    }
  }

  lemma {:induction false} ProductFrom(sets: seq<TupleSet>, j: nat, factor: int)
    requires j < |sets|
    ensures factor * Product(sets[j..]) == (factor * Radix(sets[j])) * Product(sets[j + 1..])
  {
    assert sets[j..][1..] == sets[j + 1..];
  }

  lemma {:induction false} IndexFrom(sets: seq<TupleSet>, at: seq<nat>, i: nat)
    requires i < |sets| == |at|
    ensures Index(sets[i..], at[i..]) == at[i] * Product(sets[i + 1..]) + Index(sets[i + 1..], at[i + 1..])
  {
    assert sets[i..][1..] == sets[i + 1..] && at[i..][1..] == at[i + 1..];
  }

  // ---------------------------------------------------------------- enumerating ranges

  datatype Range = Range(from: nat, to: nat)

  /** How many tuples an axis has to offer; an axis without items offers one, an uncounted axis no limit. */
  function Limit(t: TupleSet): Count {
    if Countless(t) && !t.hasItems then Known(1) else t.count
  }

  function End(t: TupleSet, range: Range): int {
    var to := if range.from == 0 && range.to == 0 then 1 else range.to;
    if Limit(t).Known? && to > Limit(t).value then Limit(t).value else to
  }

  /** All coordinates that the ranges stand for, the last axis running fastest. */
  function Coordinates(sets: seq<TupleSet>, ranges: seq<Range>): seq<seq<nat>>
    requires |ranges| == |sets|
    decreases |sets|, 1, 0
  {
    if sets == [] then [[]] else Slices(sets, ranges, ranges[0].from)
  }

  function Slices(sets: seq<TupleSet>, ranges: seq<Range>, i: nat): seq<seq<nat>>
    requires |ranges| == |sets| && sets != []
    decreases |sets|, 0, if i < End(sets[0], ranges[0]) then End(sets[0], ranges[0]) - i else 0
  {
    if i >= End(sets[0], ranges[0]) then []
    else Prefixed([i], Coordinates(sets[1..], ranges[1..])) + Slices(sets, ranges, i + 1)
  }

  function Prefixed(prefix: seq<nat>, all: seq<seq<nat>>): seq<seq<nat>> {
    if all == [] then [] else [prefix + all[0]] + Prefixed(prefix, all[1..])
  }

  lemma {:induction false} PrefixedConcat(prefix: seq<nat>, a: seq<seq<nat>>, b: seq<seq<nat>>)
    ensures Prefixed(prefix, a + b) == Prefixed(prefix, a) + Prefixed(prefix, b)
  {
    if a == [] {
      assert a + b == b;
    } else {
      PrefixedConcat(prefix, a[1..], b);
      assert (a + b)[1..] == a[1..] + b && (a + b)[0] == a[0];
      var first, others, last := [prefix + a[0]], Prefixed(prefix, a[1..]), Prefixed(prefix, b);
      assert first + (others + last) == (first + others) + last;
    }
  }

  lemma {:induction false} PrefixedTwice(p: seq<nat>, q: seq<nat>, all: seq<seq<nat>>)
    ensures Prefixed(p, Prefixed(q, all)) == Prefixed(p + q, all)
  {
    if all != [] {
      PrefixedTwice(p, q, all[1..]);
      assert p + (q + all[0]) == (p + q) + all[0];
    }
  }

  lemma {:induction false} PrefixedByNothing(all: seq<seq<nat>>)
    ensures Prefixed([], all) == all
  {
    if all != [] {
      PrefixedByNothing(all[1..]);
      assert [] + all[0] == all[0];
    }
  }

  /** The array that every level of the recursion pushes into. */
  class Collector {
    var ranges: seq<seq<nat>>

    constructor ()
      ensures ranges == []
    {
      ranges := [];
    }

    method Push(at: seq<nat>)
      modifies this
      ensures ranges == old(ranges) + [at]
    {
      ranges := ranges + [at];
    }
  }

  /** `ranges` are for the last axes, `rest`, and `previous` holds a coordinate for every axis before them. */
  method CollectRanges(sets: seq<TupleSet>, ranges: seq<Range>, previous: seq<nat>, all: Collector,
                       ghost rest: seq<TupleSet>)
    requires |ranges| <= |sets| && rest == sets[|sets| - |ranges|..]
    modifies all
    ensures all.ranges == old(all.ranges) + Prefixed(previous, Coordinates(rest, ranges))
    decreases |ranges|
  {
    if |ranges| == 0 {
      all.Push(previous);
      assert previous + [] == previous;
      return;
    }
    var tupleSet := sets[|sets| - |ranges|];
    var toTuple := GetEnd(tupleSet, ranges[0]);
    var i: nat := ranges[0].from;
    var later := ranges[1..];
    assert rest[0] == tupleSet && rest[1..] == sets[|sets| - |later|..];
    NoSlices(rest, ranges);
    hide End, Prefixed, Slices;
    while i < toTuple
      invariant all.ranges + Prefixed(previous, Slices(rest, ranges, i))
             == old(all.ranges) + Prefixed(previous, Coordinates(rest, ranges))
      decreases if i < toTuple then toTuple - i else 0
    {
      hide Coordinates;
      ghost var now := all.ranges;
      CollectRanges(sets, later, previous + [i], all, rest[1..]);
      OneSlice(rest, ranges, previous, i);
      ghost var slice := Prefixed(previous + [i], Coordinates(rest[1..], later));
      assert now + (slice + Prefixed(previous, Slices(rest, ranges, i + 1)))
          == (now + slice) + Prefixed(previous, Slices(rest, ranges, i + 1));
      i := i + 1;
    }
    assert Prefixed(previous, []) == [] by {
      NothingPrefixed(previous);
    }
  }

  lemma {:induction false} NothingPrefixed(prefix: seq<nat>)
    ensures Prefixed(prefix, []) == []
  {
  }

  lemma {:induction false} NoSlices(sets: seq<TupleSet>, ranges: seq<Range>)
    requires |ranges| == |sets| && sets != []
    ensures forall i: nat :: i >= End(sets[0], ranges[0]) ==> Slices(sets, ranges, i) == []
  {
  }

  lemma {:induction false} OneSlice(sets: seq<TupleSet>, ranges: seq<Range>, previous: seq<nat>, i: nat)
    requires |ranges| == |sets| && sets != [] && i < End(sets[0], ranges[0])
    ensures Prefixed(previous, Slices(sets, ranges, i))
         == Prefixed(previous + [i], Coordinates(sets[1..], ranges[1..]))
            + Prefixed(previous, Slices(sets, ranges, i + 1))
  {
    PrefixedConcat(previous, Prefixed([i], Coordinates(sets[1..], ranges[1..])), Slices(sets, ranges, i + 1));
    PrefixedTwice(previous, [i], Coordinates(sets[1..], ranges[1..]));
  }

  method GetEnd(tupleSet: TupleSet, range: Range) returns (toTuple: int)
    ensures toTuple == End(tupleSet, range)
  {
    var tupleCount := tupleSet.count;
    if Countless(tupleSet) && !tupleSet.hasItems {
      tupleCount := Known(1);
    }
    toTuple := range.to;
    if range.from == 0 && toTuple == 0 {
      toTuple := 1;
    }
    if tupleCount.Known? && toTuple > tupleCount.value {
      toTuple := tupleCount.value;
    }
  }

  method GetTupleRanges(sets: seq<TupleSet>, ranges: seq<Range>) returns (all: seq<seq<nat>>)
    requires |ranges| == |sets|
    ensures all == Coordinates(sets, ranges)
  {
    var collector := new Collector();
    CollectRanges(sets, ranges, [], collector, sets);
    PrefixedByNothing(Coordinates(sets, ranges));
    return collector.ranges;
  }

  // ---------------------------------------------------------------- numbering is a bijection

  /** The axis has a limit, so that the numbers of its tuples fit its radix. */
  predicate Bounded(t: TupleSet) {
    Limit(t).Known?
  }

  /** A coordinate that exists. */
  predicate Exists(sets: seq<TupleSet>, at: seq<nat>) {
    |at| == |sets|
    && forall k :: 0 <= k < |sets| ==> Limit(sets[k]).Known? && at[k] < Limit(sets[k]).value
  }

  /** The coordinates that a cell number came from. */
  function Decode(sets: seq<TupleSet>, n: nat): (at: seq<nat>)
    ensures |at| == |sets|
  {
    if sets == [] then []
    else
      var below := Product(sets[1..]);
      if below <= 0 then [0] + Decode(sets[1..], 0)
      else
        var (q, r) := Split(n, below);
        [q] + Decode(sets[1..], r)
  }

  function Split(n: nat, d: nat): (r: (nat, nat))
    requires d > 0
    ensures r.0 == n / d && r.1 == n % d
  {
    (n / d, n % d)
  }

  lemma {:induction false} Gap(x: nat, y: nat, d: nat)
    ensures x < y ==> x * d + d <= y * d
  {
    if x < y {
      assert x * d + d == (x + 1) * d <= y * d;
    }
  }

  lemma {:induction false} Digit(a: nat, b: nat, radix: nat, below: nat)
    requires a < radix && b < below
    ensures a * below + b < radix * below
    ensures (a * below + b) / below == a && (a * below + b) % below == b
  {
    var n := a * below + b;
    assert n == (n / below) * below + n % below;
    Gap(n / below, a, below);
    Gap(a, n / below, below);
    Gap(a, radix, below);
  }

  lemma {:induction false} Undigit(n: nat, radix: nat, below: nat)
    requires below > 0 && n < radix * below
    ensures n / below < radix && n == (n / below) * below + n % below
  {
    assert n == (n / below) * below + n % below;
    Gap(radix, n / below, below);
  }

  /** The count is not negative, as one taken from a column may be. */
  predicate Sound(t: TupleSet) {
    t.count.Known? ==> t.count.value >= 0
  }

  lemma {:induction false} ProductIsPositive(sets: seq<TupleSet>)
    requires forall t :: t in sets ==> Sound(t)
    ensures Product(sets) > 0
  {
    if sets != [] {
      assert Sound(sets[0]);
      ProductIsPositive(sets[1..]);
    }
  }

  lemma {:induction false} ExistsIsSound(sets: seq<TupleSet>, at: seq<nat>)
    requires Exists(sets, at)
    ensures Product(sets) > 0 && forall t :: t in sets ==> Sound(t)
  {
    forall k | 0 <= k < |sets|
      ensures Sound(sets[k])
    {
      assert at[k] < Limit(sets[k]).value;
    }
    ProductIsPositive(sets);
  }

  lemma {:induction false} DecodeUndoesIndex(sets: seq<TupleSet>, at: seq<nat>)
    requires Exists(sets, at)
    ensures 0 <= Index(sets, at) < Product(sets) && Decode(sets, Index(sets, at)) == at
  {
    ExistsIsSound(sets, at);
    if sets != [] {
      var below, inner := Product(sets[1..]), Index(sets[1..], at[1..]);
      DecodeUndoesIndex(sets[1..], at[1..]);
      assert at[0] < Limit(sets[0]).value && Radix(sets[0]) == Limit(sets[0]).value;
      assert Index(sets, at) == at[0] * below + inner && Product(sets) == Radix(sets[0]) * below;
      Digit(at[0], inner, Radix(sets[0]), below);
      assert [at[0]] + at[1..] == at;
      hide Index, Product, Exists, Limit, Radix;
    }
  }

  /** Every axis has a limit, and tuples up to there. */
  ghost predicate AllBounded(sets: seq<TupleSet>) {
    forall t :: t in sets ==> Bounded(t) && Limit(t).value > 0 && Sound(t)
  }

  lemma {:induction false} IndexUndoesDecode(sets: seq<TupleSet>, n: nat)
    requires AllBounded(sets) && n < Product(sets)
    ensures Exists(sets, Decode(sets, n)) && Index(sets, Decode(sets, n)) == n
  {
    if sets != [] {
      var below := Product(sets[1..]);
      assert sets[0] in sets && forall t :: t in sets[1..] ==> t in sets;
      ProductIsPositive(sets[1..]);
      IndexUndoesDecode(sets[1..], n % below);
      Undigit(n, Radix(sets[0]), below);
      assert sets[0] in sets;
      var rest := Decode(sets[1..], n % below);
      assert ([n / below] + rest)[1..] == rest;
    }
  }

  /** No two cells share a number. */
  lemma {:induction false} NumbersAreUnique(sets: seq<TupleSet>, a: seq<nat>, b: seq<nat>)
    requires Exists(sets, a) && Exists(sets, b)
    ensures Index(sets, a) == Index(sets, b) <==> a == b
  {
    DecodeUndoesIndex(sets, a);
    DecodeUndoesIndex(sets, b);
  }

  // ---------------------------------------------------------------- enumeration follows the numbers

  function Numbers(sets: seq<TupleSet>, all: seq<seq<nat>>): seq<int>
    requires forall at :: at in all ==> |at| == |sets|
  {
    if all == [] then [] else [Index(sets, all[0])] + Numbers(sets, all[1..])
  }

  /** The numbers climb, from `lo` on and below `hi`. */
  predicate Climbs(numbers: seq<int>, lo: int, hi: int) {
    numbers == [] || (lo <= numbers[0] < hi && Climbs(numbers[1..], numbers[0] + 1, hi))
  }

  lemma {:induction false} ClimbsWider(numbers: seq<int>, lo: int, hi: int, less: int, more: int)
    requires Climbs(numbers, lo, hi) && less <= lo && hi <= more
    ensures Climbs(numbers, less, more)
  {
    if numbers != [] {
      ClimbsWider(numbers[1..], numbers[0] + 1, hi, numbers[0] + 1, more);
    }
  }

  lemma {:induction false} ClimbsOn(a: seq<int>, b: seq<int>, lo: int, mid: int, hi: int)
    requires Climbs(a, lo, mid) && Climbs(b, mid, hi) && lo <= mid <= hi
    ensures Climbs(a + b, lo, hi)
  {
    if a == [] {
      assert a + b == b;
      ClimbsWider(b, mid, hi, lo, hi);
    } else {
      ClimbsOn(a[1..], b, a[0] + 1, mid, hi);
      assert (a + b)[1..] == a[1..] + b;
    }
  }

  /** As many climbing numbers as fit are all the numbers in between. */
  lemma {:induction false} FullClimb(numbers: seq<int>, lo: int, hi: int)
    requires Climbs(numbers, lo, hi) && lo <= hi
    ensures |numbers| <= hi - lo
    ensures |numbers| == hi - lo ==> forall k :: 0 <= k < |numbers| ==> numbers[k] == lo + k
  {
    if numbers != [] {
      FullClimb(numbers[1..], numbers[0] + 1, hi);
    }
  }

  lemma {:induction false} CoordinateLengths(sets: seq<TupleSet>, ranges: seq<Range>)
    requires |ranges| == |sets|
    ensures forall at :: at in Coordinates(sets, ranges) ==> |at| == |sets|
    decreases |sets|, 1, 0
  {
    if sets != [] {
      SliceLengths(sets, ranges, ranges[0].from);
    }
  }

  lemma {:induction false} SliceLengths(sets: seq<TupleSet>, ranges: seq<Range>, i: nat)
    requires |ranges| == |sets| && sets != []
    ensures forall at :: at in Slices(sets, ranges, i) ==> |at| == |sets|
    decreases |sets|, 0, if i < End(sets[0], ranges[0]) then End(sets[0], ranges[0]) - i else 0
  {
    if i < End(sets[0], ranges[0]) {
      CoordinateLengths(sets[1..], ranges[1..]);
      PrefixedLengths(i, Coordinates(sets[1..], ranges[1..]), |sets| - 1);
      SliceLengths(sets, ranges, i + 1);
    }
  }

  lemma {:induction false} PrefixedLengths(i: nat, all: seq<seq<nat>>, n: nat)
    requires forall at :: at in all ==> |at| == n
    ensures |Prefixed([i], all)| == |all| && forall at :: at in Prefixed([i], all) ==> |at| == n + 1
  {
    if all != [] {
      PrefixedLengths(i, all[1..], n);
    }
  }

  lemma {:induction false} NumbersConcat(sets: seq<TupleSet>, a: seq<seq<nat>>, b: seq<seq<nat>>)
    requires forall at :: at in a || at in b ==> |at| == |sets|
    ensures (forall at :: at in a + b ==> |at| == |sets|) && Numbers(sets, a + b) == Numbers(sets, a) + Numbers(sets, b)
  {
    assert forall at :: at in a + b ==> |at| == |sets|;
    if a == [] {
      assert a + b == b;
    } else {
      assert forall at :: at in a[1..] ==> at in a;
      NumbersConcat(sets, a[1..], b);
      assert (a + b)[1..] == a[1..] + b;
    }
  }

  /** The cells of one tuple of the first axis lie in their own stretch of numbers. */
  lemma {:induction false} PrefixedClimbs(sets: seq<TupleSet>, i: nat, all: seq<seq<nat>>, lo: int, hi: int)
    requires sets != [] && forall at :: at in all ==> |at| == |sets| - 1
    requires forall at :: at in Prefixed([i], all) ==> |at| == |sets|
    requires Climbs(Numbers(sets[1..], all), lo, hi)
    ensures Climbs(Numbers(sets, Prefixed([i], all)), i * Product(sets[1..]) + lo, i * Product(sets[1..]) + hi)
  {
    if all != [] {
      assert ([i] + all[0])[1..] == all[0];
      assert [i] + all[0] in Prefixed([i], all);
      PrefixedClimbs(sets, i, all[1..], Index(sets[1..], all[0]) + 1, hi);
    }
  }

  /** The numbers of the enumerated cells climb strictly, on whatever ranges: no cell comes twice, and the order
    * is that of the numbers. The first axis may be uncounted. */
  lemma {:induction false} EnumerationClimbs(sets: seq<TupleSet>, ranges: seq<Range>)
    requires |ranges| == |sets| && forall t :: t in sets[if sets == [] then 0 else 1..] ==> Bounded(t)
    ensures forall at :: at in Coordinates(sets, ranges) ==> |at| == |sets|
    ensures Climbs(Numbers(sets, Coordinates(sets, ranges)), 0,
                   if sets == [] then 1 else End(sets[0], ranges[0]) * Product(sets[1..]))
    decreases |sets|, 1, 0
  {
    CoordinateLengths(sets, ranges);
    if !AllOffer(sets, ranges) {
      NoneEnumerated(sets, ranges);
    } else if sets != [] {
      AllOfferIsSound(sets[1..], ranges[1..]);
      SlicesClimb(sets, ranges, ranges[0].from);
      var lo, hi := ranges[0].from * Product(sets[1..]), End(sets[0], ranges[0]) * Product(sets[1..]);
      ClimbsWider(Numbers(sets, Coordinates(sets, ranges)), lo, hi, 0, hi);
    }
  }

  lemma {:induction false} NoneEnumerated(sets: seq<TupleSet>, ranges: seq<Range>)
    requires |ranges| == |sets| && !AllOffer(sets, ranges)
    ensures Coordinates(sets, ranges) == []
  {
    if Coordinates(sets, ranges) != [] {
      var at := Coordinates(sets, ranges)[0];
      EnumeratedIffOffered(sets, ranges, at);
      NoneOffered(sets, ranges, at);
    }
  }

  lemma {:induction false} AllOfferIsSound(sets: seq<TupleSet>, ranges: seq<Range>)
    requires |ranges| == |sets| && AllOffer(sets, ranges)
    ensures Product(sets) > 0
    ensures forall t :: t in sets ==> Sound(t)
  {
    if sets != [] {
      assert Sound(sets[0]);
      AllOfferIsSound(sets[1..], ranges[1..]);
    }
  }

  lemma {:induction false} SlicesClimb(sets: seq<TupleSet>, ranges: seq<Range>, i: nat)
    requires |ranges| == |sets| && sets != [] && forall t :: t in sets[1..] ==> Bounded(t)
    requires AllOffer(sets[1..], ranges[1..])
    ensures forall at :: at in Slices(sets, ranges, i) ==> |at| == |sets|
    ensures i < End(sets[0], ranges[0]) ==>
              Climbs(Numbers(sets, Slices(sets, ranges, i)), i * Product(sets[1..]),
                     End(sets[0], ranges[0]) * Product(sets[1..]))
    decreases |sets|, 0, 2 + if i < End(sets[0], ranges[0]) then End(sets[0], ranges[0]) - i else 0
  {
    SliceLengths(sets, ranges, i);
    var end := End(sets[0], ranges[0]);
    if i < end {
      FirstSliceClimbs(sets, ranges, i);
      SlicesClimb(sets, ranges, i + 1);
      AllOfferIsSound(sets[1..], ranges[1..]);
      SliceClimbsOn(sets, Prefixed([i], Coordinates(sets[1..], ranges[1..])), Slices(sets, ranges, i + 1), i, end);
    }
  }

  lemma {:induction false} SliceClimbsOn(sets: seq<TupleSet>, first: seq<seq<nat>>, others: seq<seq<nat>>, i: nat,
                                         end: nat)
    requires sets != [] && i < end && Product(sets[1..]) > 0
    requires forall at :: at in first || at in others ==> |at| == |sets|
    requires Climbs(Numbers(sets, first), i * Product(sets[1..]), (i + 1) * Product(sets[1..]))
    requires if i + 1 < end then Climbs(Numbers(sets, others), (i + 1) * Product(sets[1..]), end * Product(sets[1..]))
             else others == []
    ensures forall at :: at in first + others ==> |at| == |sets|
    ensures Climbs(Numbers(sets, first + others), i * Product(sets[1..]), end * Product(sets[1..]))
  {
    var below := Product(sets[1..]);
    NumbersConcat(sets, first, others);
    assert i * below <= (i + 1) * below <= end * below by {
      Gap(i, i + 1, below);
      Gap(i + 1, end, below);
    }
    ClimbsOn(Numbers(sets, first), Numbers(sets, others), i * below, (i + 1) * below, end * below);
  }

  lemma {:induction false} FirstSliceClimbs(sets: seq<TupleSet>, ranges: seq<Range>, i: nat)
    requires |ranges| == |sets| && sets != [] && forall t :: t in sets[1..] ==> Bounded(t)
    requires AllOffer(sets[1..], ranges[1..])
    ensures forall at :: at in Prefixed([i], Coordinates(sets[1..], ranges[1..])) ==> |at| == |sets|
    ensures Climbs(Numbers(sets, Prefixed([i], Coordinates(sets[1..], ranges[1..]))),
                   i * Product(sets[1..]), (i + 1) * Product(sets[1..]))
    decreases |sets|, 0, 1
  {
    var inner := Coordinates(sets[1..], ranges[1..]);
    InnerClimbs(sets, ranges);
    PrefixedLengths(i, inner, |sets| - 1);
    PrefixedClimbs(sets, i, inner, 0, Product(sets[1..]));
    assert i * Product(sets[1..]) + Product(sets[1..]) == (i + 1) * Product(sets[1..]);
  }

  lemma {:induction false} InnerClimbs(sets: seq<TupleSet>, ranges: seq<Range>)
    requires |ranges| == |sets| && sets != [] && forall t :: t in sets[1..] ==> Bounded(t)
    requires AllOffer(sets[1..], ranges[1..])
    ensures forall at :: at in Coordinates(sets[1..], ranges[1..]) ==> |at| == |sets| - 1
    ensures Climbs(Numbers(sets[1..], Coordinates(sets[1..], ranges[1..])), 0, Product(sets[1..]))
    decreases |sets|, 0, 0
  {
    var rest, inner := sets[1..], ranges[1..];
    EnumerationClimbs(rest, inner);
    if rest != [] {
      assert rest[0] in sets[1..];
      AllOfferIsSound(rest[1..], inner[1..]);
      var end, below := End(rest[0], inner[0]), Product(rest[1..]);
      assert end <= Radix(rest[0]) && Bounded(rest[0]);
      assert end * below <= Radix(rest[0]) * below by {
        Spread(end, Radix(rest[0]) - end, below);
      }
      ClimbsWider(Numbers(rest, Coordinates(rest, inner)), 0, end * below, 0, Product(rest));
    }
  }

  // ---------------------------------------------------------------- full ranges

  /** The range covers the whole axis. */
  predicate Covers(t: TupleSet, range: Range) {
    Bounded(t) && range.from == 0 && End(t, range) == Limit(t).value
  }

  /** How many cells there are. */
  function Cells(sets: seq<TupleSet>): int
    requires forall t :: t in sets ==> Bounded(t)
  {
    if sets == [] then 1
    else
      assert Bounded(sets[0]) by { assert sets[0] in sets; }
      Limit(sets[0]).value * Cells(sets[1..])
  }

  lemma {:induction false} FullCount(sets: seq<TupleSet>, ranges: seq<Range>)
    requires |ranges| == |sets| && AllOffer(sets, ranges)
    requires forall k :: 0 <= k < |sets| ==> Covers(sets[k], ranges[k])
    ensures forall t :: t in sets ==> Bounded(t)
    ensures |Coordinates(sets, ranges)| == Cells(sets) == Product(sets)
    decreases |sets|, 1, 0
  {
    if sets != [] {
      assert Covers(sets[0], ranges[0]);
      FullCount(sets[1..], ranges[1..]);
      SliceCount(sets, ranges, 0);
    }
  }

  lemma {:induction false} SliceCount(sets: seq<TupleSet>, ranges: seq<Range>, i: nat)
    requires |ranges| == |sets| && sets != [] && i <= End(sets[0], ranges[0])
    ensures |Slices(sets, ranges, i)| == (End(sets[0], ranges[0]) - i) * |Coordinates(sets[1..], ranges[1..])|
    decreases |sets|, 0, End(sets[0], ranges[0]) - i
  {
    var n, each := End(sets[0], ranges[0]) - i, |Coordinates(sets[1..], ranges[1..])|;
    if n > 0 {
      SliceStep(sets, ranges, i);
      SliceCount(sets, ranges, i + 1);
      Distribute(n, each);
    }
  }

  lemma {:induction false} SliceStep(sets: seq<TupleSet>, ranges: seq<Range>, i: nat)
    requires |ranges| == |sets| && sets != [] && i < End(sets[0], ranges[0])
    ensures |Slices(sets, ranges, i)| == |Coordinates(sets[1..], ranges[1..])| + |Slices(sets, ranges, i + 1)|
  {
    CoordinateLengths(sets[1..], ranges[1..]);
    PrefixedLengths(i, Coordinates(sets[1..], ranges[1..]), |sets| - 1);
  }

  lemma {:induction false} Distribute(n: nat, c: nat)
    requires n > 0
    ensures n * c == c + (n - 1) * c
  {
  }

  /** The n-th cell enumerated on full ranges has number n, and all numbers are used. */
  lemma {:induction false} FullRangesCountUp(sets: seq<TupleSet>, ranges: seq<Range>, n: nat)
    requires |ranges| == |sets| && forall k :: 0 <= k < |sets| ==> Covers(sets[k], ranges[k])
    requires n < |Coordinates(sets, ranges)|
    ensures |Coordinates(sets, ranges)| == Product(sets)
    ensures |Coordinates(sets, ranges)[n]| == |sets| && Index(sets, Coordinates(sets, ranges)[n]) == n
  {
    if !AllOffer(sets, ranges) {
      NoneEnumerated(sets, ranges);
    }
    FullCount(sets, ranges);
    EnumerationClimbs(sets, ranges);
    NumbersAt(sets, Coordinates(sets, ranges), n);
    if sets != [] {
      assert Covers(sets[0], ranges[0]) && Limit(sets[0]).value != 0;
      assert Radix(sets[0]) == End(sets[0], ranges[0]);
    }
    FullClimb(Numbers(sets, Coordinates(sets, ranges)), 0, Product(sets));
  }

  lemma {:induction false} NumbersAt(sets: seq<TupleSet>, all: seq<seq<nat>>, n: nat)
    requires (forall at :: at in all ==> |at| == |sets|) && n < |all|
    ensures |Numbers(sets, all)| == |all| && Numbers(sets, all)[n] == Index(sets, all[n])
  {
    if all[1..] != [] {
      NumbersAt(sets, all[1..], if n == 0 then 0 else n - 1);
    }
  }

  // ---------------------------------------------------------------- when numbers collide

  /** How many tuples of an axis a range stands for. */
  function Offered(t: TupleSet, range: Range): nat {
    if range.from < End(t, range) then End(t, range) - range.from else 0
  }

  ghost predicate Offers(sets: seq<TupleSet>, ranges: seq<Range>, at: seq<nat>)
    requires |ranges| == |sets|
  {
    |at| == |sets| && forall k :: 0 <= k < |sets| ==> ranges[k].from <= at[k] < End(sets[k], ranges[k])
  }

  lemma {:induction false} PrefixedMembers(i: nat, all: seq<seq<nat>>, at: seq<nat>)
    ensures at in Prefixed([i], all) <==> at != [] && at[0] == i && at[1..] in all
  {
    if all != [] {
      PrefixedMembers(i, all[1..], at);
      assert ([i] + all[0])[1..] == all[0];
      if at != [] {
        assert at == [at[0]] + at[1..];
      }
    }
  }

  lemma {:induction false} SlicesMembers(sets: seq<TupleSet>, ranges: seq<Range>, i: nat, at: seq<nat>)
    requires |ranges| == |sets| && sets != []
    ensures at in Slices(sets, ranges, i) <==>
      at != [] && i <= at[0] < End(sets[0], ranges[0]) && at[1..] in Coordinates(sets[1..], ranges[1..])
    decreases if i < End(sets[0], ranges[0]) then End(sets[0], ranges[0]) - i else 0
  {
    if i < End(sets[0], ranges[0]) {
      PrefixedMembers(i, Coordinates(sets[1..], ranges[1..]), at);
      SlicesMembers(sets, ranges, i + 1, at);
    }
  }

  /** The cells enumerated are those with a coordinate in every range. */
  lemma {:induction false} EnumeratedIffOffered(sets: seq<TupleSet>, ranges: seq<Range>, at: seq<nat>)
    requires |ranges| == |sets|
    ensures at in Coordinates(sets, ranges) <==> Offers(sets, ranges, at)
  {
    if sets != [] {
      SlicesMembers(sets, ranges, ranges[0].from, at);
      if at != [] {
        EnumeratedIffOffered(sets[1..], ranges[1..], at[1..]);
        OffersStep(sets, ranges, at);
      }
    }
  }

  lemma {:induction false} OffersStep(sets: seq<TupleSet>, ranges: seq<Range>, at: seq<nat>)
    requires |ranges| == |sets| && sets != [] && at != []
    ensures Offers(sets, ranges, at) <==>
      ranges[0].from <= at[0] < End(sets[0], ranges[0]) && Offers(sets[1..], ranges[1..], at[1..])
  {
    if Offers(sets[1..], ranges[1..], at[1..]) && ranges[0].from <= at[0] < End(sets[0], ranges[0]) {
      forall k | 0 <= k < |sets|
        ensures ranges[k].from <= at[k] < End(sets[k], ranges[k])
      {
        if k > 0 {
          assert ranges[1..][k - 1] == ranges[k] && at[1..][k - 1] == at[k] && sets[1..][k - 1] == sets[k];
        }
      }
    }
  }

  /** A range stands for the tuples from its first to the one before its end, the range from 0 to 0 for the first one.
    * A count that is known and not zero limits them. An axis that is counted empty has nothing to offer, unless no
    * items are on it: then it has the one coordinate 0, and so if it is not counted. */
  predicate StandsFor(t: TupleSet, range: Range, i: nat) {
    && range.from <= i
    && (i < range.to || (range.from == 0 && range.to == 0 && i == 0))
    && (t.count.Known? && t.count.value != 0 ==> i < t.count.value)
    && (t.hasItems ==> t.count != Known(0))
    && (!t.hasItems && (!t.count.Known? || t.count.value == 0) ==> i == 0)
  }

  /** A cell is enumerated exactly if it has one coordinate for every axis, and the range of each axis stands for it. */
  lemma {:induction false} EnumeratedExactly(sets: seq<TupleSet>, ranges: seq<Range>, at: seq<nat>)
    requires |ranges| == |sets|
    ensures at in Coordinates(sets, ranges) <==>
      |at| == |sets| && forall k :: 0 <= k < |sets| ==> StandsFor(sets[k], ranges[k], at[k])
  {
    EnumeratedIffOffered(sets, ranges, at);
    if |at| == |sets| {
      assert forall k :: 0 <= k < |sets| ==>
        (StandsFor(sets[k], ranges[k], at[k]) <==> ranges[k].from <= at[k] < End(sets[k], ranges[k]));
    }
  }

  /** Up to some axis the two cells agree, and there the first one is earlier. */
  ghost predicate Precedes(a: seq<nat>, b: seq<nat>) {
    exists k: nat :: k < |a| && k < |b| && a[..k] == b[..k] && a[k] < b[k]
  }

  ghost predicate InOrder(all: seq<seq<nat>>) {
    forall n, m :: 0 <= n < m < |all| ==> Precedes(all[n], all[m])
  }

  lemma {:induction false} PrefixedAt(i: nat, all: seq<seq<nat>>, n: nat)
    requires n < |all|
    ensures |Prefixed([i], all)| == |all| && Prefixed([i], all)[n] == [i] + all[n]
  {
    if n > 0 {
      PrefixedAt(i, all[1..], n - 1);
    } else if |all| > 1 {
      PrefixedAt(i, all[1..], 0);
    }
  }

  lemma {:induction false} PrefixedInOrder(i: nat, all: seq<seq<nat>>)
    requires InOrder(all)
    ensures InOrder(Prefixed([i], all))
  {
    var r := Prefixed([i], all);
    if all != [] {
      PrefixedAt(i, all, 0);
    }
    forall n, m | 0 <= n < m < |r|
      ensures Precedes(r[n], r[m])
    {
      PrefixedAt(i, all, n);
      PrefixedAt(i, all, m);
      var k: nat :| k < |all[n]| && k < |all[m]| && all[n][..k] == all[m][..k] && all[n][k] < all[m][k];
      assert r[n][..k + 1] == [i] + all[n][..k] && r[m][..k + 1] == [i] + all[m][..k];
      assert r[n][k + 1] < r[m][k + 1];
    }
  }

  lemma {:induction false} SlicesInOrder(sets: seq<TupleSet>, ranges: seq<Range>, i: nat)
    requires |ranges| == |sets| && sets != [] && InOrder(Coordinates(sets[1..], ranges[1..]))
    ensures InOrder(Slices(sets, ranges, i))
    decreases if i < End(sets[0], ranges[0]) then End(sets[0], ranges[0]) - i else 0
  {
    if i < End(sets[0], ranges[0]) {
      var first, others := Prefixed([i], Coordinates(sets[1..], ranges[1..])), Slices(sets, ranges, i + 1);
      PrefixedInOrder(i, Coordinates(sets[1..], ranges[1..]));
      SlicesInOrder(sets, ranges, i + 1);
      forall a, b | a in first && b in others
        ensures Precedes(a, b)
      {
        PrefixedMembers(i, Coordinates(sets[1..], ranges[1..]), a);
        SlicesMembers(sets, ranges, i + 1, b);
        assert a[..0] == b[..0] && a[0] < b[0];
      }
      assert InOrder(first + others);
    }
  }

  /** The cells come in the order of their coordinates, the last axis running fastest, and none comes twice. */
  lemma {:induction false} EnumeratedInOrder(sets: seq<TupleSet>, ranges: seq<Range>)
    requires |ranges| == |sets|
    ensures InOrder(Coordinates(sets, ranges))
  {
    if sets != [] {
      EnumeratedInOrder(sets[1..], ranges[1..]);
      SlicesInOrder(sets, ranges, ranges[0].from);
    }
  }

  /** Where every axis has a limit, what is offered exists. */
  lemma {:induction false} OfferedExists(sets: seq<TupleSet>, ranges: seq<Range>, at: seq<nat>)
    requires |ranges| == |sets| && Offers(sets, ranges, at) && forall k :: 0 <= k < |sets| ==> Bounded(sets[k])
    ensures Exists(sets, at)
  {
    forall k | 0 <= k < |sets|
      ensures at[k] < Limit(sets[k]).value
    {
      assert Bounded(sets[k]) && at[k] < End(sets[k], ranges[k]);
    }
  }

  /** Every axis has something to offer. */
  predicate AllOffer(sets: seq<TupleSet>, ranges: seq<Range>)
    requires |ranges| == |sets|
  {
    sets == [] || (Offered(sets[0], ranges[0]) > 0 && AllOffer(sets[1..], ranges[1..]))
  }

  /** How far apart the first and the last number of the offered cells are. */
  function Span(sets: seq<TupleSet>, ranges: seq<Range>): nat
    requires |ranges| == |sets| && AllOffer(sets, ranges)
  {
    if sets == [] then 0
    else
      AllOfferIsSound(sets[1..], ranges[1..]);
      (Offered(sets[0], ranges[0]) - 1) * Product(sets[1..]) + Span(sets[1..], ranges[1..])
  }

  /** The numbers that the later axes use up fit between two tuples of an axis, wherever it offers two. */
  predicate Apart(sets: seq<TupleSet>, ranges: seq<Range>)
    requires |ranges| == |sets| && AllOffer(sets, ranges)
  {
    sets == []
    || ((Offered(sets[0], ranges[0]) > 1 ==> Span(sets[1..], ranges[1..]) < Product(sets[1..]))
        && Apart(sets[1..], ranges[1..]))
  }

  /** The first cell offered. */
  function Start(ranges: seq<Range>): (at: seq<nat>)
    ensures |at| == |ranges|
  {
    if ranges == [] then [] else [ranges[0].from] + Start(ranges[1..])
  }

  lemma {:induction false} NoneOffered(sets: seq<TupleSet>, ranges: seq<Range>, at: seq<nat>)
    requires |ranges| == |sets| && Offers(sets, ranges, at)
    ensures AllOffer(sets, ranges)
  {
    if sets != [] {
      OffersStep(sets, ranges, at);
      NoneOffered(sets[1..], ranges[1..], at[1..]);
    }
  }

  lemma {:induction false} NumbersInSpan(sets: seq<TupleSet>, ranges: seq<Range>, at: seq<nat>)
    requires |ranges| == |sets| && AllOffer(sets, ranges) && Offers(sets, ranges, at)
    ensures Index(sets, Start(ranges)) <= Index(sets, at) <= Index(sets, Start(ranges)) + Span(sets, ranges)
  {
    if sets != [] {
      OffersStep(sets, ranges, at);
      NumbersInSpan(sets[1..], ranges[1..], at[1..]);
      assert Start(ranges)[1..] == Start(ranges[1..]);
      var from, most, below := ranges[0].from, Offered(sets[0], ranges[0]) - 1, Product(sets[1..]);
      AllOfferIsSound(sets[1..], ranges[1..]);
      Between(from, at[0], most, below);
    }
  }

  lemma {:induction false} Between(from: nat, x: nat, most: nat, d: nat)
    requires from <= x <= from + most
    ensures from * d <= x * d <= from * d + most * d
  {
    assert x * d == from * d + (x - from) * d;
    assert most * d == (x - from) * d + (from + most - x) * d;
  }

  lemma {:induction false} ApartDiffer(sets: seq<TupleSet>, ranges: seq<Range>, a: seq<nat>, b: seq<nat>)
    requires |ranges| == |sets| && AllOffer(sets, ranges) && Apart(sets, ranges)
    requires Offers(sets, ranges, a) && Offers(sets, ranges, b) && Index(sets, a) == Index(sets, b)
    ensures a == b
  {
    if sets != [] {
      OffersStep(sets, ranges, a);
      OffersStep(sets, ranges, b);
      NumbersInSpan(sets[1..], ranges[1..], a[1..]);
      NumbersInSpan(sets[1..], ranges[1..], b[1..]);
      AllOfferIsSound(sets[1..], ranges[1..]);
      Gap(a[0], b[0], Product(sets[1..]));
      Gap(b[0], a[0], Product(sets[1..]));
      assert a[0] == b[0];
      ApartDiffer(sets[1..], ranges[1..], a[1..], b[1..]);
      assert a == [a[0]] + a[1..] && b == [b[0]] + b[1..];
    }
  }

  lemma {:induction false} StartOffered(sets: seq<TupleSet>, ranges: seq<Range>)
    requires |ranges| == |sets| && AllOffer(sets, ranges)
    ensures Offers(sets, ranges, Start(ranges))
  {
    if sets != [] {
      StartOffered(sets[1..], ranges[1..]);
      assert Start(ranges)[1..] == Start(ranges[1..]);
      OffersStep(sets, ranges, Start(ranges));
    }
  }

  /** A tuple of the first axis before a cell of the others. */
  lemma {:induction false} Before(sets: seq<TupleSet>, ranges: seq<Range>, i: nat, rest: seq<nat>)
    requires |ranges| == |sets| && sets != [] && |rest| == |sets| - 1
    ensures Index(sets, [i] + rest) == i * Product(sets[1..]) + Index(sets[1..], rest)
    ensures Offers(sets, ranges, [i] + rest) <==>
      ranges[0].from <= i < End(sets[0], ranges[0]) && Offers(sets[1..], ranges[1..], rest)
  {
    var at := [i] + rest;
    assert at[1..] == rest;
    OffersStep(sets, ranges, at);
  }

  /** A multiple of the axes' product within the span is reached. */
  lemma {:induction false} Reach(sets: seq<TupleSet>, ranges: seq<Range>, c: nat) returns (at: seq<nat>)
    requires |ranges| == |sets| && AllOffer(sets, ranges) && c * Product(sets) <= Span(sets, ranges)
    ensures Offers(sets, ranges, at) && Index(sets, at) == Index(sets, Start(ranges)) + c * Product(sets)
  {
    if sets == [] {
      at := [];
      assert Product([]) == 1 && Span([], []) == 0;
    } else {
      var d, more := Carry(sets, ranges, c);
      hide Index, Offers, Product, Span, Radix, Offered, AllOffer;
      var rest := Reach(sets[1..], ranges[1..], more);
      at := [ranges[0].from + d] + rest;
      FromStart(sets, ranges, d, rest, more * Product(sets[1..]));
    }
  }

  /** What the first axis cannot hold of a multiple is left to the others. */
  lemma {:induction false} Carry(sets: seq<TupleSet>, ranges: seq<Range>, c: nat) returns (d: nat, more: nat)
    requires |ranges| == |sets| && sets != [] && AllOffer(sets, ranges) && c * Product(sets) <= Span(sets, ranges)
    ensures AllOffer(sets[1..], ranges[1..]) && d < Offered(sets[0], ranges[0])
    ensures c * Product(sets) == d * Product(sets[1..]) + more * Product(sets[1..])
    ensures more * Product(sets[1..]) <= Span(sets[1..], ranges[1..])
  {
    assert Radix(sets[0]) > 0;
    var most, n, below := Offered(sets[0], ranges[0]) - 1, c * Radix(sets[0]), Product(sets[1..]);
    assert n >= 0;
    Associates(c, Radix(sets[0]), below);
    d := if n > most then most else n;
    more := n - d;
    Spread(d, more, below);
  }

  lemma {:induction false} Associates(x: int, y: int, z: int)
    ensures x * (y * z) == (x * y) * z
  {
  }

  lemma {:induction false} FromStart(sets: seq<TupleSet>, ranges: seq<Range>, d: nat, rest: seq<nat>, more: int)
    requires |ranges| == |sets| && sets != [] && |rest| == |sets| - 1 && d < Offered(sets[0], ranges[0])
    requires Offers(sets[1..], ranges[1..], rest)
    requires Index(sets[1..], rest) == Index(sets[1..], Start(ranges[1..])) + more
    ensures var at := [ranges[0].from + d] + rest;
      && Offers(sets, ranges, at)
      && Index(sets, at) == Index(sets, Start(ranges)) + d * Product(sets[1..]) + more
  {
    hide Index, Offers, Product;
    var from, below := ranges[0].from, Product(sets[1..]);
    Before(sets, ranges, from + d, rest);
    Before(sets, ranges, from, Start(ranges[1..]));
    assert Start(ranges) == [from] + Start(ranges[1..]);
    Spread(from, d, below);
  }

  lemma {:induction false} Spread(x: int, y: int, d: int)
    ensures (x + y) * d == x * d + y * d
  {
  }

  lemma {:induction false} Collision(sets: seq<TupleSet>, ranges: seq<Range>) returns (a: seq<nat>, b: seq<nat>)
    requires |ranges| == |sets| && AllOffer(sets, ranges) && !Apart(sets, ranges)
    ensures Offers(sets, ranges, a) && Offers(sets, ranges, b) && a != b && Index(sets, a) == Index(sets, b)
  {
    var from := ranges[0].from;
    if !Apart(sets[1..], ranges[1..]) {
      var c, d := Collision(sets[1..], ranges[1..]);
      a, b := [from] + c, [from] + d;
      Before(sets, ranges, from, c);
      Before(sets, ranges, from, d);
      assert a[1..] == c && b[1..] == d;
    } else {
      var far := Reach(sets[1..], ranges[1..], 1);
      StartOffered(sets[1..], ranges[1..]);
      a, b := [from] + far, [from + 1] + Start(ranges[1..]);
      FromStart(sets, ranges, 0, far, Product(sets[1..]));
      FromStart(sets, ranges, 1, Start(ranges[1..]), 0);
      assert a[0] != b[0];
    }
  }

  ghost predicate AllDiffer(sets: seq<TupleSet>, ranges: seq<Range>)
    requires |ranges| == |sets|
  {
    forall a: seq<nat>, b: seq<nat> ::
      (a in Coordinates(sets, ranges) && b in Coordinates(sets, ranges)
       && |a| == |b| == |sets| && Index(sets, a) == Index(sets, b)) ==> a == b
  }

  /** The enumerated cells have different numbers exactly if some axis offers none, or the later axes always fit
    * between two tuples of an earlier one. */
  lemma {:induction false} NumbersDifferIffApart(sets: seq<TupleSet>, ranges: seq<Range>)
    requires |ranges| == |sets|
    ensures AllDiffer(sets, ranges) <==> (AllOffer(sets, ranges) ==> Apart(sets, ranges))
  {
    if AllOffer(sets, ranges) && !Apart(sets, ranges) {
      var a, b := Collision(sets, ranges);
      EnumeratedIffOffered(sets, ranges, a);
      EnumeratedIffOffered(sets, ranges, b);
    } else {
      forall a: seq<nat>, b: seq<nat>
        | a in Coordinates(sets, ranges) && b in Coordinates(sets, ranges) && |a| == |b| == |sets|
          && Index(sets, a) == Index(sets, b)
        ensures a == b
      {
        EnumeratedIffOffered(sets, ranges, a);
        EnumeratedIffOffered(sets, ranges, b);
        NoneOffered(sets, ranges, a);
        ApartDiffer(sets, ranges, a, b);
      }
    }
  }

  /** With the axes after the first counted or without items, this is so for all ranges. */
  lemma {:induction false} CountedAxesAreApart(sets: seq<TupleSet>, ranges: seq<Range>)
    requires |ranges| == |sets| && AllOffer(sets, ranges)
    requires forall t :: t in sets[if sets == [] then 0 else 1..] ==> Bounded(t)
    ensures Apart(sets, ranges)
    ensures (forall t :: t in sets ==> Bounded(t)) ==> Span(sets, ranges) < Product(sets)
  {
    if sets != [] {
      CountedAxesAreApart(sets[1..], ranges[1..]);
      if Bounded(sets[0]) {
        AllOfferIsSound(sets, ranges);
        AllOfferIsSound(sets[1..], ranges[1..]);
        Gap(Offered(sets[0], ranges[0]) - 1, Radix(sets[0]), Product(sets[1..]));
      }
    }
  }

  /** On two axes numbers collide exactly if the second has items but is not counted yet, and both offer two tuples. */
  lemma {:induction false} TwoAxesCollideIff(rows: TupleSet, columns: TupleSet, down: Range, across: Range)
    ensures !AllDiffer([rows, columns], [down, across]) <==>
      !Bounded(columns) && Offered(rows, down) > 1 && Offered(columns, across) > 1
  {
    var sets, ranges := [rows, columns], [down, across];
    NumbersDifferIffApart(sets, ranges);
    assert sets[1..] == [columns] && ranges[1..] == [across] && [columns][1..] == [] && [across][1..] == [];
    assert AllOffer([], []) && Product([]) == 1;
    assert AllOffer([columns], [across]) == (Offered(columns, across) > 0);
    assert Product([columns]) == Radix(columns);
    if Offered(columns, across) > 0 {
      assert Span([columns], [across]) == (Offered(columns, across) - 1) * Product([]) + Span([], []);
      assert Apart([columns], [across]);
    }
  }

  /** Two rows by the second and third of the columns, of which there is no count yet. */
  lemma {:induction false} LaterColumnsCollide(rows: TupleSet, columns: TupleSet)
    requires rows.count == Known(2) && columns == TupleSet(Unknown, true)
    ensures var sets, ranges := [rows, columns], [Range(0, 2), Range(1, 3)];
      && [0, 2] in Coordinates(sets, ranges) && [1, 1] in Coordinates(sets, ranges)
      && Index(sets, [0, 2]) == Index(sets, [1, 1])
  {
    var sets, ranges := [rows, columns], [Range(0, 2), Range(1, 3)];
    EnumeratedIffOffered(sets, ranges, [0, 2]);
    EnumeratedIffOffered(sets, ranges, [1, 1]);
    assert sets[1..] == [columns] && [columns][1..] == [] && [0, 2][1..] == [2] && [1, 1][1..] == [1];
    assert Product([columns]) == 1;
    assert Index([columns], [2]) == 2 && Index([columns], [1]) == 1;
  }

  /** An uncounted axis need not make numbers collide: here one of five counted tuples in between leaves room for its
    * three tuples. */
  lemma {:induction false} UncountedAxisMayFit(rows: TupleSet, middle: TupleSet, columns: TupleSet)
    requires rows.count == Known(2) && middle.count == Known(5) && columns == TupleSet(Unknown, true)
    ensures AllDiffer([rows, middle, columns], [Range(0, 2), Range(0, 1), Range(0, 3)])
  {
    var sets, ranges := [rows, middle, columns], [Range(0, 2), Range(0, 1), Range(0, 3)];
    NumbersDifferIffApart(sets, ranges);
    assert sets[1..] == [middle, columns] && ranges[1..] == [Range(0, 1), Range(0, 3)];
    assert [middle, columns][1..] == [columns] && [Range(0, 1), Range(0, 3)][1..] == [Range(0, 3)];
    assert [columns][1..] == [] && [Range(0, 3)][1..] == [];
    assert AllOffer([], []) && Product([]) == 1 && Product([columns]) == 1 && Product([middle, columns]) == 5;
    assert Offered(rows, Range(0, 2)) == 2 && Offered(middle, Range(0, 1)) == 1 && Offered(columns, Range(0, 3)) == 3;
    assert AllOffer([columns], [Range(0, 3)]) && AllOffer([middle, columns], [Range(0, 1), Range(0, 3)]);
    assert Span([], []) == 0 && Apart([], []);
    assert Span([columns], [Range(0, 3)]) == 2 && Apart([columns], [Range(0, 3)]);
    assert Span([middle, columns], [Range(0, 1), Range(0, 3)]) == 2;
    assert Apart([middle, columns], [Range(0, 1), Range(0, 3)]);
  }

  // ---------------------------------------------------------------- when counts change

  lemma {:induction false} ProductIsNotZero(sets: seq<TupleSet>)
    ensures Product(sets) != 0
  {
    if sets != [] {
      ProductIsNotZero(sets[1..]);
    }
  }

  /** The axes after the first give the same factors. */
  predicate SameFactors(a: seq<TupleSet>, b: seq<TupleSet>)
    requires |a| == |b|
  {
    forall k :: 1 <= k < |a| ==> Radix(a[k]) == Radix(b[k])
  }

  lemma {:induction false} SameProducts(a: seq<TupleSet>, b: seq<TupleSet>)
    requires |a| == |b| && forall k :: 0 <= k < |a| ==> Radix(a[k]) == Radix(b[k])
    ensures Product(a) == Product(b)
  {
    if a != [] {
      assert Radix(a[0]) == Radix(b[0]);
      SameProducts(a[1..], b[1..]);
    }
  }

  lemma {:induction false} SameFactorsSameIndex(a: seq<TupleSet>, b: seq<TupleSet>, at: seq<nat>)
    requires |a| == |b| == |at| && SameFactors(a, b)
    ensures Index(a, at) == Index(b, at)
  {
    if a != [] {
      SameProducts(a[1..], b[1..]);
      SameFactorsSameIndex(a[1..], b[1..], at[1..]);
    }
  }

  /** The cell at 1 on the i-th axis and at 0 on the others. */
  function Step(n: nat, i: nat): (at: seq<nat>)
    ensures |at| == n
  {
    if n == 0 then [] else if i == 0 then [1] + Step(n - 1, n) else [0] + Step(n - 1, i - 1)
  }

  lemma {:induction false} StepIndex(sets: seq<TupleSet>, i: nat)
    ensures Index(sets, Step(|sets|, i)) == if i < |sets| then Product(sets[i + 1..]) else 0
  {
    if sets != [] {
      StepIndex(sets[1..], if i == 0 then |sets| else i - 1);
      if 0 < i < |sets| {
        assert sets[1..][i..] == sets[i + 1..];
      }
    }
  }

  /** All cells keep their numbers exactly if the counts of the axes after the first give the same factors. */
  lemma {:induction false} AllKeepNumbersIff(a: seq<TupleSet>, b: seq<TupleSet>)
    requires |a| == |b|
    ensures (forall at: seq<nat> :: |at| == |a| ==> Index(a, at) == Index(b, at)) <==> SameFactors(a, b)
  {
    if SameFactors(a, b) {
      forall at: seq<nat> | |at| == |a|
        ensures Index(a, at) == Index(b, at)
      {
        SameFactorsSameIndex(a, b, at);
      }
    } else if forall at: seq<nat> :: |at| == |a| ==> Index(a, at) == Index(b, at) {
      var k := LastFactor(a, b);
      StepIndex(a, k - 1);
      StepIndex(b, k - 1);
      assert Index(a, Step(|a|, k - 1)) == Index(b, Step(|a|, k - 1));
      assert a[k..][1..] == a[k + 1..] && b[k..][1..] == b[k + 1..];
      SameProducts(a[k + 1..], b[k + 1..]);
      ProductIsNotZero(a[k + 1..]);
      Factors(Radix(a[k]), Radix(b[k]), Product(a[k + 1..]));
    }
  }

  lemma {:induction false} Factors(x: int, y: int, d: int)
    requires x * d == y * d && d != 0
    ensures x == y
  {
    assert (x - y) * d == 0;
  }

  lemma {:induction false} LastFactor(a: seq<TupleSet>, b: seq<TupleSet>) returns (k: nat)
    requires |a| == |b| && !SameFactors(a, b)
    ensures 1 <= k < |a| && Radix(a[k]) != Radix(b[k])
    ensures forall j :: k < j < |a| ==> Radix(a[j]) == Radix(b[j])
  {
    k := |a| - 1;
    while Radix(a[k]) == Radix(b[k])
      invariant 1 <= k < |a|
      invariant forall j :: k < j < |a| ==> Radix(a[j]) == Radix(b[j])
      decreases k
    {
      k := k - 1;
    }
  }

  /** No factor is smaller than before, as when axes were counted in between. */
  predicate Grown(a: seq<TupleSet>, b: seq<TupleSet>) {
    |a| == |b| && forall k :: 0 <= k < |a| ==> 0 < Radix(a[k]) <= Radix(b[k])
  }

  lemma {:induction false} GrownProducts(a: seq<TupleSet>, b: seq<TupleSet>)
    requires Grown(a, b)
    ensures 0 < Product(a) <= Product(b)
  {
    if a != [] {
      GrownProducts(a[1..], b[1..]);
      var x, y, c, d := Radix(a[0]), Radix(b[0]), Product(a[1..]), Product(b[1..]);
      assert 0 < x * c <= y * d by {
        Spread(x, y - x, c);
        assert y * d == y * c + y * (d - c);
      }
    }
  }

  /** The cell is at 0 on every axis before a factor that changed. */
  predicate Unmoved(a: seq<TupleSet>, b: seq<TupleSet>, at: seq<nat>)
    requires |a| == |b| == |at|
  {
    a == [] || ((at[0] == 0 || Product(a[1..]) == Product(b[1..])) && Unmoved(a[1..], b[1..], at[1..]))
  }

  /** Once more axes are counted, exactly those cells keep their numbers. */
  lemma {:induction false} KeepsNumberIff(a: seq<TupleSet>, b: seq<TupleSet>, at: seq<nat>)
    requires Grown(a, b) && |at| == |a|
    ensures Index(a, at) <= Index(b, at)
    ensures Index(a, at) == Index(b, at) <==> Unmoved(a, b, at)
  {
    if a != [] {
      GrownProducts(a[1..], b[1..]);
      KeepsNumberIff(a[1..], b[1..], at[1..]);
      Scaled(at[0], Product(a[1..]), Product(b[1..]));
    }
  }

  lemma {:induction false} Scaled(x: nat, c: int, d: int)
    requires c <= d
    ensures x * c <= x * d && (x * c == x * d <==> x == 0 || c == d)
  {
    assert x * d == x * c + x * (d - c);
  }

  /** When columns are counted after cells were numbered, the cells of row 0 keep their numbers, and the others only if
    * there is a single column. */
  lemma {:induction false} CountingColumnsKeepsIff(rows: TupleSet, columns: TupleSet, counted: TupleSet, row: nat,
                                                   column: nat)
    requires columns.count == Unknown && counted.count.Known? && counted.count.value > 0
    ensures Index([rows, columns], [row, column]) == Index([rows, counted], [row, column]) <==>
      row == 0 || counted.count.value == 1
  {
    assert [rows, columns][1..] == [columns] && [rows, counted][1..] == [counted] && [row, column][1..] == [column];
    OneAxis(columns, column);
    OneAxis(counted, column);
    assert Radix(columns) == 1 && Radix(counted) == counted.count.value;
    if row * counted.count.value == row {
      FactorIsOne(row, counted.count.value);
    }
  }

  lemma {:induction false} OneAxis(t: TupleSet, at: nat)
    ensures Product([t]) == Radix(t) && Index([t], [at]) == at
  {
    assert [t][1..] == [] && [at][1..] == [];
    assert Product([]) == 1 && Index([], []) == 0;
  }

  lemma {:induction false} FactorIsOne(x: int, y: int)
    requires x * y == x
    ensures x == 0 || y == 1
  {
    assert x * (y - 1) == 0;
  }

  /** A cell whose coordinates exist on the axes after the first. */
  predicate ExistsLater(sets: seq<TupleSet>, at: seq<nat>) {
    sets != [] && |at| == |sets| && Exists(sets[1..], at[1..])
  }

  lemma {:induction false} LaterDecodeUndoesIndex(sets: seq<TupleSet>, at: seq<nat>)
    requires ExistsLater(sets, at)
    ensures 0 <= Index(sets, at) && Decode(sets, Index(sets, at)) == at
  {
    var below := Product(sets[1..]);
    DecodeUndoesIndex(sets[1..], at[1..]);
    Digit(at[0], Index(sets[1..], at[1..]), at[0] + 1, below);
    assert [at[0]] + at[1..] == at;
  }

  lemma {:induction false} LaterIndexUndoesDecode(sets: seq<TupleSet>, n: nat)
    requires sets != [] && AllBounded(sets[1..])
    ensures ExistsLater(sets, Decode(sets, n)) && Index(sets, Decode(sets, n)) == n
  {
    var below := Product(sets[1..]);
    ProductIsPositive(sets[1..]);
    Undigit(n, n + 1, below);
    IndexUndoesDecode(sets[1..], n % below);
    var rest := Decode(sets[1..], n % below);
    assert ([n / below] + rest)[1..] == rest;
  }

  /** A cell numbered under the counts `a` is found for another cell under the counts `b` exactly if what its number
    * stands for then is not the cell itself. */
  lemma {:induction false} FoundForAnotherIff(a: seq<TupleSet>, b: seq<TupleSet>, at: seq<nat>)
    requires |a| == |b| == |at| && b != [] && AllBounded(b[1..])
    ensures (exists other: seq<nat> :: ExistsLater(b, other) && other != at && Index(b, other) == Index(a, at)) <==>
      0 <= Index(a, at) && Decode(b, Index(a, at)) != at
  {
    if 0 <= Index(a, at) {
      LaterIndexUndoesDecode(b, Index(a, at));
    }
    if other: seq<nat> :| ExistsLater(b, other) && other != at && Index(b, other) == Index(a, at) {
      LaterDecodeUndoesIndex(b, other);
    }
  }

  // ---------------------------------------------------------------- remote results

  /** The column count sent along with a remote query. */
  function RemoteColumns(sets: seq<TupleSet>): nat {
    if |sets| < 2 then 0
    else if sets[1].count.Known? && sets[1].count.value > 1 then sets[1].count.value else 1
  }

  /** The number given to a cell of a remote result. A count of zero is taken for one. */
  function RemoteIndex(row: nat, column: nat, columns: nat): nat {
    row * (if columns == 0 then 1 else columns) + column
  }

  /** Remote results arrive under the numbers by which the cells are looked up, but for a negative count. */
  lemma {:induction false} RemoteNumbersAgree(rows: TupleSet, columns: TupleSet, row: nat, column: nat)
    ensures RemoteIndex(row, column, RemoteColumns([rows, columns])) == Index([rows, columns], [row, column])
       <==> row == 0 || Sound(columns)
    ensures RemoteIndex(row, 0, RemoteColumns([rows])) == Index([rows], [row])
  {
    assert [rows, columns][1..] == [columns] && [columns][1..] == [] && [rows][1..] == [];
    assert [row, column][1..] == [column];
    assert Product([columns]) == Radix(columns) * Product([]);
    assert Index([columns], [column]) == column * Product([]) + Index([], [column][1..]);
    assert Index([rows], [row]) == row * Product([]) + Index([], [row][1..]);
  }
}
