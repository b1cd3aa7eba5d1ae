/** Grouping ids: how SQL computes, src/DataSet/CellSet.js combines and PivotTableUiUtils.js decodes them. */
module GroupingIds {
  import opened GroupingSets
  import opened Options

  function Pow2(n: nat): (p: nat)
    ensures p > 0
  {
    if n == 0 then 1 else 2 * Pow2(n - 1)
  }

  /** GROUPING_ID: one bit for every argument, the first one most significant; 1 when the argument is rolled up. */
  function GroupingId(exprs: seq<Expr>, s: seq<Expr>): nat {
    if exprs == [] then 0
    else
      var last := |exprs| - 1;
      2 * GroupingId(exprs[..last], s) + if exprs[last] in s then 0 else 1
  }

  function BitAt(x: nat, k: nat): (b: nat)
    ensures b < 2
  {
    if k == 0 then x % 2 else BitAt(x / 2, k - 1)
  }

  lemma {:induction false} GroupingBits(exprs: seq<Expr>, s: seq<Expr>, r: nat)
    requires r < |exprs|
    ensures BitAt(GroupingId(exprs, s), |exprs| - 1 - r) == if exprs[r] in s then 0 else 1
  {
    if r < |exprs| - 1 {
      GroupingBits(exprs[..|exprs| - 1], s, r);
    }
  }

  lemma {:induction false} GroupingIdBelow(exprs: seq<Expr>, s: seq<Expr>)
    ensures GroupingId(exprs, s) < Pow2(|exprs|)
  {
    if exprs != [] {
      GroupingIdBelow(exprs[..|exprs| - 1], s);
    }
  }

  /** Rolled up from some argument on: as many ones as there are arguments left. */
  lemma {:induction false} RunOfOnes(exprs: seq<Expr>, s: seq<Expr>, ones: nat)
    requires ones <= |exprs|
    requires forall r :: 0 <= r < |exprs| ==> (exprs[r] in s <==> r < |exprs| - ones)
    ensures GroupingId(exprs, s) == Pow2(ones) - 1
  {
    if exprs != [] {
      var init := exprs[..|exprs| - 1];
      assert forall r :: 0 <= r < |init| ==> init[r] == exprs[r];
      RunOfOnes(init, s, if ones == 0 then 0 else ones - 1);
    }
  }

  // ---------------------------------------------------------------- one axis

  /** The expression of a totals item does not occur earlier on its axis. */
  predicate TotalsAreNew(axis: seq<Item>) {
    forall k :: 0 <= k < |axis| && axis[k].totals ==> axis[k].expr !in Exprs(axis)[..k]
  }

  /** How many totals items there are from `p` on. */
  function TotalsFrom(axis: seq<Item>, p: nat): nat
    requires p <= |axis|
    decreases |axis| - p
  {
    if p == |axis| then 0 else (if axis[p].totals then 1 else 0) + TotalsFrom(axis, p + 1)
  }

  /** Where the r-th totals item of an axis is. */
  function PositionOf(axis: seq<Item>, r: nat): (k: nat)
    requires r < |TotalsExprs(axis)| && Uncelled(axis)
    ensures k < |axis| && axis[k].totals && axis[k].expr == TotalsExprs(axis)[r]
  {
    if axis[0].totals then
      if r == 0 then 0 else 1 + PositionOf(axis[1..], r - 1)
    else 1 + PositionOf(axis[1..], r)
  }

  lemma {:induction false} TotalsFromTail(axis: seq<Item>, p: nat)
    requires 0 < p <= |axis|
    ensures TotalsFrom(axis, p) == TotalsFrom(axis[1..], p - 1)
    decreases |axis| - p
  {
    if p < |axis| {
      TotalsFromTail(axis, p + 1);
    }
  }

  lemma {:induction false} TotalsCount(axis: seq<Item>)
    requires Uncelled(axis)
    ensures |TotalsExprs(axis)| == TotalsFrom(axis, 0)
  {
    if axis != [] {
      TotalsCount(axis[1..]);
      TotalsFromTail(axis, 1);
    }
  }

  /** The totals items at or after `p` are the last ones of the list. */
  lemma {:induction false} PositionSplits(axis: seq<Item>, r: nat, p: nat)
    requires r < |TotalsExprs(axis)| && Uncelled(axis) && p <= |axis|
    ensures TotalsFrom(axis, p) <= |TotalsExprs(axis)|
    ensures PositionOf(axis, r) < p <==> r < |TotalsExprs(axis)| - TotalsFrom(axis, p)
  {
    TotalsCount(axis);
    if p > 0 {
      TotalsFromTail(axis, p);
      TotalsCount(axis[1..]);
      if axis[0].totals && r == 0 {
        TotalsFromAtMost(axis[1..], p - 1);
      } else {
        PositionSplits(axis[1..], if axis[0].totals then r - 1 else r, p - 1);
      }
    }
  }

  lemma {:induction false} TotalsFromAtMost(axis: seq<Item>, p: nat)
    requires Uncelled(axis) && p <= |axis|
    ensures TotalsFrom(axis, p) <= |TotalsExprs(axis)|
    decreases p
  {
    TotalsCount(axis);
    if p > 0 {
      TotalsFromAtMost(axis, p - 1);
    }
  }

  lemma {:induction false} InPrefix(axis: seq<Item>, k: nat, p: nat)
    requires k < |axis| && p <= |axis| && axis[k].totals && TotalsAreNew(axis)
    ensures axis[k].expr in Exprs(axis)[..p] <==> k < p
  {
    ExprsAt(axis, k);
    if k < p {
      assert Exprs(axis)[..p][k] == axis[k].expr;
    } else {
      assert Exprs(axis)[..p] <= Exprs(axis)[..k];
      assert forall e :: e in Exprs(axis)[..p] ==> e in Exprs(axis)[..k];
    }
  }

  /** Every grouping set of an axis has an id of ones only: one for each totals item from its level on. */
  lemma {:induction false} LevelIdIsOnes(axis: seq<Item>, p: nat)
    requires Uncelled(axis) && TotalsAreNew(axis) && p <= |axis|
    ensures GroupingId(TotalsExprs(axis), Exprs(axis)[..p]) == Pow2(TotalsFrom(axis, p)) - 1
  {
    var exprs := TotalsExprs(axis);
    TotalsFromAtMost(axis, p);
    forall r | 0 <= r < |exprs|
      ensures exprs[r] in Exprs(axis)[..p] <==> r < |exprs| - TotalsFrom(axis, p)
    {
      PositionSplits(axis, r, p);
      InPrefix(axis, PositionOf(axis, r), p);
    }
    RunOfOnes(exprs, Exprs(axis)[..p], TotalsFrom(axis, p));
  }

  /** ... and only then: a totals item whose expression occurs earlier on the axis spoils the id of its own set. */
  lemma {:induction false} IdsAreOnesIffTotalsAreNew(axis: seq<Item>)
    requires Uncelled(axis)
    ensures TotalsAreNew(axis) <==>
              forall p: nat :: Level(axis, p) ==>
                GroupingId(TotalsExprs(axis), Exprs(axis)[..p]) == Pow2(TotalsFrom(axis, p)) - 1
  {
    if TotalsAreNew(axis) {
      forall p: nat | Level(axis, p)
        ensures GroupingId(TotalsExprs(axis), Exprs(axis)[..p]) == Pow2(TotalsFrom(axis, p)) - 1
      {
        LevelIdIsOnes(axis, p);
      }
    } else {
      var k: nat :| k < |axis| && axis[k].totals && axis[k].expr in Exprs(axis)[..k];
      assert Level(axis, k);
      RepeatedTotalsSpoilId(axis, k);
    }
  }

  /** The set made for a totals item whose expression occurs before lacks the bit for that very item. */
  lemma {:induction false} RepeatedTotalsSpoilId(axis: seq<Item>, k: nat)
    requires Uncelled(axis) && k < |axis| && axis[k].totals && axis[k].expr in Exprs(axis)[..k]
    ensures GroupingId(TotalsExprs(axis), Exprs(axis)[..k]) != Pow2(TotalsFrom(axis, k)) - 1
  {
    var r := RankOf(axis, k);
    GroupingBits(TotalsExprs(axis), Exprs(axis)[..k], r);
    OnesBits(TotalsFrom(axis, k), TotalsFrom(axis, k) - 1);
  }

  /** Which of the totals items the one at `k` is. */
  function RankOf(axis: seq<Item>, k: nat): (r: nat)
    requires k < |axis| && axis[k].totals && Uncelled(axis)
    ensures r < |TotalsExprs(axis)| && TotalsExprs(axis)[r] == axis[k].expr
    ensures |TotalsExprs(axis)| - r == TotalsFrom(axis, k)
  {
    TotalsCount(axis);
    if k == 0 then 0
    else
      TotalsFromTail(axis, k);
      (if axis[0].totals then 1 else 0) + RankOf(axis[1..], k - 1)
  }

  lemma {:induction false} OnesBits(ones: nat, k: nat)
    ensures BitAt(Pow2(ones) - 1, k) == if k < ones then 1 else 0
  {
    if ones > 0 && k > 0 {
      OnesBits(ones - 1, k - 1);
    } else if ones == 0 {
      NoBits(k);
    }
  }

  lemma {:induction false} NoBits(k: nat)
    ensures BitAt(0, k) == 0
  {
    if k > 0 {
      NoBits(k - 1);
    }
  }

  // ---------------------------------------------------------------- decoding

  /** The positions of the totals items, the last one first. */
  function TotalsIndices(axis: seq<Item>, from: nat): seq<nat> {
    if axis == [] then []
    else if axis[0].totals then TotalsIndices(axis[1..], from + 1) + [from]
    else TotalsIndices(axis[1..], from + 1)
  }

  method GetTotalsItemsIndices(axis: seq<Item>) returns (indices: Option<seq<nat>>)
    ensures indices == if axis == [] then None else Some(TotalsIndices(axis, 0))
  {
    if axis == [] {
      return None;
    }
    var acc: seq<nat> := [];
    for index := 0 to |axis|
      invariant TotalsIndices(axis[index..], index) + acc == TotalsIndices(axis, 0)
    {
      assert axis[index..][1..] == axis[index + 1..];
      if axis[index].totals {
        acc := [index] + acc;
      }
    }
    assert TotalsIndices(axis[|axis|..], |axis|) + acc == acc;
    return Some(acc);
  }

  lemma {:induction false} TotalsIndicesAt(axis: seq<Item>, from: nat, k: nat)
    requires k < |axis| && axis[k].totals && Uncelled(axis)
    ensures |TotalsIndices(axis, from)| == |TotalsExprs(axis)|
    ensures 0 <= TotalsFrom(axis, k) - 1 < |TotalsIndices(axis, from)|
    ensures TotalsIndices(axis, from)[TotalsFrom(axis, k) - 1] == from + k
    decreases |axis|
  {
    var rest := axis[1..];
    TotalsIndicesCount(axis, from);
    TotalsIndicesCount(rest, from + 1);
    TotalsCount(axis);
    TotalsCount(rest);
    if k > 0 {
      TotalsFromTail(axis, k);
      TotalsIndicesAt(rest, from + 1, k - 1);
    }
  }

  lemma {:induction false} TotalsIndicesCount(axis: seq<Item>, from: nat)
    requires Uncelled(axis)
    ensures |TotalsIndices(axis, from)| == |TotalsExprs(axis)|
    decreases |axis|
  {
    if axis != [] {
      TotalsIndicesCount(axis[1..], from + 1);
    }
  }

  predicate HasBit(x: nat, k: nat) {
    BitAt(x, k) == 1
  }

  /** The most significant set bit among the lowest `n`. */
  function TopBit(x: nat, n: nat): Option<nat> {
    if n == 0 then None else if HasBit(x, n - 1) then Some(n - 1) else TopBit(x, n - 1)
  }

  lemma {:induction false} TopBitFacts(x: nat, n: nat)
    ensures TopBit(x, n).None? ==> forall i: nat :: i < n ==> !HasBit(x, i)
    ensures TopBit(x, n).Some? ==> var i := TopBit(x, n).value;
              i < n && HasBit(x, i) && forall j: nat :: i < j < n ==> !HasBit(x, j)
  {
    if n > 0 {
      TopBitFacts(x, n - 1);
    }
  }

  lemma {:induction false} OnesTopBit(ones: nat, n: nat)
    requires ones <= n
    ensures TopBit(Pow2(ones) - 1, n) == if ones == 0 then None else Some(ones - 1)
  {
    if n > 0 {
      OnesBits(ones, n - 1);
      if ones < n {
        OnesTopBit(ones, n - 1);
      }
    }
  }

  /** Which totals item an id stands for. None is the source's Infinity. */
  function Member(id: nat, indices: seq<nat>): Option<nat> {
    match TopBit(id, |indices|)
    case None => None
    case Some(i) => TopBitFacts(id, |indices|); Some(indices[i])
  }

  lemma {:induction false} MemberOfOnes(ones: nat, indices: seq<nat>)
    requires ones <= |indices|
    ensures Member(Pow2(ones) - 1, indices) == if ones == 0 then None else Some(indices[ones - 1])
  {
    OnesTopBit(ones, |indices|);
  }

  method IsTotalsMember(groupingId: Option<nat>, indices: Option<seq<nat>>, current: Option<nat>)
    returns (member: Option<nat>)
    ensures member == if groupingId.None? || indices.None? || current.None? then None
                      else Member(groupingId.value, indices.value)
  {
    if groupingId.None? || groupingId.value == 0 || indices.None? || indices.value == [] || current.None? {
      if groupingId.Some? && indices.Some? {
        OnesTopBit(0, |indices.value|);
      }
      return None;
    }
    var i := |indices.value| - 1;
    while i >= 0 && !HasBit(groupingId.value, i)
      invariant -1 <= i < |indices.value|
      invariant TopBit(groupingId.value, |indices.value|) == TopBit(groupingId.value, i + 1)
    {
      i := i - 1;
    }
    return if i < 0 then None else Some(indices.value[i]);
  }

  lemma {:induction false} LevelIndex(axis: seq<Item>, p: nat)
    requires Uncelled(axis) && Level(axis, p)
    ensures TotalsFrom(axis, p) <= |TotalsIndices(axis, 0)|
    ensures if p == |axis| then TotalsFrom(axis, p) == 0
            else TotalsFrom(axis, p) > 0 && TotalsIndices(axis, 0)[TotalsFrom(axis, p) - 1] == p
  {
    TotalsIndicesCount(axis, 0);
    TotalsFromAtMost(axis, p);
    if p < |axis| {
      TotalsIndicesAt(axis, 0, p);
    }
  }

  /** Decoding the id of a grouping set gives the totals item that it was made for; the set of all expressions
    * decodes to Infinity. */
  lemma {:induction false} LevelDecodes(axis: seq<Item>, p: nat)
    requires Uncelled(axis) && TotalsAreNew(axis) && Level(axis, p)
    ensures Member(GroupingId(TotalsExprs(axis), Exprs(axis)[..p]), TotalsIndices(axis, 0))
         == if p == |axis| then None else Some(p)
  {
    LevelIdIsOnes(axis, p);
    LevelIndex(axis, p);
    MemberOfLevel(p, |axis|, TotalsFrom(axis, p), TotalsIndices(axis, 0));
  }

  lemma {:induction false} MemberOfLevel(p: nat, all: nat, ones: nat, indices: seq<nat>)
    requires ones <= |indices| && if p == all then ones == 0 else ones > 0 && indices[ones - 1] == p
    ensures Member(Pow2(ones) - 1, indices) == if p == all then None else Some(p)
  {
    MemberOfOnes(ones, indices);
  }

  /** Different levels of an axis have different ids. */
  lemma {:induction false} LevelIdsDiffer(axis: seq<Item>, p: nat, q: nat)
    requires Uncelled(axis) && TotalsAreNew(axis) && Level(axis, p) && Level(axis, q)
    ensures GroupingId(TotalsExprs(axis), Exprs(axis)[..p]) == GroupingId(TotalsExprs(axis), Exprs(axis)[..q])
       <==> p == q
  {
    LevelDecodes(axis, p);
    LevelDecodes(axis, q);
  }

  // ---------------------------------------------------------------- both axes in one id

  function ShiftLeft(x: int, n: nat): int {
    if n == 0 then x else 2 * ShiftLeft(x, n - 1)
  }

  /** A smaller number stays smaller by a whole step when both are shifted. */
  lemma {:induction false} ShiftSteps(x: int, y: int, n: nat)
    ensures x < y ==> ShiftLeft(x, n) + Pow2(n) <= ShiftLeft(y, n)
    ensures x <= y ==> ShiftLeft(x, n) <= ShiftLeft(y, n)
  {
    if n > 0 {
      ShiftSteps(x, y, n - 1);
    }
  }

  lemma {:induction false} ShiftOfZero(n: nat)
    ensures ShiftLeft(0, n) == 0
  {
    if n > 0 {
      ShiftOfZero(n - 1);
    }
  }

  lemma {:induction false} ShiftOfPower(a: nat, n: nat)
    ensures ShiftLeft(Pow2(a), n) == Pow2(a + n)
  {
    if n > 0 {
      ShiftOfPower(a, n - 1);
    }
  }

  lemma {:induction false} ShiftNotLess(x: nat, n: nat)
    ensures ShiftLeft(x, n) >= x
    ensures x > 0 ==> ShiftLeft(x, n) >= Pow2(n)
  {
    if n > 0 {
      ShiftNotLess(x, n - 1);
    }
  }

  lemma {:induction false} GroupingIdConcat(a: seq<Expr>, b: seq<Expr>, s: seq<Expr>)
    ensures GroupingId(a + b, s) == ShiftLeft(GroupingId(a, s), |b|) + GroupingId(b, s)
  {
    if b == [] {
      assert a + b == a;
    } else {
      var init := b[..|b| - 1];
      assert (a + b)[..|a + b| - 1] == a + init && (a + b)[|a + b| - 1] == b[|b| - 1];
      GroupingIdConcat(a, init, s);
    }
  }

  /** GROUPING_ID looks only at whether its own arguments are grouped by. */
  lemma {:induction false} GroupingIdFrame(exprs: seq<Expr>, s: seq<Expr>, t: seq<Expr>)
    requires forall e :: e in exprs ==> (e in s <==> e in t)
    ensures GroupingId(exprs, s) == GroupingId(exprs, t)
  {
    if exprs != [] {
      GroupingIdFrame(exprs[..|exprs| - 1], s, t);
    }
  }

  /** What one axis contributes to the id of a cell. */
  datatype Part = Part(id: nat, bits: nat)

  predicate Fits(part: Part) {
    part.id < Pow2(part.bits)
  }

  /** The ids side by side, the first axis most significant. */
  function SideBySide(parts: seq<Part>): (r: nat) {
    if parts == [] then 0
    else
      var last := parts[|parts| - 1];
      ShiftNotLess(SideBySide(parts[..|parts| - 1]), last.bits);
      ShiftLeft(SideBySide(parts[..|parts| - 1]), last.bits) + last.id
  }

  /** No totals item of one axis has an expression that the other axis groups by. */
  predicate Apart(rows: seq<Item>, columns: seq<Item>) {
    (forall e :: e in TotalsExprs(rows) ==> e !in Exprs(columns))
    && (forall e :: e in TotalsExprs(columns) ==> e !in Exprs(rows))
  }

  function AxisPart(axis: seq<Item>, p: nat): (part: Part)
    requires p <= |axis|
    ensures Fits(part)
  {
    GroupingIdBelow(TotalsExprs(axis), Exprs(axis)[..p]);
    Part(GroupingId(TotalsExprs(axis), Exprs(axis)[..p]), |TotalsExprs(axis)|)
  }

  lemma {:induction false} TwoParts(a: Part, b: Part)
    ensures SideBySide([a, b]) == ShiftLeft(a.id, b.bits) + b.id
  {
    assert [a, b][..1] == [a] && [a][..0] == [];
    ShiftOfZero(a.bits);
    assert SideBySide([a]) == ShiftLeft(0, a.bits) + a.id;
  }

  function SetAt(rows: seq<Item>, columns: seq<Item>, p: nat, q: nat): seq<Expr>
    requires p <= |rows| && q <= |columns|
  {
    Exprs(rows)[..p] + Exprs(columns)[..q]
  }

  /** GROUPING_ID over the totals of both axes is the ids of the axes side by side. */
  lemma {:induction false} CrossId(rows: seq<Item>, columns: seq<Item>, p: nat, q: nat)
    requires p <= |rows| && q <= |columns| && Apart(rows, columns)
    ensures GroupingId(TotalsExprs(rows) + TotalsExprs(columns), SetAt(rows, columns, p, q))
         == SideBySide([AxisPart(rows, p), AxisPart(columns, q)])
  {
    var r, c, s := TotalsExprs(rows), TotalsExprs(columns), SetAt(rows, columns, p, q);
    GroupingIdConcat(r, c, s);
    assert forall e :: e in Exprs(columns)[..q] ==> e in Exprs(columns);
    assert forall e :: e in Exprs(rows)[..p] ==> e in Exprs(rows);
    GroupingIdFrame(r, s, Exprs(rows)[..p]);
    GroupingIdFrame(c, s, Exprs(columns)[..q]);
    TwoParts(AxisPart(rows, p), AxisPart(columns, q));
  }

  lemma {:induction false} PairsDiffer(a: Part, b: Part, c: Part, d: Part)
    requires b.bits == d.bits && Fits(b) && Fits(d)
    ensures SideBySide([a, b]) == SideBySide([c, d]) <==> a.id == c.id && b.id == d.id
  {
    TwoParts(a, b);
    TwoParts(c, d);
    ShiftSteps(a.id, c.id, b.bits);
    ShiftSteps(c.id, a.id, b.bits);
  }

  /** The ids of all grouping sets of a query differ. */
  lemma {:induction false} CrossIdsDiffer(rows: seq<Item>, columns: seq<Item>, p: nat, q: nat, u: nat, v: nat)
    requires Uncelled(rows) && Uncelled(columns) && TotalsAreNew(rows) && TotalsAreNew(columns) && Apart(rows, columns)
    requires Level(rows, p) && Level(columns, q) && Level(rows, u) && Level(columns, v)
    ensures (GroupingId(TotalsExprs(rows) + TotalsExprs(columns), SetAt(rows, columns, p, q))
               == GroupingId(TotalsExprs(rows) + TotalsExprs(columns), SetAt(rows, columns, u, v)))
       <==> (p == u && q == v)
  {
    CrossId(rows, columns, p, q);
    CrossId(rows, columns, u, v);
    PairsDiffer(AxisPart(rows, p), AxisPart(columns, q), AxisPart(rows, u), AxisPart(columns, v));
    LevelIdsDiffer(rows, p, u);
    LevelIdsDiffer(columns, q, v);
  }

  // ---------------------------------------------------------------- 32-bit recombination

  const TWO_TO_THE_31: int := 0x8000_0000
  const TWO_TO_THE_32: int := 0x1_0000_0000

  function ToUint32(x: int): nat {
    x % TWO_TO_THE_32
  }

  /** JavaScript's ToInt32. */
  function ToInt32(x: int): (r: int)
    ensures -TWO_TO_THE_31 <= r < TWO_TO_THE_31
  {
    if ToUint32(x) < TWO_TO_THE_31 then ToUint32(x) else ToUint32(x) - TWO_TO_THE_32
  }

  lemma {:induction false} SmallInt32(x: nat)
    requires x < TWO_TO_THE_31
    ensures ToInt32(x) == x && ToUint32(x) == x
  {
  }

  function BitOr(a: nat, b: nat): nat {
    if a == 0 then b
    else 2 * BitOr(a / 2, b / 2) + if a % 2 == 1 || b % 2 == 1 then 1 else 0
  }

  /** JavaScript's `|` and `<<`: both work on 32 bits, and the shift takes its count modulo 32. */
  function Or32(a: int, b: int): int {
    ToInt32(BitOr(ToUint32(a), ToUint32(b)))
  }

  function Shift32(a: int, count: nat): int {
    ToInt32(ShiftLeft(ToInt32(a), count % 32))
  }

  function Combined(parts: seq<Part>): (r: int)
    ensures r < TWO_TO_THE_31
  {
    if parts == [] then 0
    else
      var before, last := Combined(parts[..|parts| - 1]), parts[|parts| - 1];
      Or32(if |parts| > 1 && last.bits > 0 then Shift32(before, last.bits) else before, last.id)
  }

  method CombineGroupingIds(parts: seq<Part>) returns (groupingId: int)
    ensures groupingId == Combined(parts)
  {
    groupingId := 0;
    for j := 0 to |parts|
      invariant groupingId == Combined(parts[..j])
    {
      assert parts[..j + 1][..j] == parts[..j];
      if j > 0 && parts[j].bits > 0 {
        groupingId := Shift32(groupingId, parts[j].bits);
      }
      groupingId := Or32(groupingId, parts[j].id);
    }
    assert parts[..|parts|] == parts;
  }

  lemma {:induction false} OrIsSum(a: nat, b: nat, bits: nat)
    requires b < Pow2(bits)
    ensures ShiftLeft(a, bits) >= 0 && BitOr(ShiftLeft(a, bits), b) == ShiftLeft(a, bits) + b
  {
    ShiftNotLess(a, bits);
    if bits == 0 {
      BitOrZero(a);
    } else {
      OrIsSum(a, b / 2, bits - 1);
    }
  }

  lemma {:induction false} BitOrZero(a: nat)
    ensures BitOr(a, 0) == a
  {
    if a > 0 {
      BitOrZero(a / 2);
    }
  }

  lemma {:induction false} Pow2Grows(a: nat, b: nat)
    requires a <= b
    ensures Pow2(a) <= Pow2(b)
  {
    if a < b {
      Pow2Grows(a, b - 1);
    }
  }

  lemma {:induction false} Pow2Of31()
    ensures Pow2(31) == TWO_TO_THE_31
  {
    assert Pow2(7) == 128;
    assert Pow2(15) == 0x8000;
    assert Pow2(23) == 0x80_0000;
    assert Pow2(31) == 0x8000_0000;
  }

  lemma {:induction false} FewBits(r: nat, bits: nat)
    requires r > 0 && ShiftLeft(r, bits) < TWO_TO_THE_31
    ensures bits < 31
  {
    ShiftNotLess(r, bits);
    Pow2Of31();
    if bits >= 31 {
      Pow2Grows(31, bits);
    }
  }

  lemma {:induction false} SmallOr(a: nat, b: nat)
    requires a < TWO_TO_THE_31 && b < TWO_TO_THE_31 && BitOr(a, b) < TWO_TO_THE_31
    ensures Or32(a, b) == BitOr(a, b)
  {
    SmallInt32(a);
    SmallInt32(b);
    SmallInt32(BitOr(a, b));
  }

  lemma {:induction false} SmallShift(r: nat, bits: nat)
    requires ShiftLeft(r, bits) < TWO_TO_THE_31
    ensures Shift32(r, bits) == ShiftLeft(r, bits)
  {
    ShiftNotLess(r, bits);
    SmallInt32(r);
    SmallInt32(ShiftLeft(r, bits));
    if r == 0 {
      ShiftOfZero(bits);
      ShiftOfZero(bits % 32);
    } else {
      FewBits(r, bits);
    }
  }

  lemma {:induction false} ShiftOrIsExact(r: nat, id: nat, bits: nat)
    requires id < Pow2(bits) && ShiftLeft(r, bits) + id < TWO_TO_THE_31
    ensures Or32(Shift32(r, bits), id) == ShiftLeft(r, bits) + id
  {
    ShiftNotLess(r, bits);
    SmallShift(r, bits);
    OrIsSum(r, id, bits);
    SmallOr(ShiftLeft(r, bits), id);
  }

  lemma {:induction false} UnshiftedOr(r: nat, last: Part, more: bool)
    requires Fits(last) && ShiftLeft(r, last.bits) + last.id < TWO_TO_THE_31
    requires if more then last.bits == 0 else r == 0
    ensures Or32(r, last.id) == ShiftLeft(r, last.bits) + last.id
  {
    BitOrZero(r);
    ShiftOfZero(last.bits);
    assert BitOr(r, last.id) == ShiftLeft(r, last.bits) + last.id;
    SmallOr(r, last.id);
  }

  /** The id sent with a cell is the ids of its axes side by side exactly if those fit 31 bits. */
  lemma {:induction false} CombinedIsExactBelow31Bits(parts: seq<Part>)
    requires forall part :: part in parts ==> Fits(part)
    ensures Combined(parts) == SideBySide(parts) <==> SideBySide(parts) < TWO_TO_THE_31
  {
    if parts != [] && SideBySide(parts) < TWO_TO_THE_31 {
      var before, last := parts[..|parts| - 1], parts[|parts| - 1];
      var r := SideBySide(before);
      assert Fits(last) by {
        assert last in parts;
      }
      ShiftNotLess(r, last.bits);
      CombinedIsExactBelow31Bits(before);
      if |parts| > 1 && last.bits > 0 {
        ShiftOrIsExact(r, last.id, last.bits);
      } else {
        UnshiftedOr(r, last, |parts| > 1);
      }
    }
  }

  lemma {:induction false} PairBelow(a: Part, b: Part)
    requires Fits(a) && Fits(b)
    ensures SideBySide([a, b]) < Pow2(a.bits + b.bits)
  {
    TwoParts(a, b);
    ShiftSteps(a.id, Pow2(a.bits), b.bits);
    ShiftOfPower(a.bits, b.bits);
  }

  /** A cell is sent the id that the engine computes for its grouping set exactly if that id fits 31 bits, as it
    * does with up to 31 totals items. */
  lemma {:induction false} CellIdIsGroupingId(rows: seq<Item>, columns: seq<Item>, p: nat, q: nat)
    requires Apart(rows, columns) && p <= |rows| && q <= |columns|
    ensures var id := GroupingId(TotalsExprs(rows) + TotalsExprs(columns), SetAt(rows, columns, p, q));
      && (Combined([AxisPart(rows, p), AxisPart(columns, q)]) == id <==> id < TWO_TO_THE_31)
      && (|TotalsExprs(rows)| + |TotalsExprs(columns)| <= 31 ==> id < TWO_TO_THE_31)
  {
    var r, c := AxisPart(rows, p), AxisPart(columns, q);
    CrossId(rows, columns, p, q);
    CombinedIsExactBelow31Bits([r, c]);
    PairBelow(r, c);
    Pow2Of31();
    if r.bits + c.bits <= 31 {
      Pow2Grows(r.bits + c.bits, 31);
    }
  }

  /** With more than 31 totals items the grand total is sent a wrong id. */
  lemma {:induction false} GrandTotalNeedsAllBits(rows: seq<Item>, columns: seq<Item>)
    requires Uncelled(rows) && Uncelled(columns) && Apart(rows, columns) && TotalsAreNew(rows) && TotalsAreNew(columns)
    ensures var id := GroupingId(TotalsExprs(rows) + TotalsExprs(columns), SetAt(rows, columns, 0, 0));
              Combined([AxisPart(rows, 0), AxisPart(columns, 0)]) == id
              <==> |TotalsExprs(rows)| + |TotalsExprs(columns)| <= 31
  {
    CellIdIsGroupingId(rows, columns, 0, 0);
    CrossId(rows, columns, 0, 0);
    LevelIdIsOnes(rows, 0);
    LevelIdIsOnes(columns, 0);
    TotalsCount(rows);
    TotalsCount(columns);
    AllOnes(AxisPart(rows, 0), AxisPart(columns, 0));
    Pow2Of31();
    if |TotalsExprs(rows)| + |TotalsExprs(columns)| > 31 {
      Pow2Grows(32, |TotalsExprs(rows)| + |TotalsExprs(columns)|);
    }
  }

  lemma {:induction false} AllOnes(a: Part, b: Part)
    requires a.id == Pow2(a.bits) - 1 && b.id == Pow2(b.bits) - 1
    ensures SideBySide([a, b]) == Pow2(a.bits + b.bits) - 1
  {
    TwoParts(a, b);
    ShiftOfPower(a.bits, b.bits);
    ShiftLess(Pow2(a.bits), b.bits);
  }

  lemma {:induction false} ShiftLess(x: int, n: nat)
    ensures ShiftLeft(x - 1, n) == ShiftLeft(x, n) - Pow2(n)
  {
    if n > 0 {
      ShiftLess(x, n - 1);
    }
  }
}
