/** Which upper bound a lower bound is paired with: src/FilterUi/FilterUi.js and src/QueryModel/QueryAxisItem.js. */
module RangeBounds {
  import opened Options
  import opened Sets
  import opened FilterSql

  type Text(==, !new)

  /** JavaScript's array indices: integers of 32 bits but the last. */
  type ArrayIndex = n: nat | n < 0xFFFF_FFFF

  /** A property name, which looks like an array index or does not. */
  datatype Key = Index(n: ArrayIndex) | Name(text: Text)

  /** What the source keeps of a bound. */
  datatype Bound = Bound(literal: Literal, enabled: bool)

  /** An object: its property names in the order of insertion, and what they hold. */
  datatype Object = Object(keys: seq<Key>, at: map<Key, Bound>)

  ghost predicate WellFormed(obj: Object) {
    (forall k :: k in obj.keys <==> k in obj.at)
    && forall i, j :: 0 <= i < j < |obj.keys| ==> obj.keys[i] != obj.keys[j]
  }

  /** An option of a select list: its text and what is attached to it. */
  datatype Row = Row(key: Key, bound: Bound)

  /** Assigning to a property that exists leaves it where it is. */
  function Assign(obj: Object, row: Row): Object {
    Object(if row.key in obj.keys then obj.keys else obj.keys + [row.key], obj.at[row.key := row.bound])
  }

  function ObjectOf(rows: seq<Row>): Object {
    if rows == [] then Object([], map[]) else Assign(ObjectOf(rows[..|rows| - 1]), rows[|rows| - 1])
  }

  method ExtractValuesFromOptions(rows: seq<Row>) returns (obj: Object)
    ensures obj == ObjectOf(rows)
  {
    obj := Object([], map[]);
    for i := 0 to |rows|
      invariant obj == ObjectOf(rows[..i])
    {
      assert rows[..i + 1][..i] == rows[..i];
      obj := Assign(obj, rows[i]);
    }
    assert rows[..|rows|] == rows;
  }

  // ---------------------------------------------------------------- the order of an object's keys

  predicate Smaller(a: Key, b: Key) {
    a.Index? && (b.Name? || a.n < b.n)
  }

  function Insert(listed: seq<Key>, k: Key): seq<Key> {
    if listed == [] || Smaller(k, listed[0]) then [k] + listed else [listed[0]] + Insert(listed[1..], k)
  }

  /** `Object.keys`: array indices in ascending order, then the other names as they were inserted. */
  function Listed(keys: seq<Key>): seq<Key> {
    if keys == [] then [] else Insert(Listed(keys[..|keys| - 1]), keys[|keys| - 1])
  }

  function EnabledOf(keys: seq<Key>, enabled: set<Key>): seq<Key> {
    if keys == [] then []
    else (if keys[0] in enabled then [keys[0]] else []) + EnabledOf(keys[1..], enabled)
  }

  function EnabledKeys(obj: Object): set<Key> {
    set k | k in obj.at && obj.at[k].enabled
  }

  function Literals(obj: Object, keys: seq<Key>): seq<Literal>
    requires forall k :: k in keys ==> k in obj.at
  {
    seq(|keys|, i requires 0 <= i < |keys| => obj.at[keys[i]].literal)
  }

  datatype Bounds = Bounds(lows: seq<Literal>, highs: seq<Literal>)

  /** The enabled keys as the object lists them. */
  ghost function EnabledListed(obj: Object): (keys: seq<Key>)
    ensures forall k :: k in keys <==> k in obj.keys && k in EnabledKeys(obj)
  {
    ListedElements(obj.keys);
    EnabledElements(Listed(obj.keys), EnabledKeys(obj));
    EnabledOf(Listed(obj.keys), EnabledKeys(obj))
  }

  ghost function Extracted(values: Object, toValues: Object): Option<Bounds>
    requires WellFormed(values) && WellFormed(toValues)
  {
    var keys, toKeys := EnabledListed(values), Listed(toValues.keys);
    ListedElements(toValues.keys);
    if |keys| <= |toKeys| then Some(Bounds(Literals(values, keys), Literals(toValues, toKeys[..|keys|]))) else None
  }

  /** The n-th enabled lower bound is paired with the n-th upper bound of all, in the orders in which the two objects
    * list their keys. None is the TypeError if there is no such upper bound. */
  method ExtractLiterals(values: Object, toValues: Object) returns (bounds: Option<Bounds>)
    requires WellFormed(values) && WellFormed(toValues)
    ensures bounds == Extracted(values, toValues)
  {
    var keys := CullKeys(values);
    var toKeys := ListKeys(toValues);
    var lows, highs := [], [];
    for i := 0 to |keys|
      invariant i <= |toKeys| && |lows| == |highs| == i
      invariant forall j :: 0 <= j < i ==> lows[j] == values.at[keys[j]].literal
      invariant forall j :: 0 <= j < i ==> highs[j] == toValues.at[toKeys[j]].literal
    {
      hide Listed, WellFormed;
      if i >= |toKeys| {
        return None;
      }
      assert keys[i] in keys && toKeys[i] in toKeys;
      highs := highs + [toValues.at[toKeys[i]].literal];
      lows := lows + [values.at[keys[i]].literal];
    }
    assert lows == Literals(values, keys) && highs == Literals(toValues, toKeys[..|keys|]);
    return Some(Bounds(lows, highs));
  }

  method ListKeys(obj: Object) returns (keys: seq<Key>)
    requires WellFormed(obj)
    ensures keys == Listed(obj.keys) && forall k :: k in keys ==> k in obj.at
  {
    ListedElements(obj.keys);
    return Listed(obj.keys);
  }

  method CullKeys(obj: Object) returns (keys: seq<Key>)
    requires WellFormed(obj)
    ensures keys == EnabledListed(obj)
  {
    var all := ListKeys(obj);
    keys := FilterKeys(obj, all);
  }

  method FilterKeys(obj: Object, all: seq<Key>) returns (keys: seq<Key>)
    requires forall k :: k in all ==> k in obj.at
    ensures keys == EnabledOf(all, EnabledKeys(obj))
  {
    keys := [];
    for i := 0 to |all|
      invariant keys + EnabledOf(all[i..], EnabledKeys(obj)) == EnabledOf(all, EnabledKeys(obj))
    {
      EnabledFrom(all, EnabledKeys(obj), i);
      if obj.at[all[i]].enabled {
        keys := keys + [all[i]];
      }
    }
  }

  lemma {:induction false} EnabledFrom(keys: seq<Key>, enabled: set<Key>, i: nat)
    requires i < |keys|
    ensures EnabledOf(keys[i..], enabled)
         == (if keys[i] in enabled then [keys[i]] else []) + EnabledOf(keys[i + 1..], enabled)
  {
    assert keys[i..][1..] == keys[i + 1..];
  }

  lemma {:induction false} InsertElements(listed: seq<Key>, k: Key)
    ensures forall x :: x in Insert(listed, k) <==> x in listed || x == k
  {
    if listed != [] && !Smaller(k, listed[0]) {
      InsertElements(listed[1..], k);
    }
  }

  lemma {:induction false} ListedElements(keys: seq<Key>)
    ensures forall x :: x in Listed(keys) <==> x in keys
  {
    if keys != [] {
      var last := |keys| - 1;
      ListedElements(keys[..last]);
      InsertElements(Listed(keys[..last]), keys[last]);
      assert keys == keys[..last] + [keys[last]];
    }
  }

  lemma {:induction false} EnabledElements(keys: seq<Key>, enabled: set<Key>)
    ensures forall x :: x in EnabledOf(keys, enabled) <==> x in keys && x in enabled
  {
    if keys != [] {
      EnabledElements(keys[1..], enabled);
    }
  }

  // ---------------------------------------------------------------- what the user asked for

  datatype Range = Range(low: Key, high: Key)

  function LowRows(ranges: seq<Range>, enabled: set<Key>, literal: Key -> Literal): seq<Row> {
    seq(|ranges|, i requires 0 <= i < |ranges| =>
      Row(ranges[i].low, Bound(literal(ranges[i].low), ranges[i].low in enabled)))
  }

  function HighRows(ranges: seq<Range>, literal: Key -> Literal): seq<Row> {
    seq(|ranges|, i requires 0 <= i < |ranges| => Row(ranges[i].high, Bound(literal(ranges[i].high), true)))
  }

  function Wanted(ranges: seq<Range>, enabled: set<Key>, literal: Key -> Literal): set<(Literal, Literal)> {
    set r | r in ranges && r.low in enabled :: (literal(r.low), literal(r.high))
  }

  function Pairs(bounds: Bounds): set<(Literal, Literal)>
    requires |bounds.lows| == |bounds.highs|
  {
    set i | 0 <= i < |bounds.lows| :: (bounds.lows[i], bounds.highs[i])
  }

  /** What the code makes of the ranges entered, by way of the two objects. */
  ghost function Paired(ranges: seq<Range>, enabled: set<Key>, literal: Key -> Literal): Option<Bounds> {
    ObjectFacts(LowRows(ranges, enabled, literal));
    ObjectFacts(HighRows(ranges, literal));
    Extracted(ObjectOf(LowRows(ranges, enabled, literal)), ObjectOf(HighRows(ranges, literal)))
  }

  /** The ranges that are tested are the enabled ranges that were entered. */
  ghost predicate PairedRight(ranges: seq<Range>, enabled: set<Key>, literal: Key -> Literal) {
    var bounds := Paired(ranges, enabled, literal);
    bounds.Some? && Pairs(bounds.value) == Wanted(ranges, enabled, literal)
  }

  function Keys(rows: seq<Row>): seq<Key> {
    seq(|rows|, i requires 0 <= i < |rows| => rows[i].key)
  }

  /** Every key where it occurs first. */
  function Uniques(keys: seq<Key>): seq<Key> {
    if keys == [] then []
    else
      var init, last := keys[..|keys| - 1], keys[|keys| - 1];
      if last in init then Uniques(init) else Uniques(init) + [last]
  }

  lemma {:induction false} UniquesElements(keys: seq<Key>)
    ensures forall x :: x in Uniques(keys) <==> x in keys
  {
    if keys != [] {
      UniquesElements(keys[..|keys| - 1]);
      assert keys == keys[..|keys| - 1] + [keys[|keys| - 1]];
    }
  }

  lemma {:induction false} ObjectFacts(rows: seq<Row>)
    ensures WellFormed(ObjectOf(rows)) && ObjectOf(rows).keys == Uniques(Keys(rows))
  {
    if rows != [] {
      var init := rows[..|rows| - 1];
      ObjectFacts(init);
      assert Keys(rows)[..|rows| - 1] == Keys(init);
      UniquesElements(Keys(init));
    }
  }

  /** If equal keys come with equal bounds, those are what the object holds. */
  lemma {:induction false} ObjectHolds(rows: seq<Row>, bound: Key -> Bound)
    requires forall row :: row in rows ==> row.bound == bound(row.key)
    ensures forall k :: k in ObjectOf(rows).at ==> ObjectOf(rows).at[k] == bound(k)
  {
    if rows != [] {
      assert rows[|rows| - 1] in rows;
      ObjectHolds(rows[..|rows| - 1], bound);
    }
  }

  // ---------------------------------------------------------------- ranks

  function First(keys: seq<Key>, k: Key): nat {
    if keys == [] || keys[0] == k then 0 else 1 + First(keys[1..], k)
  }

  lemma {:induction false} FirstFacts(keys: seq<Key>, k: Key)
    ensures First(keys, k) <= |keys|
    ensures First(keys, k) < |keys| <==> k in keys
    ensures k in keys ==> keys[First(keys, k)] == k
  {
    if keys != [] && keys[0] != k {
      FirstFacts(keys[1..], k);
    }
  }

  lemma {:induction false} FirstSnoc(keys: seq<Key>, last: Key, k: Key)
    ensures First(keys + [last], k) == if k in keys || k == last then First(keys, k) else |keys| + 1
  {
    if keys != [] && keys[0] != k {
      FirstSnoc(keys[1..], last, k);
      assert (keys + [last])[1..] == keys[1..] + [last];
    } else if keys == [] {
      assert keys + [last] == [last] && [last][1..] == [];
    }
  }

  /** `a` is listed before `b` by an object into which `keys` were inserted. */
  predicate Precedes(a: Key, b: Key, keys: seq<Key>) {
    Smaller(a, b) || (a.Name? && b.Name? && First(keys, a) < First(keys, b))
  }

  predicate Sorted(listed: seq<Key>, keys: seq<Key>) {
    forall i, j :: 0 <= i < j < |listed| ==> Precedes(listed[i], listed[j], keys)
  }

  lemma {:induction false} InsertSorts(listed: seq<Key>, keys: seq<Key>, k: Key)
    requires Sorted(listed, keys) && k !in keys && forall x :: x in listed ==> x in keys
    ensures Sorted(Insert(listed, k), keys + [k])
  {
    forall x | x in listed || x == k
      ensures First(keys + [k], x) == First(keys, x) && (x in keys ==> First(keys, x) < First(keys, k))
    {
      FirstSnoc(keys, k, x);
      FirstFacts(keys, x);
      FirstFacts(keys, k);
    }
    InsertElements(listed, k);
    if listed != [] && !Smaller(k, listed[0]) {
      var rest := listed[1..];
      InsertSorts(rest, keys, k);
      InsertElements(rest, k);
      forall x | x in Insert(rest, k)
        ensures Precedes(listed[0], x, keys + [k])
      {
        assert listed[0] in listed;
        if x != k {
          var j :| 0 <= j < |rest| && rest[j] == x;
          assert Precedes(listed[0], listed[j + 1], keys);
        }
      }
    }
  }

  /** An object lists the keys inserted, each once and in order. */
  lemma {:induction false} ListedSorted(keys: seq<Key>)
    ensures Sorted(Listed(Uniques(keys)), keys)
    ensures forall k :: k in Listed(Uniques(keys)) <==> k in keys
  {
    UniquesElements(keys);
    ListedElements(Uniques(keys));
    if keys != [] {
      var init, last := keys[..|keys| - 1], keys[|keys| - 1];
      assert keys == init + [last];
      ListedSorted(init);
      if last in init {
        SortedSnoc(Listed(Uniques(init)), init, last);
      } else {
        assert (Uniques(init) + [last])[..|Uniques(init)|] == Uniques(init);
        InsertSorts(Listed(Uniques(init)), init, last);
      }
    }
  }

  lemma {:induction false} SortedSnoc(listed: seq<Key>, keys: seq<Key>, k: Key)
    requires Sorted(listed, keys) && forall x :: x in listed ==> x in keys
    ensures Sorted(listed, keys + [k])
  {
    forall x | x in listed
      ensures First(keys + [k], x) == First(keys, x)
    {
      FirstSnoc(keys, k, x);
    }
  }

  lemma {:induction false} EnabledSorted(listed: seq<Key>, enabled: set<Key>, keys: seq<Key>)
    requires Sorted(listed, keys)
    ensures Sorted(EnabledOf(listed, enabled), keys)
  {
    if listed != [] {
      EnabledSorted(listed[1..], enabled, keys);
      EnabledElements(listed[1..], enabled);
      forall x | x in EnabledOf(listed[1..], enabled)
        ensures Precedes(listed[0], x, keys)
      {
        var j :| 0 <= j < |listed| - 1 && listed[1..][j] == x;
        assert Precedes(listed[0], listed[j + 1], keys);
      }
    }
  }

  /** How many of the keys are listed before one of them. */
  function Rank(k: Key, among: set<Key>, keys: seq<Key>): nat {
    |set x | x in among && Precedes(x, k, keys)|
  }

  lemma {:induction false} Asymmetric(a: Key, b: Key, keys: seq<Key>)
    ensures !(Precedes(a, b, keys) && Precedes(b, a, keys)) && !Precedes(a, a, keys)
    ensures a in keys && b in keys && a != b ==> Precedes(a, b, keys) || Precedes(b, a, keys)
  {
    FirstFacts(keys, a);
    FirstFacts(keys, b);
  }

  /** In a sorted list, positions are ranks. */
  lemma {:induction false} RankIsPosition(listed: seq<Key>, among: set<Key>, keys: seq<Key>, i: nat)
    requires Sorted(listed, keys) && i < |listed| && forall x :: x in listed <==> x in among
    ensures Rank(listed[i], among, keys) == i
  {
    forall x | x in among
      ensures Precedes(x, listed[i], keys) <==> x in listed[..i]
    {
      var j :| 0 <= j < |listed| && listed[j] == x;
      Asymmetric(x, listed[i], keys);
    }
    assert (set x | x in among && Precedes(x, listed[i], keys)) == (set x | x in listed[..i]);
    CountOfSorted(listed[..i], keys);
  }

  lemma {:induction false} CountOfSorted(listed: seq<Key>, keys: seq<Key>)
    requires Sorted(listed, keys)
    ensures |set x | x in listed| == |listed|
  {
    if listed != [] {
      var n := |listed| - 1;
      CountOfSorted(listed[..n], keys);
      forall j | 0 <= j < n
        ensures listed[j] != listed[n]
      {
        Asymmetric(listed[j], listed[n], keys);
      }
      assert (set x | x in listed) == (set x | x in listed[..n]) + {listed[n]};
    }
  }

  // ---------------------------------------------------------------- when ranges are paired right

  function Lows(ranges: seq<Range>): seq<Key> {
    seq(|ranges|, i requires 0 <= i < |ranges| => ranges[i].low)
  }

  function Highs(ranges: seq<Range>): seq<Key> {
    seq(|ranges|, i requires 0 <= i < |ranges| => ranges[i].high)
  }

  function EnabledLows(ranges: seq<Range>, enabled: set<Key>): set<Key> {
    set r | r in ranges && r.low in enabled :: r.low
  }

  function AllHighs(ranges: seq<Range>): set<Key> {
    set r | r in ranges :: r.high
  }

  /** Every enabled range has as many enabled lower bounds before its own as it has upper bounds before its own. */
  predicate RanksAgree(ranges: seq<Range>, enabled: set<Key>) {
    forall r :: r in ranges && r.low in enabled ==>
      Rank(r.low, EnabledLows(ranges, enabled), Lows(ranges)) == Rank(r.high, AllHighs(ranges), Highs(ranges))
  }

  function ListedLows(ranges: seq<Range>, enabled: set<Key>): seq<Key> {
    EnabledOf(Listed(Uniques(Lows(ranges))), EnabledLows(ranges, enabled))
  }

  function ListedHighs(ranges: seq<Range>): seq<Key> {
    Listed(Uniques(Highs(ranges)))
  }

  function Mapped(keys: seq<Key>, literal: Key -> Literal): seq<Literal> {
    seq(|keys|, i requires 0 <= i < |keys| => literal(keys[i]))
  }

  lemma {:induction false} ListingFacts(ranges: seq<Range>, enabled: set<Key>)
    ensures Sorted(ListedLows(ranges, enabled), Lows(ranges)) && Sorted(ListedHighs(ranges), Highs(ranges))
    ensures forall k :: k in ListedLows(ranges, enabled) <==> k in EnabledLows(ranges, enabled)
    ensures forall k :: k in ListedHighs(ranges) <==> k in AllHighs(ranges)
  {
    var lows, highs := Lows(ranges), Highs(ranges);
    ListedSorted(lows);
    ListedSorted(highs);
    EnabledSorted(Listed(Uniques(lows)), EnabledLows(ranges, enabled), lows);
    EnabledElements(Listed(Uniques(lows)), EnabledLows(ranges, enabled));
    assert forall i :: 0 <= i < |ranges| ==> ranges[i].low == lows[i] && ranges[i].high == highs[i];
  }

  lemma {:induction false} SortedIsDistinct(listed: seq<Key>, keys: seq<Key>, i: nat, j: nat)
    requires Sorted(listed, keys) && i < |listed| && j < |listed| && listed[i] == listed[j]
    ensures i == j
  {
    Asymmetric(listed[i], listed[i], keys);
  }

  lemma {:induction false} LowsHeld(ranges: seq<Range>, enabled: set<Key>, literal: Key -> Literal)
    ensures var values := ObjectOf(LowRows(ranges, enabled, literal));
      && WellFormed(values) && values.keys == Uniques(Lows(ranges))
      && (forall k :: k in values.at ==> values.at[k] == Bound(literal(k), k in enabled))
      && EnabledKeys(values) == EnabledLows(ranges, enabled)
  {
    hide Uniques, ObjectOf;
    var rows := LowRows(ranges, enabled, literal);
    var values := ObjectOf(rows);
    ObjectFacts(rows);
    ObjectHolds(rows, k => Bound(literal(k), k in enabled));
    assert Keys(rows) == Lows(ranges);
    UniquesElements(Lows(ranges));
    assert forall i :: 0 <= i < |ranges| ==> ranges[i].low == Lows(ranges)[i];
  }

  lemma {:induction false} LowsExtracted(ranges: seq<Range>, enabled: set<Key>, literal: Key -> Literal)
    ensures var values := ObjectOf(LowRows(ranges, enabled, literal));
      && WellFormed(values) && EnabledListed(values) == ListedLows(ranges, enabled)
      && Literals(values, EnabledListed(values)) == Mapped(ListedLows(ranges, enabled), literal)
  {
    LowsHeld(ranges, enabled, literal);
    hide Listed, EnabledOf, Uniques, ObjectOf, LowRows, Lows, EnabledLows;
    var values := ObjectOf(LowRows(ranges, enabled, literal));
    var keys := EnabledListed(values);
    assert keys == ListedLows(ranges, enabled);
    forall i | 0 <= i < |keys|
      ensures keys[i] in values.at && values.at[keys[i]].literal == literal(keys[i])
    {
      assert keys[i] in keys;
    }
  }

  lemma {:induction false} HighsHeld(ranges: seq<Range>, literal: Key -> Literal)
    ensures var toValues := ObjectOf(HighRows(ranges, literal));
      && WellFormed(toValues) && toValues.keys == Uniques(Highs(ranges))
      && forall k :: k in toValues.at ==> toValues.at[k] == Bound(literal(k), true)
  {
    hide Uniques, ObjectOf;
    var rows := HighRows(ranges, literal);
    ObjectFacts(rows);
    ObjectHolds(rows, k => Bound(literal(k), true));
    assert Keys(rows) == Highs(ranges);
  }

  lemma {:induction false} HighsExtracted(ranges: seq<Range>, literal: Key -> Literal, n: nat)
    requires n <= |ListedHighs(ranges)|
    ensures var toValues, keys := ObjectOf(HighRows(ranges, literal)), ListedHighs(ranges);
      && WellFormed(toValues) && Listed(toValues.keys) == keys
      && (forall k :: k in keys ==> k in toValues.at)
      && Literals(toValues, keys[..n]) == Mapped(keys[..n], literal)
  {
    HighsHeld(ranges, literal);
    hide Listed, Uniques, ObjectOf, HighRows, Highs;
    var toValues, keys := ObjectOf(HighRows(ranges, literal)), ListedHighs(ranges);
    ListedElements(toValues.keys);
    assert forall k :: k in keys ==> k in toValues.keys;
    forall i | 0 <= i < n
      ensures keys[..n][i] in toValues.at && toValues.at[keys[..n][i]].literal == literal(keys[..n][i])
    {
      assert keys[i] in keys;
    }
  }

  /** Listed at the same place. */
  predicate Matched(ranges: seq<Range>, enabled: set<Key>) {
    var lows, highs := ListedLows(ranges, enabled), ListedHighs(ranges);
    |lows| <= |highs|
    && forall r, i :: r in ranges && 0 <= i < |lows| && lows[i] == r.low ==> highs[i] == r.high
  }

  lemma {:induction false} MatchedIffRanksAgree(ranges: seq<Range>, enabled: set<Key>)
    ensures Matched(ranges, enabled) <==> RanksAgree(ranges, enabled)
  {
    var lows, highs := ListedLows(ranges, enabled), ListedHighs(ranges);
    ListingFacts(ranges, enabled);
    if RanksAgree(ranges, enabled) {
      if |lows| > |highs| {
        var r := RangeOf(ranges, enabled, lows[|highs|]);
        RanksListed(ranges, enabled, r, |highs|);
      }
      forall r, i | r in ranges && 0 <= i < |lows| && lows[i] == r.low
        ensures i < |highs| && highs[i] == r.high
      {
        assert lows[i] in lows;
        RanksListed(ranges, enabled, r, i);
      }
    }
    if Matched(ranges, enabled) {
      forall r | r in ranges && r.low in enabled
        ensures Rank(r.low, EnabledLows(ranges, enabled), Lows(ranges))
             == Rank(r.high, AllHighs(ranges), Highs(ranges))
      {
        assert r.low in EnabledLows(ranges, enabled);
        var i :| 0 <= i < |lows| && lows[i] == r.low;
        RankIsPosition(lows, EnabledLows(ranges, enabled), Lows(ranges), i);
        RankIsPosition(highs, AllHighs(ranges), Highs(ranges), i);
      }
    }
  }

  lemma {:induction false} RangeOf(ranges: seq<Range>, enabled: set<Key>, k: Key) returns (r: Range)
    requires k in ListedLows(ranges, enabled)
    ensures r in ranges && r.low == k && k in enabled
  {
    ListingFacts(ranges, enabled);
    r :| r in ranges && r.low in enabled && r.low == k;
  }

  /** Where an enabled range's bounds are listed, if its ranks agree. */
  lemma {:induction false} RanksListed(ranges: seq<Range>, enabled: set<Key>, r: Range, i: nat)
    requires RanksAgree(ranges, enabled) && r in ranges
    requires i < |ListedLows(ranges, enabled)| && ListedLows(ranges, enabled)[i] == r.low
    ensures i < |ListedHighs(ranges)| && ListedHighs(ranges)[i] == r.high
  {
    var lows, highs := ListedLows(ranges, enabled), ListedHighs(ranges);
    ListingFacts(ranges, enabled);
    assert lows[i] in lows && r.high in AllHighs(ranges);
    var j :| 0 <= j < |highs| && highs[j] == r.high;
    RankIsPosition(lows, EnabledLows(ranges, enabled), Lows(ranges), i);
    RankIsPosition(highs, AllHighs(ranges), Highs(ranges), j);
  }

  lemma {:induction false} PairedByPlace(ranges: seq<Range>, enabled: set<Key>, literal: Key -> Literal)
    ensures var lows, highs := ListedLows(ranges, enabled), ListedHighs(ranges);
      Paired(ranges, enabled, literal) ==
        if |lows| <= |highs| then Some(Bounds(Mapped(lows, literal), Mapped(highs[..|lows|], literal))) else None
  {
    var lows, highs := ListedLows(ranges, enabled), ListedHighs(ranges);
    LowsExtracted(ranges, enabled, literal);
    HighsExtracted(ranges, literal, if |lows| <= |highs| then |lows| else 0);
  }

  lemma {:induction false} MatchedPairsRight(ranges: seq<Range>, enabled: set<Key>, literal: Key -> Literal)
    requires Matched(ranges, enabled)
    ensures PairedRight(ranges, enabled, literal)
  {
    var lows, highs := ListedLows(ranges, enabled), ListedHighs(ranges);
    ListingFacts(ranges, enabled);
    PairedByPlace(ranges, enabled, literal);
    var bounds := Bounds(Mapped(lows, literal), Mapped(highs[..|lows|], literal));
    forall i | 0 <= i < |lows|
      ensures (bounds.lows[i], bounds.highs[i]) in Wanted(ranges, enabled, literal)
    {
      var r := RangeOf(ranges, enabled, lows[i]);
      assert (literal(r.low), literal(r.high)) == (bounds.lows[i], bounds.highs[i]);
    }
    forall r | r in ranges && r.low in enabled
      ensures (literal(r.low), literal(r.high)) in Pairs(bounds)
    {
      assert r.low in EnabledLows(ranges, enabled);
      var i :| 0 <= i < |lows| && lows[i] == r.low;
      assert (bounds.lows[i], bounds.highs[i]) == (literal(r.low), literal(r.high));
    }
  }

  /** Literals that tell the given keys apart. */
  function Telling(keys: seq<Key>): Key -> Literal {
    k => Val(First(keys, k))
  }

  lemma {:induction false} TellingTells(keys: seq<Key>, a: Key, b: Key)
    requires a in keys && b in keys && Telling(keys)(a) == Telling(keys)(b)
    ensures a == b
  {
    FirstFacts(keys, a);
    FirstFacts(keys, b);
  }

  lemma {:induction false} PairedRightMatches(ranges: seq<Range>, enabled: set<Key>)
    requires PairedRight(ranges, enabled, Telling(Lows(ranges) + Highs(ranges)))
    ensures Matched(ranges, enabled)
  {
    var lows, highs := ListedLows(ranges, enabled), ListedHighs(ranges);
    var all := Lows(ranges) + Highs(ranges);
    var literal := Telling(all);
    ListingFacts(ranges, enabled);
    PairedByPlace(ranges, enabled, literal);
    var bounds := Bounds(Mapped(lows, literal), Mapped(highs[..|lows|], literal));
    forall r, i | r in ranges && 0 <= i < |lows| && lows[i] == r.low
      ensures highs[i] == r.high
    {
      assert lows[i] in lows;
      assert (literal(r.low), literal(r.high)) in Pairs(bounds);
      var j :| 0 <= j < |lows| && bounds.lows[j] == literal(r.low) && bounds.highs[j] == literal(r.high);
      RangeKeys(ranges, r);
      var s := RangeOf(ranges, enabled, lows[j]);
      RangeKeys(ranges, s);
      assert highs[j] in AllHighs(ranges);
      var t :| t in ranges && t.high == highs[j];
      RangeKeys(ranges, t);
      TellingTells(all, lows[j], r.low);
      TellingTells(all, highs[j], r.high);
      SortedIsDistinct(lows, Lows(ranges), i, j);
    }
  }

  lemma {:induction false} RangeKeys(ranges: seq<Range>, r: Range)
    requires r in ranges
    ensures r.low in Lows(ranges) && r.high in Highs(ranges)
  {
    var i :| 0 <= i < |ranges| && ranges[i] == r;
    assert Lows(ranges)[i] == r.low && Highs(ranges)[i] == r.high;
  }

  /** Whatever the literals are, the ranges tested are the enabled ranges entered exactly if the ranks of their bounds
    * agree. */
  lemma {:induction false} RangesPairIffRanksAgree(ranges: seq<Range>, enabled: set<Key>)
    ensures (forall literal: Key -> Literal :: PairedRight(ranges, enabled, literal)) <==> RanksAgree(ranges, enabled)
  {
    MatchedIffRanksAgree(ranges, enabled);
    if RanksAgree(ranges, enabled) {
      forall literal: Key -> Literal
        ensures PairedRight(ranges, enabled, literal)
      {
        MatchedPairsRight(ranges, enabled, literal);
      }
    } else if PairedRight(ranges, enabled, Telling(Lows(ranges) + Highs(ranges))) {
      PairedRightMatches(ranges, enabled);
    }
  }

  // ---------------------------------------------------------------- the same order on both sides

  /** Both objects keep the ranges apart and list them in the same order. */
  predicate SameOrder(ranges: seq<Range>) {
    forall r, s :: r in ranges && s in ranges ==>
      && (r.low == s.low <==> r.high == s.high)
      && (Precedes(r.low, s.low, Lows(ranges)) <==> Precedes(r.high, s.high, Highs(ranges)))
  }

  /** No disabled lower bound is listed before an enabled one. */
  predicate EnabledFirst(ranges: seq<Range>, enabled: set<Key>) {
    forall r, s :: r in ranges && s in ranges && r.low in enabled && s.low !in enabled ==>
      !Precedes(s.low, r.low, Lows(ranges))
  }

  lemma {:induction false} ImageSize(a: set<Range>, f: Range -> Key)
    requires forall r, s :: r in a && s in a && f(r) == f(s) ==> r == s
    ensures |set r | r in a :: f(r)| == |a|
  {
    if a != {} {
      var x :| x in a;
      ImageSize(a - {x}, f);
      assert (set r | r in a :: f(r)) == (set r | r in a - {x} :: f(r)) + {f(x)};
    }
  }

  function AllLows(ranges: seq<Range>): set<Key> {
    set r | r in ranges :: r.low
  }

  /** Then every range has the same rank on both sides. */
  lemma {:induction false} SameOrderSameRank(ranges: seq<Range>, r: Range)
    requires SameOrder(ranges) && r in ranges
    ensures Rank(r.low, AllLows(ranges), Lows(ranges)) == Rank(r.high, AllHighs(ranges), Highs(ranges))
  {
    var before := set s | s in ranges && Precedes(s.low, r.low, Lows(ranges));
    var low: Range -> Key, high: Range -> Key := (s: Range) => s.low, (s: Range) => s.high;
    ImageSize(before, low);
    ImageSize(before, high);
    var lows := set k | k in AllLows(ranges) && Precedes(k, r.low, Lows(ranges));
    var highs := set k | k in AllHighs(ranges) && Precedes(k, r.high, Highs(ranges));
    assert lows == set s | s in before :: low(s) by {
      hide Precedes, Rank, SameOrder;
      forall k | k in lows
        ensures k in set s | s in before :: low(s)
      {
        var s :| s in ranges && s.low == k;
        assert s in before && low(s) == k;
      }
    }
    assert highs == set s | s in before :: high(s) by {
      hide Precedes, Rank;
      forall k | k in highs
        ensures k in set s | s in before :: high(s)
      {
        var s :| s in ranges && s.high == k;
        assert s in before && high(s) == k;
      }
    }
  }

  /** A rank among fewer keys is less exactly if one that comes before is left out. */
  lemma {:induction false} RankAmongFewer(k: Key, some: set<Key>, all: set<Key>, keys: seq<Key>)
    requires some <= all
    ensures Rank(k, some, keys) <= Rank(k, all, keys)
    ensures Rank(k, some, keys) == Rank(k, all, keys) <==> forall x :: x in all && Precedes(x, k, keys) ==> x in some
  {
    hide Precedes;
    var before, someBefore := set x | x in all && Precedes(x, k, keys), set x | x in some && Precedes(x, k, keys);
    SubsetIsSmaller(someBefore, before);
    if x :| x in all && Precedes(x, k, keys) && x !in some {
      assert x in before;
      SubsetIsSmaller(someBefore, before - {x});
    } else {
      assert someBefore == before;
    }
  }

  /** Of ranges that both objects list in the same order, the enabled ones are paired right exactly if no disabled one
    * is listed before them. */
  lemma {:induction false} SameOrderPairsIffEnabledFirst(ranges: seq<Range>, enabled: set<Key>)
    requires SameOrder(ranges)
    ensures (forall literal: Key -> Literal :: PairedRight(ranges, enabled, literal)) <==> EnabledFirst(ranges, enabled)
  {
    RangesPairIffRanksAgree(ranges, enabled);
    SameOrderRanks(ranges, enabled);
  }

  lemma {:induction false} SameOrderRanks(ranges: seq<Range>, enabled: set<Key>)
    requires SameOrder(ranges)
    ensures RanksAgree(ranges, enabled) <==> EnabledFirst(ranges, enabled)
  {
    hide Precedes, Rank, SameOrder;
    forall r | r in ranges && r.low in enabled
      ensures Rank(r.low, EnabledLows(ranges, enabled), Lows(ranges)) == Rank(r.high, AllHighs(ranges), Highs(ranges))
         <==> forall s :: s in ranges && s.low !in enabled ==> !Precedes(s.low, r.low, Lows(ranges))
    {
      SameOrderSameRank(ranges, r);
      RankAmongFewer(r.low, EnabledLows(ranges, enabled), AllLows(ranges), Lows(ranges));
    }
  }

  /** If all ranges are enabled, they are paired right exactly if both objects list them in the same order. */
  lemma {:induction false} AllEnabledPairIffSameOrder(ranges: seq<Range>, enabled: set<Key>)
    requires forall r :: r in ranges ==> r.low in enabled
    ensures (forall literal: Key -> Literal :: PairedRight(ranges, enabled, literal)) <==> SameOrder(ranges)
  {
    if SameOrder(ranges) {
      SameOrderPairsIffEnabledFirst(ranges, enabled);
    } else {
      RangesPairIffRanksAgree(ranges, enabled);
      MatchedIffRanksAgree(ranges, enabled);
      if Matched(ranges, enabled) {
        forall r, s | r in ranges && s in ranges
          ensures r.low == s.low <==> r.high == s.high
          ensures Precedes(r.low, s.low, Lows(ranges)) <==> Precedes(r.high, s.high, Highs(ranges))
        {
          MatchedSameOrder(ranges, enabled, r, s);
        }
      }
    }
  }

  lemma {:induction false} MatchedSameOrder(ranges: seq<Range>, enabled: set<Key>, r: Range, s: Range)
    requires Matched(ranges, enabled) && r in ranges && s in ranges && r.low in enabled && s.low in enabled
    ensures r.low == s.low <==> r.high == s.high
    ensures Precedes(r.low, s.low, Lows(ranges)) <==> Precedes(r.high, s.high, Highs(ranges))
  {
    var lows, highs := ListedLows(ranges, enabled), ListedHighs(ranges);
    ListingFacts(ranges, enabled);
    assert r.low in EnabledLows(ranges, enabled) && s.low in EnabledLows(ranges, enabled);
    var i :| 0 <= i < |lows| && lows[i] == r.low;
    var j :| 0 <= j < |lows| && lows[j] == s.low;
    Asymmetric(r.low, s.low, Lows(ranges));
    Asymmetric(r.high, s.high, Highs(ranges));
    assert highs[i] == r.high && highs[j] == s.high;
  }

  // ---------------------------------------------------------------- ranges that go wrong

  lemma {:induction false} TwoUniques(a: Key, b: Key)
    ensures Uniques([a, b]) == if a == b then [a] else [a, b]
  {
    assert [a, b][..1] == [a] && [a][..0] == [] && [] + [a] == [a] && [a] + [b] == [a, b];
    assert Uniques([]) == [] && Uniques([a]) == [a];
  }

  lemma {:induction false} TwoListed(a: Key, b: Key)
    ensures Listed([a]) == [a]
    ensures Listed([a, b]) == if Smaller(b, a) then [b, a] else [a, b]
  {
    hide Smaller;
    assert [a, b][..1] == [a] && [a][..0] == [] && [a][1..] == [];
    assert Listed([]) == [] && Insert([], a) == [a] && Insert([], b) == [b];
    assert Insert([a], b) == if Smaller(b, a) then [b] + [a] else [a] + [b];
  }

  lemma {:induction false} TwoEnabled(a: Key, b: Key, enabled: set<Key>)
    ensures EnabledOf([a, b], enabled) == (if a in enabled then [a] else []) + (if b in enabled then [b] else [])
  {
    assert [a, b][1..] == [b] && [b][1..] == [];
    assert EnabledOf([b], enabled) == if b in enabled then [b] else [];
  }

  /** How two ranges are listed. */
  lemma {:induction false} TwoRanges(r: Range, s: Range, enabled: set<Key>)
    requires r.low != s.low
    ensures ListedLows([r, s], enabled) ==
      var a, b := if Smaller(s.low, r.low) then s.low else r.low, if Smaller(s.low, r.low) then r.low else s.low;
      (if a in enabled then [a] else []) + (if b in enabled then [b] else [])
    ensures ListedHighs([r, s]) ==
      if r.high == s.high then [r.high] else if Smaller(s.high, r.high) then [s.high, r.high] else [r.high, s.high]
  {
    hide Listed, Uniques, EnabledOf, Smaller;
    var ranges := [r, s];
    assert r in ranges && s in ranges;
    assert Lows(ranges) == [r.low, s.low] && Highs(ranges) == [r.high, s.high];
    TwoUniques(r.low, s.low);
    TwoUniques(r.high, s.high);
    TwoListed(r.low, s.low);
    TwoListed(r.high, s.high);
    TwoEnabled(r.low, s.low, EnabledLows(ranges, enabled));
    TwoEnabled(s.low, r.low, EnabledLows(ranges, enabled));
  }

  /** From -5 to 0 and from 7 to 10, both enabled, 7 is paired with 0 and -5 with 10. If only the range from -5 is
    * enabled it is paired right, although a disabled one is listed before it and the orders differ. */
  lemma {:induction false} OrderMispairs(minusFive: Text, literal: Key -> Literal)
    ensures var ranges := [Range(Name(minusFive), Index(0)), Range(Index(7), Index(10))];
      && Paired(ranges, {Name(minusFive), Index(7)}, literal)
           == Some(Bounds([literal(Index(7)), literal(Name(minusFive))], [literal(Index(0)), literal(Index(10))]))
      && Paired(ranges, {Name(minusFive)}, literal)
           == Some(Bounds([literal(Name(minusFive))], [literal(Index(0))]))
      && !SameOrder(ranges) && !EnabledFirst(ranges, {Name(minusFive)})
  {
    hide Listed, Uniques, EnabledOf, Paired, ListedLows, ListedHighs;
    var r, s := Range(Name(minusFive), Index(0)), Range(Index(7), Index(10));
    var ranges := [r, s];
    var both, one := {r.low, s.low}, {r.low};
    assert r in ranges && s in ranges;
    TwoRanges(r, s, both);
    TwoRanges(r, s, one);
    PairedByPlace(ranges, both, literal);
    PairedByPlace(ranges, one, literal);
    assert ListedLows(ranges, both) == [s.low, r.low] && ListedLows(ranges, one) == [r.low];
    assert ListedHighs(ranges) == [r.high, s.high];
    assert [r.high, s.high][..1] == [r.high] && [r.high, s.high][..2] == [r.high, s.high];
    assert Mapped([s.low, r.low], literal) == [literal(s.low), literal(r.low)];
    assert Mapped([r.high, s.high], literal) == [literal(r.high), literal(s.high)];
    assert Mapped([r.low], literal) == [literal(r.low)] && Mapped([r.high], literal) == [literal(r.high)];
    assert Precedes(s.low, r.low, Lows(ranges)) && !Precedes(s.high, r.high, Highs(ranges));
  }

  /** From 1 to 10 and from 2 to 10, both enabled, the second lower bound finds no upper bound. */
  lemma {:induction false} SharedUpperBoundFails(literal: Key -> Literal)
    ensures Paired([Range(Index(1), Index(10)), Range(Index(2), Index(10))], {Index(1), Index(2)}, literal) == None
  {
    hide Listed, Uniques, EnabledOf, Paired, ListedLows, ListedHighs;
    var r, s := Range(Index(1), Index(10)), Range(Index(2), Index(10));
    TwoRanges(r, s, {r.low, s.low});
    PairedByPlace([r, s], {r.low, s.low}, literal);
  }

  /** Both ranges listed in the same order, but the first disabled: the second gets the first one's upper bound. */
  lemma {:induction false} DisabledRangeMispairs(literal: Key -> Literal)
    ensures Paired([Range(Index(1), Index(2)), Range(Index(3), Index(4))], {Index(3)}, literal)
         == Some(Bounds([literal(Index(3))], [literal(Index(2))]))
  {
    hide Listed, Uniques, EnabledOf, Paired, ListedLows, ListedHighs;
    var r, s := Range(Index(1), Index(2)), Range(Index(3), Index(4));
    TwoRanges(r, s, {s.low});
    PairedByPlace([r, s], {s.low}, literal);
    assert ListedLows([r, s], {s.low}) == [s.low] && ListedHighs([r, s])[..1] == [r.high];
    assert Mapped([s.low], literal) == [literal(s.low)] && Mapped([r.high], literal) == [literal(r.high)];
  }
}
