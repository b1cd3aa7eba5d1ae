/** The tuple cache of src/DataSet/TupleSet.js.
  *
  * An insertion-ordered map holds the recency of the tuples, and the total of their serialized sizes is kept
  * up to date. Queries are ranges of the uncached axis result.
  */
module TupleCache {
  import opened ClientCache
  import opened Options
  import opened Recency

  datatype Tuple = Tuple(values: seq<string>, groupingId: nat)

  /** How a cached tuple is written as an entry of a JSON object, its key included. */
  type Render = (nat, Tuple) -> string

  /** The fields that the source keeps in step: the cached tuples, the lengths of their entries, the sum of
    * those lengths, and the insertion-ordered map whose first key is the least recently used. The tuples are
    * elements of an array, whose length removing a tuple does not change. */
  datatype State = State(tuples: map<nat, Tuple>, sizes: map<nat, nat>, total: int, order: seq<nat>, length: nat)

  const Empty := State(map[], map[], 0, [], 0)

  function CacheSize(s: State): int {
    if |s.sizes| == 0 then 2 else 2 + s.total + (|s.sizes| - 1)
  }

  function Touch(s: State, k: nat): State {
    s.(order := Touched(s.order, k))
  }

  function Store(s: State, k: nat, tuple: Tuple, render: Render): State {
    State(s.tuples[k := tuple], s.sizes[k := |render(k, tuple)|],
          s.total - (if k in s.sizes then s.sizes[k] else 0) + |render(k, tuple)|, s.order, Longer(s.length, k))
  }

  /** The length of an array once its k-th element is assigned. */
  function Longer(length: nat, k: nat): nat { if k < length then length else k + 1 }

  /** How a row of a result enters the cache: stored, then touched. */
  function Write(s: State, k: nat, tuple: Tuple, render: Render): State {
    Touch(Store(s, k, tuple, render), k)
  }

  function Remove(s: State, k: nat): State {
    State(s.tuples - {k}, s.sizes - {k}, s.total - (if k in s.sizes then s.sizes[k] else 0), Without(s.order, k),
          s.length)
  }

  /** Evict from the front of the order while a limit is exceeded. */
  function Enforced(s: State, maxEntries: int, maxBytes: int): State
    decreases |s.order|
  {
    if |s.order| <= maxEntries && CacheSize(s) <= maxBytes then s
    else if s.order == [] then s
    else
      WithoutFirstIsShorter(s.order);
      Enforced(Remove(s, s.order[0]), maxEntries, maxBytes)
  }

  lemma {:induction false} WithoutFirstIsShorter(order: seq<nat>)
    requires order != []
    ensures |Without(order, order[0])| < |order|
  {
    WithoutLength(order[1..], order[0]);
  }

  lemma {:induction false} WithoutLength(order: seq<nat>, k: nat)
    ensures |Without(order, k)| <= |order|
  {
    if order != [] {
      WithoutLength(order[1..], k);
    }
  }

  // ---------------------------------------------------------------- what every operation keeps

  ghost predicate Consistent(s: State, render: Render) {
    && NoDuplicates(s.order)
    && (forall k :: k in s.order <==> k in s.tuples)
    && s.sizes.Keys == s.tuples.Keys
    && (forall k :: k in s.tuples ==> s.sizes[k] == |render(k, s.tuples[k])| && k < s.length)
    && s.total == Weight(Live(s.order, s.sizes))
  }

  function Written(tuples: map<nat, Tuple>, render: Render): map<nat, string> {
    map k | k in tuples :: render(k, tuples[k])
  }

  /** The size that the cache reports is the length of the JSON object of all its live tuples. */
  lemma {:induction false} ReportedSizeIsJsonLength(s: State, render: Render)
    requires Consistent(s, render)
    ensures CacheSize(s) == |ObjectText(Listed(s.order, Written(s.tuples, render)))|
    ensures CacheSize(s) == JsonSize(Live(s.order, s.sizes))
  {
    KeysCounted(s.order, s.sizes);
    JsonSizeIsLength(s.order, Written(s.tuples, render), s.sizes);
  }

  lemma {:induction false} WriteKeepsConsistent(s: State, k: nat, tuple: Tuple, render: Render)
    requires Consistent(s, render)
    ensures Consistent(Write(s, k, tuple, render), render)
  {
    TouchedNoDuplicates(s.order, k);
    WeightWrite(s.order, s.sizes, k, |render(k, tuple)|);
  }

  lemma {:induction false} TouchKeepsConsistent(s: State, k: nat, render: Render)
    requires Consistent(s, render) && k in s.tuples
    ensures Consistent(Touch(s, k), render)
  {
    WriteKeepsConsistent(s, k, s.tuples[k], render);
    assert s.tuples[k := s.tuples[k]] == s.tuples && Longer(s.length, k) == s.length;
    assert s.sizes[k := s.sizes[k]] == s.sizes;
    assert Store(s, k, s.tuples[k], render) == s;
  }

  lemma {:induction false} RemoveKeepsConsistent(s: State, k: nat, render: Render)
    requires Consistent(s, render)
    ensures Consistent(Remove(s, k), render)
  {
    WithoutNoDuplicates(s.order, k);
    LiveFrame(Without(s.order, k), s.sizes, s.sizes - {k});
    if k in s.tuples {
      WeightWithout(s.order, s.sizes, k);
    } else {
      WithoutAbsent(s.order, k);
    }
  }

  /** After enforcing the limits, the survivors are the longest recently touched run that meets both limits
    * (or nothing), unchanged and still in order. */
  lemma {:induction false} EnforcedKeepsTheLongestRecentRun(s: State, render: Render, maxEntries: int, maxBytes: int)
    requires Consistent(s, render)
    ensures var r := Enforced(s, maxEntries, maxBytes);
      && Consistent(r, render)
      && (forall k :: k in r.tuples ==> k in s.tuples && r.tuples[k] == s.tuples[k]) && r.length == s.length
      && Live(r.order, r.sizes) == Survivors(Live(s.order, s.sizes), Fits(maxEntries, maxBytes))
    decreases |s.order|
  {
    ReportedSizeIsJsonLength(s, render);
    var live := Live(s.order, s.sizes);
    if s.order != [] && !Fits(maxEntries, maxBytes)(live) {
      var s' := Remove(s, s.order[0]);
      RemoveKeepsConsistent(s, s.order[0], render);
      WithoutPresent(s.order, s.order[0]);
      LiveFrame(s.order[1..], s.sizes, s'.sizes);
      assert Live(s'.order, s'.sizes) == live[1..];
      EnforcedKeepsTheLongestRecentRun(s', render, maxEntries, maxBytes);
    }
  }

  // ---------------------------------------------------------------- loading a page

  /** Store and touch the rows of a result that starts at `offset`, one after the other. */
  function Loaded(s: State, rows: seq<Tuple>, offset: nat, render: Render): State {
    if rows == [] then s
    else
      var last := |rows| - 1;
      Write(Loaded(s, rows[..last], offset, render), offset + last, rows[last], render)
  }

  lemma {:induction false} LoadedKeepsConsistent(s: State, rows: seq<Tuple>, offset: nat, render: Render)
    requires Consistent(s, render)
    ensures Consistent(Loaded(s, rows, offset, render), render)
  {
    hide Consistent;
    if rows != [] {
      var last := |rows| - 1;
      LoadedKeepsConsistent(s, rows[..last], offset, render);
      WriteKeepsConsistent(Loaded(s, rows[..last], offset, render), offset + last, rows[last], render);
    }
  }

  function LengthAfter(length: nat, offset: nat, n: nat): nat {
    if n == 0 then length else Longer(length, offset + n - 1)
  }

  lemma {:induction false} LoadedContents(s: State, rows: seq<Tuple>, offset: nat, render: Render, k: nat)
    ensures var r := Loaded(s, rows, offset, render).tuples;
      if offset <= k < offset + |rows| then k in r && r[k] == rows[k - offset]
      else (k in r <==> k in s.tuples) && (k in r ==> r[k] == s.tuples[k])
    ensures Loaded(s, rows, offset, render).length == LengthAfter(s.length, offset, |rows|)
  {
    if rows != [] {
      LoadedContents(s, rows[..|rows| - 1], offset, render, k);
    }
  }

  /** Rows `offset .. offset + limit` of the uncached axis result. */
  function Fetch(axis: seq<Tuple>, offset: nat, limit: nat): seq<Tuple> {
    if offset >= |axis| then [] else axis[offset..Min(offset + limit, |axis|)]
  }

  function Min(a: int, b: int): int { if a < b then a else b }

  /** Every cached tuple is the uncached one, and the array is not longer than the axis. */
  ghost predicate Agrees(s: State, axis: seq<Tuple>) {
    s.length <= |axis| && forall k :: k in s.tuples ==> k < |axis| && s.tuples[k] == axis[k]
  }

  /** What a slice of the cached array reads, with nothing for a missing element. */
  function PageOf(tuples: map<nat, Tuple>, offset: nat, n: nat): (page: seq<Option<Tuple>>)
    ensures |page| == n
  {
    seq(n, i requires 0 <= i < n => if offset + i in tuples then Some(tuples[offset + i]) else None)
  }

  /** The indices of a page that are not cached, in ascending order. */
  function Gaps(tuples: map<nat, Tuple>, offset: nat, n: nat): seq<nat> {
    if n == 0 then []
    else Gaps(tuples, offset, n - 1) + (if offset + n - 1 in tuples then [] else [offset + n - 1])
  }

  lemma {:induction false} GapsFacts(tuples: map<nat, Tuple>, offset: nat, n: nat)
    ensures var gaps := Gaps(tuples, offset, n);
      && (forall k :: k in gaps <==> offset <= k < offset + n && k !in tuples)
      && (gaps != [] ==> offset <= gaps[0] <= gaps[|gaps| - 1] < offset + n)
      && (gaps != [] ==> forall k :: k in gaps ==> gaps[0] <= k <= gaps[|gaps| - 1])
  {
    if n > 0 {
      GapsFacts(tuples, offset, n - 1);
      var before := Gaps(tuples, offset, n - 1);
      if before != [] {
        assert (before + [offset + n - 1])[0] == before[0];
      }
    }
  }

  datatype Request = Request(first: nat, limit: nat)

  /** How many tuples are looked at: fewer than asked for beyond a known count. */
  function Clamped(c: Count, count: int, offset: nat): nat {
    var n := if c.Known? && offset + count > c.value then c.value - offset else count;
    if n < 0 then 0 else n
  }

  /** What is fetched for a page: from the first missing tuple to the last one, or a whole page size if that runs up
    * to the end of the page and the axis goes on. */
  function ToFetch(s: State, c: Count, count: int, offset: nat, pageSize: nat): (request: Option<Request>)
    ensures request.Some? ==> request.value.limit > 0 && request.value.first >= offset
  {
    var n := Clamped(c, count, offset);
    var gaps := Gaps(s.tuples, offset, n);
    if gaps == [] then None
    else
      GapsFacts(s.tuples, offset, n);
      var first, end := gaps[0], gaps[|gaps| - 1] + 1;
      var more := end - first < pageSize && offset + n == end && c.Known? && end < c.value;
      Some(Request(first, if more then pageSize else end - first))
  }

  /** The index is on the page asked for, as far as the axis goes if it is counted. */
  predicate OnPage(c: Count, count: int, offset: nat, k: nat) {
    offset <= k < offset + count && (c.Known? ==> k < c.value)
  }

  /** `k` is the first missing tuple of the page. */
  ghost predicate FirstMissing(tuples: map<nat, Tuple>, c: Count, count: int, offset: nat, k: nat) {
    && OnPage(c, count, offset, k) && k !in tuples
    && forall i: nat :: OnPage(c, count, offset, i) && i !in tuples ==> k <= i
  }

  ghost predicate LastMissing(tuples: map<nat, Tuple>, c: Count, count: int, offset: nat, k: nat) {
    && OnPage(c, count, offset, k) && k !in tuples
    && forall i: nat :: OnPage(c, count, offset, i) && i !in tuples ==> i <= k
  }

  /** Nothing is fetched if the whole page is cached. Otherwise the fetch is from the first missing tuple to the last;
    * it is a page size long if that is longer, the last missing tuple ends the page, and a counted axis goes on. */
  ghost predicate FetchesMissing(tuples: map<nat, Tuple>, c: Count, count: int, offset: nat, pageSize: nat,
                                 request: Option<Request>)
  {
    match request
    case None => forall k: nat :: OnPage(c, count, offset, k) ==> k in tuples
    case Some(r) =>
      && FirstMissing(tuples, c, count, offset, r.first)
      && exists last: nat :: LastMissing(tuples, c, count, offset, last)
           && var least := last + 1 - r.first;
              var longer := least < pageSize && !OnPage(c, count, offset, last + 1) && c.Known? && last + 1 < c.value;
              r.limit == if longer then pageSize else least
  }

  lemma {:induction false} ToFetchIsMissing(s: State, c: Count, count: int, offset: nat, pageSize: nat)
    ensures FetchesMissing(s.tuples, c, count, offset, pageSize, ToFetch(s, c, count, offset, pageSize))
  {
    var n := Clamped(c, count, offset);
    var gaps := Gaps(s.tuples, offset, n);
    GapsFacts(s.tuples, offset, n);
    assert forall k: nat :: OnPage(c, count, offset, k) <==> offset <= k < offset + n;
    if gaps != [] {
      var first, last := gaps[0], gaps[|gaps| - 1];
      assert first in gaps && last in gaps;
      assert FirstMissing(s.tuples, c, count, offset, first);
      assert LastMissing(s.tuples, c, count, offset, last);
    }
  }

  /** `page` is what the axis has of the page asked for, with holes where a tuple is not cached. */
  ghost predicate IsPage(tuples: map<nat, Tuple>, c: Count, count: int, offset: nat, axis: seq<Tuple>,
                         page: seq<Option<Tuple>>)
  {
    && (forall k: nat :: offset <= k < offset + |page| <==> OnPage(c, count, offset, k) && k < |axis|)
    && (forall i :: 0 <= i < |page| && offset + i < |axis| ==>
          page[i] == if offset + i in tuples then Some(axis[offset + i]) else None)
  }

  lemma {:induction false} PageIsRead(s: State, c: Count, count: int, offset: nat, axis: seq<Tuple>)
    requires Agrees(s, axis)
    ensures var n := Max(0, Min(Clamped(c, count, offset), |axis| - offset));
      IsPage(s.tuples, c, count, offset, axis, PageOf(s.tuples, offset, n))
  {
    hide Consistent;
  }

  function Queried(s: State, request: Request, axis: seq<Tuple>, render: Render): State {
    Loaded(s, Fetch(axis, request.first, request.limit), request.first, render)
  }

  lemma {:induction false} LoadedAgrees(s: State, axis: seq<Tuple>, first: nat, limit: nat, render: Render)
    requires Agrees(s, axis)
    ensures var r := Loaded(s, Fetch(axis, first, limit), first, render);
      && Agrees(r, axis)
      && (forall k :: first <= k < first + limit && k < |axis| ==> k in r.tuples)
      && (forall k :: k in s.tuples ==> k in r.tuples)
      && r.length == LengthAfter(s.length, first, |Fetch(axis, first, limit)|)
  {
    var rows := Fetch(axis, first, limit);
    var r := Loaded(s, rows, first, render);
    LoadedContents(s, rows, first, render, 0);
    forall k: nat
      ensures k in r.tuples ==> k < |axis| && r.tuples[k] == axis[k]
      ensures first <= k < first + limit && k < |axis| ==> k in r.tuples
      ensures k in s.tuples ==> k in r.tuples
    {
      LoadedContents(s, rows, first, render, k);
    }
  }

  /** A range of the axis that was loaded, and what is left of it. */
  lemma {:induction false} QueryFacts(s: State, axis: seq<Tuple>, first: nat, limit: nat, render: Render,
                                      maxEntries: int, maxBytes: int)
    requires Consistent(s, render) && Agrees(s, axis)
    ensures var loaded := Loaded(s, Fetch(axis, first, limit), first, render);
            var kept := Enforced(loaded, maxEntries, maxBytes);
      && Consistent(loaded, render) && Agrees(loaded, axis)
      && (forall k :: k in s.tuples || (first <= k < first + limit && k < |axis|) ==> k in loaded.tuples)
      && Consistent(kept, render) && Agrees(kept, axis)
      && kept.length == loaded.length == LengthAfter(s.length, first, |Fetch(axis, first, limit)|)
  {
    var rows := Fetch(axis, first, limit);
    var loaded := Loaded(s, rows, first, render);
    LoadedAgrees(s, axis, first, limit, render);
    LoadedKeepsConsistent(s, rows, first, render);
    EnforcedKeepsTheLongestRecentRun(loaded, render, maxEntries, maxBytes);
    hide Consistent, Loaded, Enforced, Fetch, LengthAfter;
  }

  // ---------------------------------------------------------------- the object

  /** `lastColumn` is what `parseInt` makes of the last selected column of a tuple. */
  class TupleSet {
    const render: Render
    const lastColumn: Tuple -> Parsed
    var tuples: map<nat, Tuple>
    var sizes: map<nat, nat>
    var total: int
    var order: seq<nat>
    var tupleCount: Count
    var length: nat
    var pageSize: nat

    function Contents(): State
      reads this
    {
      State(tuples, sizes, total, order, length)
    }

    ghost predicate Valid()
      reads this
    {
      Consistent(Contents(), render)
    }

    constructor (render: Render, lastColumn: Tuple -> Parsed)
      ensures Valid() && Contents() == Empty && tupleCount == Unknown && pageSize == 50
      ensures this.render == render && this.lastColumn == lastColumn
    {
      this.render, this.lastColumn := render, lastColumn;
      tuples, sizes, total, order, length := map[], map[], 0, [], 0;
      tupleCount, pageSize := Unknown, 50;
    }

    method Clear()
      modifies this
      ensures Valid() && Contents() == Empty && tupleCount == Unknown
      ensures pageSize == old(pageSize)
    {
      tuples, sizes, total, order, length := map[], map[], 0, [], 0;
      tupleCount := Unknown;
    }

    method TouchTuple(k: nat)
      modifies `order
      ensures Contents() == Touch(old(Contents()), k)
    {
      order := Without(order, k);
      order := order + [k];
    }

    method RemoveTuple(k: nat)
      modifies `tuples, `sizes, `total, `order
      ensures Contents() == Remove(old(Contents()), k)
    {
      tuples := tuples - {k};
      if k in sizes {
        total := total - sizes[k];
        sizes := sizes - {k};
      }
      order := Without(order, k);
      assert k !in old(sizes) ==> sizes == old(sizes) - {k};
    }

    method StoreTuple(k: nat, tuple: Tuple)
      modifies `tuples, `sizes, `total, `length
      ensures Contents() == Store(old(Contents()), k, tuple, render)
    {
      if k in sizes {
        total := total - sizes[k];
      }
      tuples, length := tuples[k := tuple], Longer(length, k);
      var size := |render(k, tuple)|;
      sizes := sizes[k := size];
      total := total + size;
    }

    method EnforceCacheLimits(maxEntries: int, maxBytes: int)
      requires Valid()
      modifies `tuples, `sizes, `total, `order
      ensures Valid()
      ensures Contents() == Enforced(old(Contents()), maxEntries, maxBytes)
    {
      while |order| > maxEntries || CacheSize(Contents()) > maxBytes
        invariant Valid()
        invariant Enforced(Contents(), maxEntries, maxBytes) == Enforced(old(Contents()), maxEntries, maxBytes)
        decreases |order|
      {
        if order == [] {
          break;
        }
        RemoveKeepsConsistent(Contents(), order[0], render);
        WithoutFirstIsShorter(order);
        RemoveTuple(order[0]);
      }
    }

    method GetTupleSync(k: nat) returns (r: Option<Tuple>)
      requires Valid()
      modifies `order
      ensures Valid()
      ensures r == if k in tuples then Some(tuples[k]) else None
      ensures Contents() == if k in tuples then Touch(old(Contents()), k) else old(Contents())
    {
      if k in tuples {
        TouchKeepsConsistent(Contents(), k, render);
        r := Some(tuples[k]);
        TouchTuple(k);
      } else {
        r := None;
      }
    }

    /** `totalCount` is known when the caller counted the axis first. */
    method LoadTuples(rows: seq<Tuple>, offset: nat, totalCount: Option<nat>, maxEntries: int, maxBytes: int)
      requires Valid()
      modifies `tuples, `sizes, `total, `order, `length, `tupleCount
      ensures Valid()
      ensures Contents() == Enforced(Loaded(old(Contents()), rows, offset, render), maxEntries, maxBytes)
      ensures tupleCount == if offset != 0 then old(tupleCount)
                            else if totalCount.Some? then Known(totalCount.value)
                            else if rows == [] then Known(0) else lastColumn(rows[0])
    {
      hide Consistent, Loaded, Enforced;
      if offset == 0 {
        tupleCount := if totalCount.Some? then Known(totalCount.value)
                      else if rows == [] then Known(0) else lastColumn(rows[0]);
      }
      LoadedKeepsConsistent(Contents(), rows, offset, render);
      StoreRows(rows, offset);
      EnforceCacheLimits(maxEntries, maxBytes);
    }

    method StoreRows(rows: seq<Tuple>, offset: nat)
      modifies `tuples, `sizes, `total, `order, `length
      ensures Contents() == Loaded(old(Contents()), rows, offset, render)
    {
      for i := 0 to |rows|
        invariant Contents() == Loaded(old(Contents()), rows[..i], offset, render)
      {
        assert rows[..i + 1][..i] == rows[..i];
        WriteRow(offset + i, rows[i]);
      }
      assert rows[..|rows|] == rows;
    }

    method WriteRow(k: nat, tuple: Tuple)
      modifies `tuples, `sizes, `total, `order, `length
      ensures Contents() == Write(old(Contents()), k, tuple, render)
    {
      StoreTuple(k, tuple);
      TouchTuple(k);
    }

    /** Read a page from the cache and find the least range of indices that covers what is missing from it. */
    method ScanPage(n: int, offset: nat) returns (page: seq<Option<Tuple>>, first: Option<nat>, last: nat)
      ensures page == PageOf(tuples, offset, if n < 0 then 0 else n)
      ensures var gaps := Gaps(tuples, offset, if n < 0 then 0 else n);
        if gaps == [] then first == None else first == Some(gaps[0]) && last == gaps[|gaps| - 1]
    {
      page, first, last := [], None, 0;
      var i := 0;
      while i < n
        invariant 0 <= i && (n >= 0 ==> i <= n) && (n < 0 ==> i == 0)
        invariant page == PageOf(tuples, offset, i)
        invariant var gaps := Gaps(tuples, offset, i);
          if gaps == [] then first == None else first == Some(gaps[0]) && last == gaps[|gaps| - 1]
        decreases n - i
      {
        var k := offset + i;
        GapsFacts(tuples, offset, i);
        if k !in tuples {
          if first.None? {
            first, last := Some(k), k;
          } else if k > last {
            last := k;
          }
          page := page + [None];
        } else {
          page := page + [Some(tuples[k])];
        }
        i := i + 1;
      }
    }

    /** Fetch a range of the axis and load it; the axis is counted first when its start is read uncounted. */
    method ExecuteAxisQuery(limit: nat, offset: nat, axis: seq<Tuple>, maxEntries: int, maxBytes: int)
      returns (ghost loaded: State)
      requires Valid() && Agrees(Contents(), axis) && limit > 0
      modifies `tuples, `sizes, `total, `order, `length, `tupleCount
      ensures Valid() && Agrees(Contents(), axis)
      ensures loaded == Loaded(old(Contents()), Fetch(axis, offset, limit), offset, render)
      ensures Consistent(loaded, render) && Agrees(loaded, axis)
      ensures forall k :: k in old(tuples) || (offset <= k < offset + limit && k < |axis|) ==> k in loaded.tuples
      ensures length == LengthAfter(old(length), offset, |Fetch(axis, offset, limit)|)
      ensures Contents() == Enforced(loaded, maxEntries, maxBytes)
      ensures tupleCount == CountAfter(old(tupleCount), offset == 0, axis, lastColumn)
    {
      var totalCount := if offset == 0 && tupleCount == Unknown then Some(|axis|) else None;
      var rows := Fetch(axis, offset, limit);
      assert offset == 0 ==> if axis == [] then rows == [] else rows != [] && rows[0] == axis[0];
      loaded := Loaded(Contents(), rows, offset, render);
      QueryFacts(Contents(), axis, offset, limit, render, maxEntries, maxBytes);
      hide Consistent, Loaded, Enforced, Fetch, LengthAfter, Agrees;
      LoadTuples(rows, offset, totalCount, maxEntries, maxBytes);
    }

    /** A page of the axis: `page[i]` is the tuple at `offset + i`, or nothing where the source leaves a hole.
      * Inside the axis a hole only appears where enforcing the limits evicted what was loaded. */
    method GetTuples(count: int, offset: nat, axis: seq<Tuple>, maxEntries: int, maxBytes: int)
      returns (page: seq<Option<Tuple>>, ghost loaded: State)
      requires Valid() && Agrees(Contents(), axis)
      modifies `tuples, `sizes, `total, `order, `length, `tupleCount
      ensures Valid() && Agrees(Contents(), axis)
      ensures |page| == Max(0, Min(Clamped(old(tupleCount), count, offset), |axis| - offset))
      ensures page == PageOf(tuples, offset, |page|)
      ensures Consistent(loaded, render) && Agrees(loaded, axis)
      ensures forall k :: offset <= k < offset + |page| ==> k in loaded.tuples
      ensures var request := ToFetch(old(Contents()), old(tupleCount), count, offset, pageSize);
        if request.None? then
          loaded == Contents() == old(Contents()) && tupleCount == old(tupleCount)
        else
          && loaded == Queried(old(Contents()), request.value, axis, render)
          && Contents() == Enforced(loaded, maxEntries, maxBytes)
          && tupleCount == CountAfter(old(tupleCount), request.value.first == 0, axis, lastColumn)
      ensures FetchesMissing(old(tuples), old(tupleCount), count, offset, pageSize,
                             ToFetch(old(Contents()), old(tupleCount), count, offset, pageSize))
      ensures IsPage(tuples, old(tupleCount), count, offset, axis, page)
    {
      hide Consistent, Loaded, Enforced, Fetch, LengthAfter, Agrees, Gaps, ToFetch, Clamped, CountAfter, PageOf;
      hide FetchesMissing, IsPage;
      ghost var before := tupleCount;
      var request: Option<Request>, n: nat;
      ToFetchIsMissing(Contents(), tupleCount, count, offset, pageSize);
      page, request, n := PlanPage(count, offset);
      loaded := Contents();
      if request.None? {
        CachedPage(Contents(), tupleCount, axis, count, offset, pageSize);
        PageIsRead(Contents(), before, count, offset, axis);
        return;
      }
      PageEnds(Contents(), render, tupleCount, axis, count, offset, pageSize);
      loaded := ExecuteAxisQuery(request.value.limit, request.value.first, axis, maxEntries, maxBytes);
      page := PageOf(tuples, offset, Max(0, Min(offset + n, length) - offset));
      PageIsRead(Contents(), before, count, offset, axis);
    }

    /** What of a page is cached, and what to fetch. */
    method PlanPage(count: int, offset: nat) returns (page: seq<Option<Tuple>>, request: Option<Request>, n: nat)
      ensures n == Clamped(tupleCount, count, offset) && page == PageOf(tuples, offset, n)
      ensures request == ToFetch(Contents(), tupleCount, count, offset, pageSize)
    {
      var wanted := count;
      if tupleCount.Known? && offset + wanted > tupleCount.value {
        wanted := tupleCount.value - offset;
      }
      n := if wanted < 0 then 0 else wanted;
      var first: Option<nat>, last: nat;
      page, first, last := ScanPage(wanted, offset);
      if first.None? {
        return page, None, n;
      }
      GapsFacts(tuples, offset, n);
      last := last + 1;
      var newCount := last - first.value;
      if newCount < pageSize && offset + wanted == last && tupleCount.Known? && last < tupleCount.value {
        newCount := pageSize;
      }
      request := Some(Request(first.value, newCount));
    }
  }

  /** A page that needs no query lies inside the axis. */
  lemma {:induction false} CachedPage(s: State, c: Count, axis: seq<Tuple>, count: int, offset: nat, pageSize: nat)
    requires Agrees(s, axis) && ToFetch(s, c, count, offset, pageSize) == None
    ensures var n := Clamped(c, count, offset);
      && Max(0, Min(n, |axis| - offset)) == n
      && forall k :: offset <= k < offset + n ==> k in s.tuples
  {
    var n := Clamped(c, count, offset);
    GapsFacts(s.tuples, offset, n);
    assert n > 0 ==> offset + n - 1 in s.tuples;
  }

  /** Once what is missing was fetched, the page goes to its end or to that of the axis. */
  lemma {:induction false} PageEnds(s: State, render: Render, c: Count, axis: seq<Tuple>, count: int, offset: nat,
                                    pageSize: nat)
    requires Consistent(s, render) && Agrees(s, axis) && ToFetch(s, c, count, offset, pageSize).Some?
    ensures var n, request := Clamped(c, count, offset), ToFetch(s, c, count, offset, pageSize).value;
            var length := LengthAfter(s.length, request.first, |Fetch(axis, request.first, request.limit)|);
      && Max(0, Min(offset + n, length) - offset) == Max(0, Min(n, |axis| - offset))
      && forall k :: offset <= k < offset + n ==> k in s.tuples || request.first <= k < request.first + request.limit
  {
    var n := Clamped(c, count, offset);
    GapsFacts(s.tuples, offset, n);
    var last := Min(offset + n, |axis|) - 1;
    if offset <= last {
      assert last in s.tuples || last in Gaps(s.tuples, offset, n);
    }
  }

  function Max(a: int, b: int): int { if a < b then b else a }

  /** Loading the start of an axis whose count is known reads the count from the last selected column. */
  function CountAfter(c: Count, startMissing: bool, axis: seq<Tuple>, lastColumn: Tuple -> Parsed): Count {
    if !startMissing then c
    else if c == Unknown then Known(|axis|)
    else if axis == [] then Known(0) else lastColumn(axis[0])
  }
}
