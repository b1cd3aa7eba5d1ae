/** The second level of server/cache_store_sqlite.py: one table of rows with a primary key.
  *
  * The database engine is a sequence of rows in no particular order. Ties in `ORDER BY last_access` are
  * broken by an arbitrary choice, as SQL leaves them open.
  */
module SqliteStore {
  import opened Options

  type Key = string

  datatype Row = Row(key: Key, blob: string, createdAt: real, expiresAt: real, size: nat, lastAccess: real)

  datatype Entry = Entry(blob: string, size: nat, expiresAt: real)

  datatype Stats = Stats(hits: nat, misses: nat, evictions: nat, pruned: nat)

  function Total(rows: seq<Row>): nat {
    if rows == [] then 0 else rows[0].size + Total(rows[1..])
  }

  /** `WHERE cache_key = ?` on a primary key: the position of the row, or the length. */
  function IndexOf(rows: seq<Row>, k: Key): (i: nat)
    ensures i <= |rows| && (i < |rows| ==> rows[i].key == k)
    ensures forall j :: 0 <= j < i ==> rows[j].key != k
  {
    if rows == [] then 0 else if rows[0].key == k then 0 else 1 + IndexOf(rows[1..], k)
  }

  function DeleteAt(rows: seq<Row>, i: nat): seq<Row>
    requires i < |rows|
  {
    rows[..i] + rows[i + 1..]
  }

  function Delete(rows: seq<Row>, k: Key): seq<Row> {
    var i := IndexOf(rows, k);
    if i < |rows| then DeleteAt(rows, i) else rows
  }

  /** `INSERT OR REPLACE`. */
  function Put(rows: seq<Row>, row: Row): seq<Row> {
    Delete(rows, row.key) + [row]
  }

  /** Rows still alive at `now`. */
  function Alive(rows: seq<Row>, now: real): (r: seq<Row>)
    ensures |r| <= |rows|
    ensures forall row :: row in r <==> row in rows && row.expiresAt > now
  {
    if rows == [] then []
    else if rows[0].expiresAt > now then [rows[0]] + Alive(rows[1..], now)
    else Alive(rows[1..], now)
  }

  ghost predicate PrimaryKey(rows: seq<Row>) {
    forall i, j :: 0 <= i < j < |rows| ==> rows[i].key != rows[j].key
  }

  lemma {:induction false} TotalConcat(a: seq<Row>, b: seq<Row>)
    ensures Total(a + b) == Total(a) + Total(b)
  {
    if a == [] {
      assert a + b == b;
    } else {
      assert (a + b)[1..] == a[1..] + b;
      TotalConcat(a[1..], b);
    }
  }

  lemma {:induction false} DeleteAtTotal(rows: seq<Row>, i: nat)
    requires i < |rows|
    ensures Total(DeleteAt(rows, i)) == Total(rows) - rows[i].size
  {
    assert rows == rows[..i] + ([rows[i]] + rows[i + 1..]);
    TotalConcat(rows[..i], [rows[i]] + rows[i + 1..]);
    TotalConcat(rows[..i], rows[i + 1..]);
  }

  /** A row that `ORDER BY last_access ASC LIMIT 1` may return. */
  predicate IsOldest(rows: seq<Row>, i: nat) {
    i < |rows| && forall j :: 0 <= j < |rows| ==> rows[i].lastAccess <= rows[j].lastAccess
  }

  /** One eviction: the table is over the limit, and an oldest row goes. */
  ghost predicate EvictsOne(over: seq<Row>, i: nat, evicted: Row, after: seq<Row>, maxBytes: int) {
    Total(over) > maxBytes && IsOldest(over, i) && evicted == over[i] && after == DeleteAt(over, i)
  }

  /** Evicting `evicted`, in that order, leads from `before` to `after`. */
  ghost predicate Evicts(before: seq<Row>, evicted: seq<Row>, after: seq<Row>, maxBytes: int)
    decreases |evicted|
  {
    if evicted == [] then after == before
    else
      var init, last := evicted[..|evicted| - 1], evicted[|evicted| - 1];
      exists over: seq<Row>, i: nat :: Evicts(before, init, over, maxBytes) && EvictsOne(over, i, last, after, maxBytes)
  }

  /** A run of evictions only stops within the limit or at an empty table. */
  ghost predicate EvictionRun(before: seq<Row>, evicted: seq<Row>, after: seq<Row>, maxBytes: int) {
    Evicts(before, evicted, after, maxBytes) && (Total(after) <= maxBytes || after == [])
  }

  lemma {:induction false} DeleteAtContents(rows: seq<Row>, i: nat)
    requires i < |rows|
    ensures multiset(DeleteAt(rows, i)) + multiset{rows[i]} == multiset(rows)
  {
    assert rows == rows[..i] + [rows[i]] + rows[i + 1..];
  }

  /** The last of some evictions, on its own. */
  lemma {:induction false} LastEviction(before: seq<Row>, evicted: seq<Row>, after: seq<Row>, maxBytes: int)
    returns (init: seq<Row>, over: seq<Row>, i: nat)
    requires evicted != [] && Evicts(before, evicted, after, maxBytes)
    ensures |init| < |evicted| && IsOldest(over, i) && evicted == init + [over[i]]
    ensures Evicts(before, init, over, maxBytes) && Total(over) > maxBytes && after == DeleteAt(over, i)
  {
    init := evicted[..|evicted| - 1];
    var last := evicted[|evicted| - 1];
    over, i :| Evicts(before, init, over, maxBytes) && EvictsOne(over, i, last, after, maxBytes);
  }

  lemma {:induction false} OneMore(before: seq<Row>, init: seq<Row>, over: seq<Row>, i: nat, after: seq<Row>,
                                   maxBytes: int)
    requires Evicts(before, init, over, maxBytes) && i < |over| && EvictsOne(over, i, over[i], after, maxBytes)
    ensures Evicts(before, init + [over[i]], after, maxBytes)
  {
    var all := init + [over[i]];
    assert all[..|all| - 1] == init && all[|all| - 1] == over[i];
  }

  /** Evictions never go on once the table is within the limit, and account for every byte. */
  lemma {:induction false} EvictionStopsInTime(before: seq<Row>, evicted: seq<Row>, after: seq<Row>, maxBytes: int)
    requires Evicts(before, evicted, after, maxBytes)
    ensures Total(after) + Total(evicted) == Total(before)
    ensures evicted != [] ==> Total(after) + evicted[|evicted| - 1].size > maxBytes
    decreases |evicted|
  {
    if evicted != [] {
      var init, over, i := LastEviction(before, evicted, after, maxBytes);
      EvictionStopsInTime(before, init, over, maxBytes);
      DeleteAtTotal(over, i);
      TotalConcat(init, [over[i]]);
    }
  }

  /** They move rows out without losing or inventing any. */
  lemma {:induction false} EvictionConserves(before: seq<Row>, evicted: seq<Row>, after: seq<Row>, maxBytes: int)
    requires Evicts(before, evicted, after, maxBytes)
    ensures multiset(after) + multiset(evicted) == multiset(before)
    decreases |evicted|
  {
    if evicted != [] {
      var init, over, i := LastEviction(before, evicted, after, maxBytes);
      EvictionConserves(before, init, over, maxBytes);
      DeleteAtContents(over, i);
    }
  }

  /** Nothing evicted was used more recently than anything kept. */
  lemma {:induction false} EvictionTakesTheOldest(before: seq<Row>, evicted: seq<Row>, after: seq<Row>, maxBytes: int)
    requires Evicts(before, evicted, after, maxBytes)
    ensures forall e, a :: e in evicted && a in after ==> e.lastAccess <= a.lastAccess
    decreases |evicted|
  {
    if evicted != [] {
      var init, over, i := LastEviction(before, evicted, after, maxBytes);
      EvictionTakesTheOldest(before, init, over, maxBytes);
      assert forall a :: a in after ==> a in over;
    }
  }

  lemma {:induction false} DeleteAtKeys(rows: seq<Row>, i: nat)
    requires i < |rows| && PrimaryKey(rows)
    ensures PrimaryKey(DeleteAt(rows, i))
    ensures forall j :: 0 <= j < |rows| - 1 ==> DeleteAt(rows, i)[j].key != rows[i].key
  {
    var r := DeleteAt(rows, i);
    assert forall j :: 0 <= j < |r| ==> r[j] == rows[if j < i then j else j + 1];
  }

  lemma {:induction false} PutKeys(rows: seq<Row>, row: Row)
    requires PrimaryKey(rows)
    ensures PrimaryKey(Put(rows, row))
  {
    var i := IndexOf(rows, row.key);
    if i < |rows| {
      DeleteAtKeys(rows, i);
    }
  }

  /** The new row is in the table, and of the others exactly those under other keys. */
  ghost predicate Replaces(before: seq<Row>, row: Row, after: seq<Row>) {
    && PrimaryKey(after)
    && forall r :: r in after <==> r == row || (r in before && r.key != row.key)
  }

  lemma {:induction false} PutReplaces(rows: seq<Row>, row: Row)
    requires PrimaryKey(rows)
    ensures Replaces(rows, row, Put(rows, row))
  {
    PutKeys(rows, row);
    var i := IndexOf(rows, row.key);
    var rest := Delete(rows, row.key);
    forall r
      ensures r in rest <==> r in rows && r.key != row.key
    {
      if i < |rows| {
        assert rows == rows[..i] + [rows[i]] + rows[i + 1..];
        assert r in rows <==> r in rest || r == rows[i];
        DeleteAtKeys(rows, i);
      }
    }
  }

  lemma {:induction false} TouchTotal(rows: seq<Row>, i: nat, now: real)
    requires i < |rows|
    ensures Total(rows[i := rows[i].(lastAccess := now)]) == Total(rows)
  {
    var touched := rows[i := rows[i].(lastAccess := now)];
    DeleteAtTotal(rows, i);
    DeleteAtTotal(touched, i);
    assert DeleteAt(touched, i) == DeleteAt(rows, i);
  }

  lemma {:induction false} AliveTotal(rows: seq<Row>, now: real)
    ensures Total(Alive(rows, now)) <= Total(rows)
  {
    if rows != [] {
      AliveTotal(rows[1..], now);
    }
  }

  lemma {:induction false} AliveKeys(rows: seq<Row>, now: real)
    requires PrimaryKey(rows)
    ensures PrimaryKey(Alive(rows, now))
  {
    if rows != [] {
      AliveKeys(rows[1..], now);
      var rest := Alive(rows[1..], now);
      forall j | 0 <= j < |rest|
        ensures rest[j].key != rows[0].key
      {
        assert rest[j] in rest && rest[j] in rows[1..];
      }
    }
  }

  // ---------------------------------------------------------------- the object

  /** `maxBytes <= 0` means no limit. */
  class SQLiteCacheStore {
    const maxBytes: int
    var rows: seq<Row>
    var stats: Stats

    constructor (maxBytes: int)
      ensures this.maxBytes == maxBytes && rows == [] && stats == Stats(0, 0, 0, 0) && Valid()
    {
      this.maxBytes := maxBytes;
      rows, stats := [], Stats(0, 0, 0, 0);
    }

    ghost predicate Valid()
      reads this
    {
      PrimaryKey(rows) && (maxBytes > 0 ==> Total(rows) <= maxBytes)
    }

    method Get(k: Key, now: real) returns (r: Option<Entry>)
      requires Valid()
      modifies this
      ensures Valid()
      ensures var i := IndexOf(old(rows), k);
        if i == |old(rows)| then r == None && rows == old(rows) && stats == old(stats).(misses := old(stats).misses + 1)
        else if old(rows)[i].expiresAt <= now then
          r == None && rows == DeleteAt(old(rows), i) && stats == old(stats).(misses := old(stats).misses + 1)
        else
          && r == Some(Entry(old(rows)[i].blob, old(rows)[i].size, old(rows)[i].expiresAt))
          && rows == old(rows)[i := old(rows)[i].(lastAccess := now)]
          && stats == old(stats).(hits := old(stats).hits + 1)
    {
      var i := IndexOf(rows, k);
      if i == |rows| {
        stats := stats.(misses := stats.misses + 1);
        return None;
      }
      var row := rows[i];
      if row.expiresAt <= now {
        DeleteAtTotal(rows, i);
        DeleteAtKeys(rows, i);
        rows := DeleteAt(rows, i);
        stats := stats.(misses := stats.misses + 1);
        return None;
      }
      TouchTotal(rows, i, now);
      rows := rows[i := row.(lastAccess := now)];
      stats := stats.(hits := stats.hits + 1);
      return Some(Entry(row.blob, row.size, row.expiresAt));
    }

    method Set(k: Key, blob: string, ttl: real, size: nat, now: real)
      requires Valid()
      modifies this
      ensures Valid()
      ensures var put := Put(old(rows), Row(k, blob, now, now + ttl, size, now));
        && Replaces(old(rows), Row(k, blob, now, now + ttl, size, now), put)
        && if maxBytes <= 0 then rows == put && stats == old(stats)
           else exists evicted :: EvictionRun(put, evicted, rows, maxBytes)
                  && stats == old(stats).(evictions := old(stats).evictions + |evicted|)
    {
      PutReplaces(rows, Row(k, blob, now, now + ttl, size, now));
      PutKeys(rows, Row(k, blob, now, now + ttl, size, now));
      rows := Put(rows, Row(k, blob, now, now + ttl, size, now));
      EnforceMaxBytes();
    }

    method PruneExpired(now: real) returns (removed: nat)
      requires Valid()
      modifies this
      ensures Valid() && rows == Alive(old(rows), now) && removed == |old(rows)| - |rows|
      ensures stats == old(stats).(pruned := old(stats).pruned + removed)
    {
      AliveKeys(rows, now);
      AliveTotal(rows, now);
      removed := |rows| - |Alive(rows, now)|;
      rows := Alive(rows, now);
      stats := stats.(pruned := stats.pruned + removed);
    }

    method EnforceMaxBytes()
      requires PrimaryKey(rows)
      modifies this
      ensures Valid()
      ensures if maxBytes <= 0 then rows == old(rows) && stats == old(stats)
        else exists evicted :: EvictionRun(old(rows), evicted, rows, maxBytes)
               && stats == old(stats).(evictions := old(stats).evictions + |evicted|)
    {
      if maxBytes <= 0 {
        return;
      }
      var total := Total(rows);
      ghost var gone: seq<Row> := [];
      while total > maxBytes && rows != []
        invariant total == Total(rows) && PrimaryKey(rows)
        invariant Evicts(old(rows), gone, rows, maxBytes)
        invariant stats == old(stats).(evictions := old(stats).evictions + |gone|)
        decreases |rows|
      {
        var i := OldestRow(rows);
        ghost var over, before := rows, gone;
        DeleteAtTotal(rows, i);
        DeleteAtKeys(rows, i);
        total := total - rows[i].size;
        rows := DeleteAt(rows, i);
        stats := stats.(evictions := stats.evictions + 1);
        gone := before + [over[i]];
        OneMore(old(rows), before, over, i, rows, maxBytes);
      }
    }
  }

  /** Any row with the least `last_access`. */
  method OldestRow(rows: seq<Row>) returns (i: nat)
    requires rows != []
    ensures IsOldest(rows, i)
  {
    i := 0;
    for j := 1 to |rows|
      invariant i < |rows| && forall m :: 0 <= m < j ==> rows[i].lastAccess <= rows[m].lastAccess
    {
      if rows[j].lastAccess < rows[i].lastAccess {
        i := j;
      }
    }
  }
}
