/** The in-memory level of server/cache.py: a weighted LRU with a time to live and a stale window.
  *
  * The class holds the fields that the source updates in place; every method is one section under the
  * cache lock and is specified by a function of the old contents.
  */
module ResultCache {
  import opened Options
  import opened Recency

  type Key = string

  /** `Null` is Python's `None`, which the cache cannot tell from an absent value. */
  datatype Value = Null | Payload(text: string)

  datatype Slot = Slot(key: Key, value: Value, size: nat, expiresAt: real, staleUntil: real)

  datatype Lookup = Miss | Fresh(value: Value) | Stale(value: Value)

  // ---------------------------------------------------------------- the contents, oldest first

  function Bytes(slots: seq<Slot>): nat {
    if slots == [] then 0 else slots[0].size + Bytes(slots[1..])
  }

  /** The slot of `k`, if any. */
  function Find(slots: seq<Slot>, k: Key): (r: Option<Slot>)
    ensures r.Some? ==> r.value in slots && r.value.key == k
    ensures r.None? ==> forall e :: e in slots ==> e.key != k
  {
    if slots == [] then None else if slots[0].key == k then Some(slots[0]) else Find(slots[1..], k)
  }

  function Drop(slots: seq<Slot>, k: Key): (r: seq<Slot>)
    ensures forall e :: e in r <==> e in slots && e.key != k
  {
    if slots == [] then []
    else if slots[0].key == k then Drop(slots[1..], k)
    else [slots[0]] + Drop(slots[1..], k)
  }

  ghost predicate UniqueKeys(slots: seq<Slot>) {
    slots != [] ==> Find(slots[1..], slots[0].key).None? && UniqueKeys(slots[1..])
  }

  function Within(maxBytes: int): seq<Slot> -> bool {
    slots => maxBytes <= 0 || Bytes(slots) <= maxBytes
  }

  function Evicted(slots: seq<Slot>, maxBytes: int): seq<Slot> {
    Survivors(slots, Within(maxBytes))
  }

  function StaleLimit(e: Slot): real {
    if e.staleUntil > e.expiresAt then e.staleUntil else e.expiresAt
  }

  /** What a lookup answers. */
  function Looked(slots: seq<Slot>, k: Key, now: real): Lookup {
    match Find(slots, k)
    case None => Miss
    case Some(e) =>
      if StaleLimit(e) <= now then Miss
      else if e.expiresAt <= now then Stale(e.value) else Fresh(e.value)
  }

  /** What a lookup leaves behind. */
  function AfterLookup(slots: seq<Slot>, k: Key, now: real): seq<Slot> {
    match Find(slots, k)
    case None => slots
    case Some(e) => if StaleLimit(e) <= now then Drop(slots, k) else Drop(slots, k) + [e]
  }

  predicate Admissible(size: nat, cap: int, maxBytes: int) {
    !(cap > 0 && size > cap) && !(maxBytes > 0 && size > maxBytes)
  }

  function Stored(slots: seq<Slot>, e: Slot, cap: int, maxBytes: int): seq<Slot> {
    if Admissible(e.size, cap, maxBytes) then Evicted(Drop(slots, e.key) + [e], maxBytes) else slots
  }

  // ---------------------------------------------------------------- facts about the contents

  lemma {:induction false} BytesConcat(a: seq<Slot>, b: seq<Slot>)
    ensures Bytes(a + b) == Bytes(a) + Bytes(b)
  {
    if a == [] {
      assert a + b == b;
    } else {
      assert (a + b)[1..] == a[1..] + b;
      BytesConcat(a[1..], b);
    }
  }

  lemma {:induction false} DropAbsent(slots: seq<Slot>, k: Key)
    requires Find(slots, k).None?
    ensures Drop(slots, k) == slots
  {
    if slots != [] {
      DropAbsent(slots[1..], k);
    }
  }

  lemma {:induction false} DropFacts(slots: seq<Slot>, k: Key)
    requires UniqueKeys(slots)
    ensures UniqueKeys(Drop(slots, k))
    ensures var found := Find(slots, k);
            && Bytes(Drop(slots, k)) == Bytes(slots) - (if found.Some? then found.value.size else 0)
            && |Drop(slots, k)| == |slots| - (if found.Some? then 1 else 0)
            && (forall e :: e in slots && e.key == k ==> found == Some(e))
  {
    if slots != [] {
      DropFacts(slots[1..], k);
      if slots[0].key == k {
        DropAbsent(slots[1..], k);
      }
    }
  }

  lemma {:induction false} UniqueAppend(slots: seq<Slot>, e: Slot)
    requires UniqueKeys(slots) && forall d :: d in slots ==> d.key != e.key
    ensures UniqueKeys(slots + [e])
  {
    if slots != [] {
      UniqueAppend(slots[1..], e);
      assert (slots + [e])[1..] == slots[1..] + [e];
    }
  }

  lemma {:induction false} UniqueSuffix(slots: seq<Slot>, n: nat)
    requires UniqueKeys(slots) && n <= |slots|
    ensures UniqueKeys(slots[n..])
  {
    if n > 0 {
      UniqueSuffix(slots[1..], n - 1);
      assert slots[n..] == slots[1..][n - 1..];
    } else {
      assert slots[n..] == slots;
    }
  }

  lemma {:induction false} ReplaceFacts(slots: seq<Slot>, e: Slot)
    requires UniqueKeys(slots)
    ensures var r := Drop(slots, e.key) + [e];
            && UniqueKeys(r)
            && Bytes(r) == Bytes(slots) + e.size
                 - (if Find(slots, e.key).Some? then Find(slots, e.key).value.size else 0)
  {
    DropFacts(slots, e.key);
    BytesConcat(Drop(slots, e.key), [e]);
    UniqueAppend(Drop(slots, e.key), e);
    assert Bytes([e]) == e.size;
  }

  lemma {:induction false} EvictedFacts(slots: seq<Slot>, maxBytes: int)
    requires UniqueKeys(slots)
    ensures var r := Evicted(slots, maxBytes);
            && LongestFittingSuffix(slots, Within(maxBytes), r)
            && UniqueKeys(r)
            && (forall e :: e in r ==> e in slots)
            && (maxBytes > 0 ==> Bytes(r) <= maxBytes)
  {
    SurvivorsAreLongest(slots, Within(maxBytes));
    UniqueSuffix(slots, |slots| - |Evicted(slots, maxBytes)|);
  }

  /** A lookup drops nothing but an expired slot of its own key, and an answer makes that slot recent. */
  lemma {:induction false} LookupFacts(slots: seq<Slot>, k: Key, now: real)
    requires UniqueKeys(slots)
    ensures var r := AfterLookup(slots, k, now);
            && UniqueKeys(r)
            && (forall e :: e in r ==> e in slots)
            && (forall e :: e in slots && e !in r ==> e.key == k && StaleLimit(e) <= now)
            && Bytes(r) <= Bytes(slots)
            && (Looked(slots, k, now) != Miss ==>
                  Bytes(r) == Bytes(slots) && |r| == |slots|
                  && r != [] && r[|r| - 1].key == k && r[|r| - 1] in slots)
  {
    DropFacts(slots, k);
    if Find(slots, k).Some? {
      var e := Find(slots, k).value;
      BytesConcat(Drop(slots, k), [e]);
      UniqueAppend(Drop(slots, k), e);
      assert Bytes([e]) == e.size;
    }
  }

  lemma {:induction false} NewestSurvives(slots: seq<Slot>, e: Slot, maxBytes: int)
    requires maxBytes > 0 ==> e.size <= maxBytes
    ensures var r := Evicted(slots + [e], maxBytes); r != [] && r[|r| - 1] == e
  {
    assert Bytes([e]) == e.size;
    LastSurvives(slots + [e], Within(maxBytes));
  }

  /** A store that is admitted keeps its own slot as the most recent one; with it survives the longest
    * recent run that fits, and nothing that was not there before. */
  lemma {:induction false} StoredFacts(slots: seq<Slot>, e: Slot, cap: int, maxBytes: int)
    requires UniqueKeys(slots) && (maxBytes > 0 ==> Bytes(slots) <= maxBytes)
    ensures var r := Stored(slots, e, cap, maxBytes);
            && UniqueKeys(r)
            && (maxBytes > 0 ==> Bytes(r) <= maxBytes)
            && (forall d :: d in r ==> d == e || d in slots)
            && (Admissible(e.size, cap, maxBytes) ==>
                  r != [] && r[|r| - 1] == e
                  && LongestFittingSuffix(Drop(slots, e.key) + [e], Within(maxBytes), r))
  {
    if Admissible(e.size, cap, maxBytes) {
      ReplaceFacts(slots, e);
      EvictedFacts(Drop(slots, e.key) + [e], maxBytes);
      NewestSurvives(Drop(slots, e.key), e, maxBytes);
    }
  }

  lemma {:induction false} FirstKeyIsApart(slots: seq<Slot>, i: nat)
    requires UniqueKeys(slots) && 0 < i < |slots|
    ensures UniqueKeys(slots[1..]) && slots[0].key != slots[i].key
  {
    assert slots[1..][i - 1] in slots[1..];
  }

  lemma {:induction false} FindAt(slots: seq<Slot>, i: nat)
    requires UniqueKeys(slots) && i < |slots|
    ensures Find(slots, slots[i].key) == Some(slots[i])
  {
    if i > 0 {
      FirstKeyIsApart(slots, i);
      FindAt(slots[1..], i - 1);
    }
  }

  lemma {:induction false} DropAt(slots: seq<Slot>, i: nat)
    requires UniqueKeys(slots) && i < |slots|
    ensures Drop(slots, slots[i].key) == slots[..i] + slots[i + 1..]
  {
    if i == 0 {
      DropAbsent(slots[1..], slots[0].key);
    } else {
      FirstKeyIsApart(slots, i);
      DropAt(slots[1..], i - 1);
      Reassembled(slots, i);
    }
  }

  lemma {:induction false} Reassembled(slots: seq<Slot>, i: nat)
    requires 0 < i < |slots|
    ensures [slots[0]] + (slots[1..][..i - 1] + slots[1..][i..]) == slots[..i] + slots[i + 1..]
  {
  }

  /** Up to its end an entry is answered as fresh, then up to the end of its stale window as stale, and either
    * way it becomes the most recent one; after that it is dropped. No other entry moves. */
  lemma {:induction false} LookupAnswers(slots: seq<Slot>, i: nat, now: real)
    requires UniqueKeys(slots) && i < |slots|
    ensures var e, rest := slots[i], slots[..i] + slots[i + 1..];
      && (now < e.expiresAt ==> Looked(slots, e.key, now) == Fresh(e.value))
      && (e.expiresAt <= now < e.staleUntil ==> Looked(slots, e.key, now) == Stale(e.value))
      && (e.expiresAt <= now && e.staleUntil <= now ==> Looked(slots, e.key, now) == Miss)
      && AfterLookup(slots, e.key, now) == rest + (if now < e.expiresAt || now < e.staleUntil then [e] else [])
  {
    FindAt(slots, i);
    DropAt(slots, i);
  }

  /** The entries without those of `k`, in their order. */
  ghost predicate KeyLeaves(slots: seq<Slot>, k: Key, rest: seq<Slot>) {
    || (rest == slots && forall e :: e in slots ==> e.key != k)
    || exists i: nat :: i < |slots| && slots[i].key == k && rest == slots[..i] + slots[i + 1..]
  }

  lemma {:induction false} DropKeyLeaves(slots: seq<Slot>, k: Key)
    requires UniqueKeys(slots)
    ensures KeyLeaves(slots, k, Drop(slots, k))
  {
    if Find(slots, k).None? {
      DropAbsent(slots, k);
    } else {
      var i: nat :| i < |slots| && slots[i] == Find(slots, k).value;
      FindAt(slots, i);
      DropAt(slots, i);
    }
  }

  /** `r` is the contents after `e` was offered to them: a slot that neither cap refuses replaces its predecessor as
    * the most recent one, and of the others the longest recent run that fits is kept. */
  ghost predicate Entered(slots: seq<Slot>, e: Slot, cap: int, maxBytes: int, r: seq<Slot>) {
    if (cap <= 0 || e.size <= cap) && (maxBytes <= 0 || e.size <= maxBytes) then
      && r != [] && r[|r| - 1] == e
      && exists rest :: KeyLeaves(slots, e.key, rest) && LongestFittingSuffix(rest + [e], Within(maxBytes), r)
    else r == slots
  }

  lemma {:induction false} StoreEnters(slots: seq<Slot>, e: Slot, cap: int, maxBytes: int)
    requires UniqueKeys(slots) && (maxBytes > 0 ==> Bytes(slots) <= maxBytes)
    ensures Entered(slots, e, cap, maxBytes, Stored(slots, e, cap, maxBytes))
  {
    StoredFacts(slots, e, cap, maxBytes);
    DropKeyLeaves(slots, e.key);
  }

  // ---------------------------------------------------------------- the object

  class QueryResultCache {
    const maxBytes: int
    const maxItemBytes: int
    var slots: seq<Slot>
    var currentBytes: int
    var entries: nat
    var evictions: nat

    constructor (maxBytes: int, maxItemBytes: int)
      ensures Valid() && slots == []
      ensures this.maxBytes == maxBytes && this.maxItemBytes == maxItemBytes
    {
      this.maxBytes, this.maxItemBytes := maxBytes, maxItemBytes;
      slots, currentBytes, entries, evictions := [], 0, 0, 0;
    }

    /** Between two sections: the statistics are exact and the limit is kept. */
    ghost predicate Valid()
      reads this
    {
      && UniqueKeys(slots)
      && currentBytes == Bytes(slots)
      && entries == |slots|
      && (maxBytes > 0 ==> currentBytes <= maxBytes)
    }

    method EvictIfNeeded()
      requires UniqueKeys(slots) && currentBytes == Bytes(slots)
      modifies this
      ensures Valid()
      ensures slots == Evicted(old(slots), maxBytes)
      ensures evictions == old(evictions) + |old(slots)| - |slots|
    {
      if maxBytes > 0 {
        while currentBytes > maxBytes && slots != []
          invariant UniqueKeys(slots) && currentBytes == Bytes(slots)
          invariant Evicted(slots, maxBytes) == Evicted(old(slots), maxBytes)
          invariant evictions == old(evictions) + |old(slots)| - |slots|
          decreases |slots|
        {
          currentBytes := currentBytes - slots[0].size;
          slots := slots[1..];
          evictions := evictions + 1;
        }
      }
      entries := |slots|;
    }

    method GetL1(k: Key, now: real) returns (value: Value, isStale: bool)
      requires Valid()
      modifies this
      ensures Valid()
      ensures slots == AfterLookup(old(slots), k, now)
      ensures match Looked(old(slots), k, now)
              case Miss => value == Null && !isStale
              case Fresh(v) => value == v && !isStale
              case Stale(v) => value == v && isStale
    {
      LookupFacts(slots, k, now);
      DropFacts(slots, k);
      match Find(slots, k)
      case None => return Null, false;
      case Some(e) =>
        if StaleLimit(e) <= now {
          currentBytes := currentBytes - e.size;
          slots := Drop(slots, k);
          entries := |slots|;
          return Null, false;
        }
        slots := Drop(slots, k) + [e];
        return e.value, e.expiresAt <= now;
    }

    method StoreL1(k: Key, value: Value, ttl: real, size: nat, itemCap: Option<int>, staleTtl: real, now: real)
      returns (stored: bool)
      requires Valid()
      modifies this
      ensures Valid()
      ensures var cap := if itemCap.Some? then itemCap.value else maxItemBytes;
              && stored == Admissible(size, cap, maxBytes)
              && slots == Stored(old(slots), Slot(k, value, size, now + ttl, now + ttl + staleTtl), cap, maxBytes)
      ensures stored ==> slots != [] && slots[|slots| - 1].key == k && slots[|slots| - 1].value == value
    {
      var cap := if itemCap.Some? then itemCap.value else maxItemBytes;
      if cap > 0 && size > cap {
        return false;
      }
      if maxBytes > 0 && size > maxBytes {
        return false;
      }
      var e := Slot(k, value, size, now + ttl, now + ttl + staleTtl);
      ReplaceFacts(slots, e);
      NewestSurvives(Drop(slots, k), e, maxBytes);
      var existing := Find(slots, k);
      if existing.Some? {
        currentBytes := currentBytes - existing.value.size;
      }
      slots := Drop(slots, k) + [e];
      currentBytes := currentBytes + size;
      EvictIfNeeded();
      return true;
    }

    method Reset()
      modifies this
      ensures Valid() && slots == []
    {
      slots, currentBytes, entries, evictions := [], 0, 0, 0;
    }
  }
}
