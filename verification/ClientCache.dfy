/** What the tuple cache and the cell cache of the client share: the length of the JSON text that stands for
  * their contents, and the limits that both enforce.
  */
module ClientCache {
  import opened Recency

  // ---------------------------------------------------------------- JSON text

  function Join(entries: seq<string>): string {
    if entries == [] then ""
    else if |entries| == 1 then entries[0]
    else entries[0] + "," + Join(entries[1..])
  }

  /** The text of an object whose `"key":value` entries are given. */
  function ObjectText(entries: seq<string>): string {
    "{" + Join(entries) + "}"
  }

  /** The entries that `order` lists, given the text of each. */
  function Listed(order: seq<nat>, texts: map<nat, string>): (entries: seq<string>)
    requires forall k :: k in order ==> k in texts
    ensures |entries| == |order|
  {
    if order == [] then [] else [texts[order[0]]] + Listed(order[1..], texts)
  }

  // ---------------------------------------------------------------- sizes

  datatype Sized = Sized(index: nat, size: nat)

  /** The cached elements with the lengths of their entries, least recently used first. */
  function Live(order: seq<nat>, sizes: map<nat, nat>): (live: seq<Sized>)
    requires forall k :: k in order ==> k in sizes
    ensures |live| == |order|
  {
    if order == [] then [] else [Sized(order[0], sizes[order[0]])] + Live(order[1..], sizes)
  }

  function Weight(live: seq<Sized>): nat {
    if live == [] then 0 else live[0].size + Weight(live[1..])
  }

  /** Braces, entries and the separators between them. */
  function JsonSize(live: seq<Sized>): nat {
    if live == [] then 2 else 2 + Weight(live) + (|live| - 1)
  }

  /** It is the length of the text, not an estimate of it. */
  lemma {:induction false} JsonSizeIsLength(order: seq<nat>, texts: map<nat, string>, sizes: map<nat, nat>)
    requires forall k :: k in order ==> k in texts && k in sizes && sizes[k] == |texts[k]|
    ensures |ObjectText(Listed(order, texts))| == JsonSize(Live(order, sizes))
  {
    if |order| > 1 {
      JsonSizeIsLength(order[1..], texts, sizes);
      assert Listed(order, texts)[1..] == Listed(order[1..], texts);
      assert Live(order, sizes)[1..] == Live(order[1..], sizes);
    } else if |order| == 1 {
      assert Weight(Live(order[1..], sizes)) == 0;
      assert Listed(order, texts) == [texts[order[0]]];
    }
  }

  lemma {:induction false} LiveFrame(order: seq<nat>, a: map<nat, nat>, b: map<nat, nat>)
    requires forall k :: k in order ==> k in a && k in b && a[k] == b[k]
    ensures Live(order, a) == Live(order, b)
  {
    if order != [] {
      LiveFrame(order[1..], a, b);
    }
  }

  lemma {:induction false} LiveAppend(order: seq<nat>, k: nat, sizes: map<nat, nat>)
    requires (forall j :: j in order ==> j in sizes) && k in sizes
    ensures Live(order + [k], sizes) == Live(order, sizes) + [Sized(k, sizes[k])]
  {
    if order != [] {
      LiveAppend(order[1..], k, sizes);
      assert (order + [k])[1..] == order[1..] + [k];
    } else {
      assert order + [k] == [k];
    }
  }

  lemma {:induction false} WeightAppend(live: seq<Sized>, e: Sized)
    ensures Weight(live + [e]) == Weight(live) + e.size
  {
    if live == [] {
      assert live + [e] == [e];
    } else {
      assert (live + [e])[1..] == live[1..] + [e];
      WeightAppend(live[1..], e);
    }
  }

  lemma {:induction false} WeightWithout(order: seq<nat>, sizes: map<nat, nat>, k: nat)
    requires NoDuplicates(order) && k in order && forall j :: j in order ==> j in sizes
    ensures Weight(Live(Without(order, k), sizes)) + sizes[k] == Weight(Live(order, sizes))
  {
    if order[0] == k {
      assert k !in order[1..];
      WithoutAbsent(order[1..], k);
    } else {
      WeightWithout(order[1..], sizes, k);
    }
  }

  /** Writing element `k` makes it the most recent one and changes the weight by the two entry lengths. */
  lemma {:induction false} WeightWrite(order: seq<nat>, sizes: map<nat, nat>, k: nat, size: nat)
    requires NoDuplicates(order) && forall j :: j in order <==> j in sizes
    ensures Weight(Live(Touched(order, k), sizes[k := size]))
         == Weight(Live(order, sizes)) - (if k in sizes then sizes[k] else 0) + size
    ensures |Touched(order, k)| == if k in sizes then |order| else |order| + 1
  {
    var rest := Without(order, k);
    LiveFrame(rest, sizes, sizes[k := size]);
    LiveAppend(rest, k, sizes[k := size]);
    WeightAppend(Live(rest, sizes), Sized(k, size));
    if k in sizes {
      WeightWithout(order, sizes, k);
      WithoutPresent(order, k);
    } else {
      WithoutAbsent(order, k);
    }
  }

  lemma {:induction false} KeysCounted(order: seq<nat>, m: map<nat, nat>)
    requires NoDuplicates(order) && forall k :: k in order <==> k in m
    ensures |m| == |order|
  {
    if order != [] {
      assert order[0] !in order[1..];
      var m' := m - {order[0]};
      KeysCounted(order[1..], m');
      assert m.Keys == m'.Keys + {order[0]};
    }
  }

  // ---------------------------------------------------------------- limits

  /** Both caches stop evicting when the number of entries and the text length are within their limits. */
  function Fits(maxEntries: int, maxBytes: int): seq<Sized> -> bool {
    live => |live| <= maxEntries && JsonSize(live) <= maxBytes
  }

  // ---------------------------------------------------------------- counts

  /** The count of all tuples as the source keeps it: a number may also come from text that is none. */
  datatype Count = Unknown | NotANumber | Known(value: int)

  /** What parsing text gives. */
  type Parsed = c: Count | c != Unknown witness NotANumber
}
