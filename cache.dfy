/**
 * The engine's completion cache: a Python dict used as a FIFO of at most
 * 50 entries. The dict's insertion order is kept as a sequence of keys
 * beside the key-to-completion map.
 */
module CompletionCache {
  import opened Strings

  const MaxEntries := 50

  datatype Cache = Cache(order: seq<string>, entries: map<string, string>)

  predicate NoDup<T(==)>(s: seq<T>)
  {
    forall i, j :: 0 <= i < j < |s| ==> s[i] != s[j]
  }

  /** The order lists each key of the map once, oldest first, and there are at most 50. */
  predicate Valid(c: Cache)
  {
    NoDup(c.order) && c.entries.Keys == (set k | k in c.order) && |c.order| <= MaxEntries
  }

  function Empty(): (c: Cache)
    ensures Valid(c) && c.entries == map[]
  {
    Cache([], map[])
  }

  /**
   * `cache[key] = value`, then, when the dict holds more than 50 entries,
   * the oldest one (`next(iter(cache))`) is deleted. Assigning an existing
   * key keeps its place in the order.
   */
  function Store(c: Cache, key: string, value: string): (r: Cache)
    requires Valid(c)
    ensures Valid(r)
    ensures key in r.entries && r.entries[key] == value
  {
    if key in c.entries then
      Cache(c.order, c.entries[key := value])
    else
      var order := c.order + [key];
      var entries := c.entries[key := value];
      AppendFresh(c, key, value);
      if |entries| > MaxEntries then
        Cache(order[1..], entries - {order[0]})
      else
        Cache(order, entries)
  }

  /**
   * Storing adds the key; only a new key arriving at a full cache drops
   * another one, the oldest; every other entry keeps its completion.
   */
  lemma StoreKeys(c: Cache, key: string, value: string)
    requires Valid(c)
    ensures var r := Store(c, key, value);
            (key !in c.entries && |c.order| == MaxEntries ==>
               r.entries.Keys == c.entries.Keys - {c.order[0]} + {key}) &&
            (key in c.entries || |c.order| < MaxEntries ==> r.entries.Keys == c.entries.Keys + {key}) &&
            forall k :: k in r.entries && k != key ==> k in c.entries && r.entries[k] == c.entries[k]
  {
    if key !in c.entries && |c.order| == MaxEntries {
      StoreKeysFull(c, key, value);
    } else {
      StoreKeysRoom(c, key, value);
    }
  }

  /** A new key at a full cache replaces the oldest one. */
  lemma StoreKeysFull(c: Cache, key: string, value: string)
    requires Valid(c) && key !in c.entries && |c.order| == MaxEntries
    ensures var r := Store(c, key, value);
            r.entries.Keys == c.entries.Keys - {c.order[0]} + {key} &&
            forall k :: k in r.entries && k != key ==> k in c.entries && r.entries[k] == c.entries[k]
  {
    StoreFresh(c, key, value);
    StoreEvictKeys(c.entries[key := value], c.order[0], key);
  }

  /** An existing key, or a new one while there is room, evicts nothing. */
  lemma StoreKeysRoom(c: Cache, key: string, value: string)
    requires Valid(c) && (key in c.entries || |c.order| < MaxEntries)
    ensures var r := Store(c, key, value);
            r.entries.Keys == c.entries.Keys + {key} &&
            forall k :: k in r.entries && k != key ==> k in c.entries && r.entries[k] == c.entries[k]
  {
    if key !in c.entries {
      StoreFresh(c, key, value);
    }
  }

  /** A new key is appended; at a full cache the oldest key goes, with its entry. */
  lemma StoreFresh(c: Cache, key: string, value: string)
    requires Valid(c) && key !in c.entries
    ensures Store(c, key, value)
         == if |c.order| == MaxEntries then Cache(c.order[1..] + [key], c.entries[key := value] - {c.order[0]})
            else Cache(c.order + [key], c.entries[key := value])
  {
    CacheSize(c);
    AppendFresh(c, key, value);
    if |c.order| == MaxEntries {
      assert (c.order + [key])[1..] == c.order[1..] + [key];
      assert (c.order + [key])[0] == c.order[0];
    }
  }

  /** Removing the oldest key after adding a different new one. */
  lemma StoreEvictKeys(m: map<string, string>, oldest: string, key: string)
    requires key != oldest && key in m
    ensures (m - {oldest}).Keys == m.Keys - {oldest}
    ensures forall k :: k in m - {oldest} ==> k in m && (m - {oldest})[k] == m[k]
  {
  }

  /** Appending a key the cache does not hold keeps the order free of repeats; dropping the oldest does too. */
  lemma AppendFresh(c: Cache, key: string, value: string)
    requires Valid(c) && key !in c.entries
    ensures var order := c.order + [key];
            NoDup(order) && c.entries[key := value].Keys == (set k | k in order) &&
            |c.entries[key := value]| == |order| &&
            NoDup(order[1..]) && (set k | k in order[1..]) == (set k | k in order) - {order[0]}
  {
    var order := c.order + [key];
    assert NoDup(order);
    DistinctCard(order);
    assert c.entries[key := value].Keys == set k | k in order;
    DropFirst(order);
  }

  /** Dropping the first of distinct elements removes exactly that element. */
  lemma DropFirst<T>(s: seq<T>)
    requires NoDup(s) && s != []
    ensures NoDup(s[1..]) && (set k | k in s[1..]) == (set k | k in s) - {s[0]}
  {
    assert s[0] !in s[1..];
    assert s == [s[0]] + s[1..];
  }

  /** The number of entries is the length of the order, so never more than 50. */
  lemma CacheSize(c: Cache)
    requires Valid(c)
    ensures |c.entries| == |c.order| <= MaxEntries
  {
    DistinctCard(c.order);
  }

  /** A sequence without repeats has as many distinct elements as positions. */
  lemma {:induction false} DistinctCard<T>(s: seq<T>)
    requires NoDup(s)
    ensures |set x | x in s| == |s|
  {
    if s != [] {
      var t := s[..|s| - 1];
      var x := s[|s| - 1];
      assert NoDup(t);
      DistinctCard(t);
      assert (set y | y in s) == (set y | y in t) + {x};
      assert x !in t;
    }
  }

  /**
   * Inserting only keys the cache does not hold keeps, in insertion
   * order, exactly the 50 most recent of them: evictions are FIFO.
   */
  lemma StoreFreshKeepsRecent(c: Cache, inserted: seq<string>, key: string, value: string)
    requires Valid(c) && c.order == Last(inserted, MaxEntries)
    requires key !in c.entries
    ensures Store(c, key, value).order == Last(inserted + [key], MaxEntries)
  {
    StoreFresh(c, key, value);
    LastAppend(inserted, key, MaxEntries);
  }

  /** What was stored under a key is what a later lookup of that key finds, until something else is stored. */
  lemma StoreThenLookup(c: Cache, key: string, value: string, other: string)
    requires Valid(c) && other in c.entries && other != key
    requires key in c.entries || |c.order| < MaxEntries || other != c.order[0]
    ensures other in Store(c, key, value).entries
    ensures Store(c, key, value).entries[other] == c.entries[other]
  {
    StoreKeys(c, key, value);
  }
}
