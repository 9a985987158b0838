/** The bounded cache with expiry in front of upstream requests, and the rate limiter beside it. */
module TtlCache {
  import opened Common

  type Key = string

  datatype Entry<+T> = Entry(key: Key, expiresAt: real, value: T)

  /** The entries in their order, without the one for a key. */
  function Without<T>(entries: seq<Entry<T>>, key: Key): (r: seq<Entry<T>>)
    ensures |r| <= |entries|
  {
    if entries == [] then []
    else if entries[0].key == key then Without(entries[1..], key)
    else [entries[0]] + Without(entries[1..], key)
  }

  function Lookup<T>(entries: seq<Entry<T>>, key: Key): (r: Option<Entry<T>>)
    ensures r.Some? ==> r.value in entries && r.value.key == key
    ensures r.None? ==> forall e | e in entries :: e.key != key
  {
    if entries == [] then None
    else if entries[0].key == key then Some(entries[0])
    else Lookup(entries[1..], key)
  }

  /** The distinct keys touched since a key was last touched itself. */
  function Since(touched: seq<Key>, key: Key): (r: set<Key>)
    ensures key !in r
  {
    if touched == [] || touched[|touched| - 1] == key then {}
    else Since(touched[..|touched| - 1], key) + {touched[|touched| - 1]}
  }

  lemma SinceAfterTouch(touched: seq<Key>, x: Key, key: Key)
    ensures Since(touched + [x], key) == if x == key then {} else Since(touched, key) + {x}
  {
    assert (touched + [x])[..|touched|] == touched;
  }

  /** Everything listed is for another key, and was touched since this key was. */
  ghost predicate AllSince<T>(entries: seq<Entry<T>>, key: Key, touched: seq<Key>) {
    forall e | e in entries :: e.key != key && e.key in Since(touched, key)
  }

  /** No key twice, and whatever stands later in the list was touched since whatever stands before it. */
  ghost predicate InOrder<T>(entries: seq<Entry<T>>, touched: seq<Key>) {
    entries == [] || (AllSince(entries[1..], entries[0].key, touched) && InOrder(entries[1..], touched))
  }

  lemma {:induction false} WithoutHoldsTheOthers<T>(entries: seq<Entry<T>>, key: Key)
    ensures forall e | e in Without(entries, key) :: e in entries && e.key != key
    ensures forall e | e in entries && e.key != key :: e in Without(entries, key)
  {
    if entries != [] {
      WithoutHoldsTheOthers(entries[1..], key);
      assert entries == [entries[0]] + entries[1..];
    }
  }

  lemma {:induction false} WithoutKeepsOrder<T>(entries: seq<Entry<T>>, key: Key, touched: seq<Key>)
    requires InOrder(entries, touched)
    ensures InOrder(Without(entries, key), touched)
    ensures Lookup(entries, key).None? ==> Without(entries, key) == entries
    ensures Lookup(entries, key).Some? ==> |Without(entries, key)| == |entries| - 1
  {
    if entries != [] {
      var rest := entries[1..];
      WithoutKeepsOrder(rest, key, touched);
      WithoutHoldsTheOthers(rest, key);
      if entries[0].key == key {
        assert Lookup(rest, key).None?;
      } else {
        assert ([entries[0]] + Without(rest, key))[1..] == Without(rest, key);
      }
    }
  }

  lemma {:induction false} AppendKeepsOrder<T>(entries: seq<Entry<T>>, touched: seq<Key>, e: Entry<T>)
    requires InOrder(entries, touched) && forall x | x in entries :: x.key != e.key
    ensures InOrder(entries + [e], touched + [e.key])
  {
    if entries == [] {
      assert ([e])[1..] == [];
      assert entries + [e] == [e];
    } else {
      var rest := entries[1..];
      AppendKeepsOrder(rest, touched, e);
      assert (entries + [e])[1..] == rest + [e];
      assert entries[0] in entries;
      SinceAfterTouch(touched, e.key, entries[0].key);
    }
  }

  /** Touching a key moves it to the end of the order. */
  lemma MoveToEndKeepsOrder<T>(entries: seq<Entry<T>>, touched: seq<Key>, e: Entry<T>)
    requires InOrder(entries, touched)
    ensures InOrder(Without(entries, e.key) + [e], touched + [e.key])
  {
    WithoutKeepsOrder(entries, e.key, touched);
    WithoutHoldsTheOthers(entries, e.key);
    AppendKeepsOrder(Without(entries, e.key), touched, e);
  }

  ghost function KeySet<T>(entries: seq<Entry<T>>): set<Key> {
    set e | e in entries :: e.key
  }

  lemma {:induction false} KeysAreCounted<T>(entries: seq<Entry<T>>, touched: seq<Key>)
    requires InOrder(entries, touched)
    ensures |KeySet(entries)| == |entries|
  {
    if entries != [] {
      KeysAreCounted(entries[1..], touched);
      assert entries == [entries[0]] + entries[1..];
      assert KeySet(entries) == {entries[0].key} + KeySet(entries[1..]);
    }
  }

  /** The oldest of n + 1 entries has seen n other keys touched since its own last touch. */
  lemma OldestHasSeenTheOthers<T>(entries: seq<Entry<T>>, touched: seq<Key>)
    requires InOrder(entries, touched) && entries != []
    ensures |Since(touched, entries[0].key)| >= |entries| - 1
  {
    KeysAreCounted(entries[1..], touched);
    SubsetSize(KeySet(entries[1..]), Since(touched, entries[0].key));
  }

  /** `AsyncTtlCache`. */
  class AsyncTtlCache<T(==)> {
    const ttl: int
    const maxEntries: int
    /** An ordered dictionary: the least recently touched entry comes first. */
    var entries: seq<Entry<T>>
    /** History: what an unbounded map would hold, the keys touched so far, the last clock reading. */
    ghost var latest: map<Key, Entry<T>>
    ghost var touched: seq<Key>
    ghost var clock: real

    constructor (ttlSeconds: int, maxEntries: int)
      ensures Valid() && entries == [] && latest == map[] && touched == []
      ensures ttl == (if ttlSeconds < 0 then 0 else ttlSeconds)
      ensures this.maxEntries == (if maxEntries < 1 then 1 else maxEntries)
    {
      ttl := if ttlSeconds > 0 then ttlSeconds else 0;
      this.maxEntries := if maxEntries > 1 then maxEntries else 1;
      entries, latest, touched, clock := [], map[], [], 0.0;
    }

    /** A key may be missing when its entry expired, or after enough other keys were touched. */
    ghost predicate MayBeMissing(key: Key)
      reads this
    {
      key !in latest || latest[key].expiresAt <= clock || |Since(touched, key)| >= maxEntries
    }

    ghost predicate Valid()
      reads this
    {
      Fits() && |entries| <= maxEntries
    }

    /**
     A hit is the value that was set last for the key, before its expiry. A miss
     means that nothing was set, that it expired, or that at least `maxEntries`
     other keys were touched since.
     */
    method Get(key: Key, now: real) returns (r: Option<T>)
      requires Valid() && clock <= now
      modifies this
      ensures Valid() && clock == now && latest == old(latest)
      ensures r.Some? ==> key in latest && r.value == latest[key].value && now < latest[key].expiresAt
      ensures r.None? ==> key !in latest || latest[key].expiresAt <= now || |Since(old(touched), key)| >= maxEntries
      ensures r.Some? <==> exists e :: e in old(entries) && e.key == key && now < e.expiresAt
      ensures touched == if r.Some? then old(touched) + [key] else old(touched)
      ensures entries == if r.Some? then Without(old(entries), key) + [latest[key]]
                         else if Lookup(old(entries), key).Some? then Without(old(entries), key)
                         else old(entries)
    {
      var cached := Lookup(entries, key);
      clock := now;
      WithoutKeepsOrder(entries, key, touched);
      WithoutHoldsTheOthers(entries, key);
      if cached.None? {
        return None;
      }
      if cached.value.expiresAt <= now {
        entries := Without(entries, key);
        OthersAreStillFound(old(entries), key, entries);
        return None;
      }
      MoveToEndKeepsOrder(entries, touched, cached.value);
      entries := Without(entries, key) + [cached.value];
      OthersAreStillFound(old(entries), key, entries);
      assert cached.value in entries;
      Touch(key);
      return Some(cached.value.value);
    }

    /** Removing or moving one key leaves the others where a lookup finds them. */
    lemma OthersAreStillFound(before: seq<Entry<T>>, key: Key, after: seq<Entry<T>>)
      requires forall e | e in before && e.key != key :: e in after
      ensures forall other | other != key && Lookup(before, other).Some? :: Lookup(after, other).Some?
    {
      forall other | other != key && Lookup(before, other).Some? ensures Lookup(after, other).Some? {
        var e := Lookup(before, other).value;
        assert e in after;
      }
    }

    /** Records a touch; what is missing stays excusably missing. */
    ghost method Touch(key: Key)
      requires forall k | k in latest :: Lookup(entries, k).Some? || MayBeMissing(k)
      requires Lookup(entries, key).Some?
      modifies this`touched
      ensures touched == old(touched) + [key]
      ensures forall k | k in latest :: Lookup(entries, k).Some? || MayBeMissing(k)
    {
      forall k | k in latest && Lookup(entries, k).None?
        ensures latest[k].expiresAt <= clock || |Since(touched + [key], k)| >= maxEntries
      {
        SinceAfterTouch(touched, key, k);
        SubsetSize(Since(touched, k), Since(touched + [key], k));
      }
      touched := touched + [key];
    }

    /** The cache never holds more than its bound, and drops the least recently touched entry first. */
    method Set(key: Key, value: T, now: real)
      requires Valid() && clock <= now
      modifies this
      ensures Valid() && clock == now && touched == old(touched) + [key]
      ensures latest == old(latest)[key := Entry(key, now + ttl as real, value)]
      ensures |entries| <= maxEntries
      ensures
        var all := Without(old(entries), key) + [Entry(key, now + ttl as real, value)];
        entries == if |all| > maxEntries then all[1..] else all
    {
      var e := Entry(key, now + ttl as real, value);
      Insert(e, now);
      while |entries| > maxEntries
        invariant |entries| <= maxEntries + 1 && Fits()
        invariant entries == Without(old(entries), key) + [e]
                  || (|Without(old(entries), key) + [e]| > maxEntries
                      && entries == (Without(old(entries), key) + [e])[1..])
        invariant clock == now && touched == old(touched) + [key] && latest == old(latest)[key := e]
        decreases |entries|
      {
        PopOldest();
      }
    }

    /** Everything `Valid` says but the bound on the size. */
    ghost predicate Fits()
      reads this
    {
      && maxEntries >= 1 && ttl >= 0
      && InOrder(entries, touched)
      && (forall e | e in entries :: e.key in latest && latest[e.key] == e)
      && (forall key | key in latest :: Lookup(entries, key).Some? || MayBeMissing(key))
    }

    method Insert(e: Entry<T>, now: real)
      requires Fits() && clock <= now
      modifies this
      ensures Fits() && clock == now && touched == old(touched) + [e.key]
      ensures latest == old(latest)[e.key := e]
      ensures entries == Without(old(entries), e.key) + [e]
    {
      clock := now;
      WithoutHoldsTheOthers(entries, e.key);
      MoveToEndKeepsOrder(entries, touched, e);
      entries := Without(entries, e.key) + [e];
      OthersAreStillFound(old(entries), e.key, entries);
      latest := latest[e.key := e];
      assert e in entries;
      Touch(e.key);
    }

    method PopOldest()
      requires Fits() && |entries| > maxEntries
      modifies this`entries
      ensures Fits() && entries == old(entries)[1..]
    {
      OldestHasSeenTheOthers(entries, touched);
      assert entries == [entries[0]] + entries[1..];
      OthersAreStillFound(entries, entries[0].key, entries[1..]);
      entries := entries[1..];
    }
  }

  /** `SerializedRateLimiter`: one caller at a time. */
  class SerializedRateLimiter {
    const minInterval: real
    var lastRequestAt: Option<real>
    /** History: when each request was let through. */
    ghost var granted: seq<real>

    constructor (minIntervalSeconds: real)
      ensures Valid() && granted == []
      ensures minInterval == (if minIntervalSeconds < 0.0 then 0.0 else minIntervalSeconds)
    {
      minInterval := if minIntervalSeconds > 0.0 then minIntervalSeconds else 0.0;
      lastRequestAt, granted := None, [];
    }

    ghost predicate Valid()
      reads this
    {
      && (lastRequestAt.Some? <==> granted != [])
      && (granted != [] ==> lastRequestAt == Some(granted[|granted| - 1]))
      && (forall i, j | 0 <= i < j < |granted| :: granted[j] - granted[i] >= (j - i) as real * minInterval)
    }

    /**
     `woken` is the clock after the sleep, which lasts at least as long as asked.
     Any two grants are as far apart as their positions demand.
     */
    method Acquire(now: real, woken: real)
      requires Valid() && now <= woken
      requires lastRequestAt.Some? && now - lastRequestAt.value < minInterval ==>
                 woken >= now + (minInterval - (now - lastRequestAt.value))
      modifies this
      ensures Valid() && granted == old(granted) + [woken] && lastRequestAt == Some(woken)
    {
      if lastRequestAt.Some? {
        var wait := minInterval - (now - lastRequestAt.value);
        if wait > 0.0 {
          assert woken >= now + wait;
        }
        forall i | 0 <= i < |granted|
          ensures woken - granted[i] >= (|granted| - i) as real * minInterval
        {
          var n := |granted| - 1 - i;
          assert (|granted| - i) as real * minInterval == n as real * minInterval + minInterval;
        }
      }
      granted := granted + [woken];
      lastRequestAt := Some(woken);
    }
  }
}
