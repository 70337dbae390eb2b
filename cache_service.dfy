/**
 * The in-memory cache of the service: a string cache of at most ten
 * entries kept in insertion order, where a put that adds an eleventh key
 * evicts the oldest-inserted one, and an uncapped cache of real-time feeds.
 * Both expire entries lazily, on read. The clock is a parameter `now`, in
 * epoch milliseconds.
 *
 * The specification functions work on an `ApiMap` value; the class
 * `CacheService` updates its fields in place and is proved to follow them.
 */
module Cache {
  import opened Wrappers
  import opened Text
  import opened GtfsRealtime

  /** A reading of `System.currentTimeMillis()`: a non-negative `long`. */
  type Millis = t: int | 0 <= t < 0x8000_0000_0000_0000

  /** The capacity of the string cache. */
  const MaxApiCalls: nat := 10
  /** The time to live of `put(key, value)`: one year, in seconds. */
  const DefaultTtlSeconds: int32 := 31536000
  const TramTokenKey: string := "tram_access_token"

  // ---------------------------------------------------------------------------
  // Entries

  /** An entry of the string cache: the value and the epoch millisecond from which it is expired. */
  datatype ApiEntry = ApiEntry(value: string, expiresAt: int)

  /** `new ApiCacheEntry(value, ttlSeconds)` created at `now`. */
  function NewApiEntry(value: string, ttlSeconds: int32, now: Millis): (e: ApiEntry)
    ensures e.value == value
    ensures !ApiExpired(e, now) <==> ttlSeconds > 0
    ensures forall t: Millis :: ApiExpired(e, t) <==> t >= now + ttlSeconds * 1000
  {
    ApiEntry(value, now + ttlSeconds * 1000)
  }

  predicate ApiExpired(e: ApiEntry, now: Millis)
  {
    now >= e.expiresAt
  }

  /** An entry of the feed cache: the feed and the epoch second from which it is expired. */
  datatype GtfsEntry = GtfsEntry(feed: FeedMessage, expiresAt: int)

  /** `new GtfsCacheEntry(feed, ttlSeconds)` created at `now`: expiry counted in whole seconds. */
  function NewGtfsEntry(feed: FeedMessage, ttlSeconds: int32, now: Millis): (e: GtfsEntry)
    ensures e.feed == feed
    ensures forall t: Millis :: GtfsExpired(e, t) <==> t / 1000 >= now / 1000 + ttlSeconds
  {
    GtfsEntry(feed, now / 1000 + ttlSeconds)
  }

  predicate GtfsExpired(e: GtfsEntry, now: Millis)
  {
    now / 1000 >= e.expiresAt
  }

  // ---------------------------------------------------------------------------
  // The string cache as a value

  predicate Distinct(s: seq<string>)
  {
    forall i, j :: 0 <= i < j < |s| ==> s[i] != s[j]
  }

  /** The keys in insertion order (oldest first) and the entry of each. */
  datatype ApiMap = ApiMap(order: seq<string>, entries: map<string, ApiEntry>)

  const EmptyApi := ApiMap([], map[])

  /** The order lists each key of the map once, and there are at most ten. */
  predicate Bounded(m: ApiMap)
  {
    Distinct(m.order) && |m.order| <= MaxApiCalls &&
    (forall k :: k in m.entries ==> k in m.order) && (forall k :: k in m.order ==> k in m.entries)
  }

  /** The order with `key` taken out, everything else kept in place. */
  function Without(order: seq<string>, key: string): (r: seq<string>)
    ensures forall k :: k in r <==> k in order && k != key
    ensures Distinct(order) ==> Distinct(r)
    ensures key !in order ==> r == order
    ensures |r| <= |order|
  {
    if order == [] then []
    else if order[0] == key then Without(order[1..], key)
    else
      var rest := Without(order[1..], key);
      if Distinct(order) then
        DistinctParts(order);
        DistinctCons(order[0], rest);
        [order[0]] + rest
      else [order[0]] + rest
  }

  lemma DistinctParts(s: seq<string>)
    requires Distinct(s) && s != []
    ensures s[0] !in s[1..] && Distinct(s[1..])
  {
    forall j | 0 <= j < |s| - 1
      ensures s[1..][j] != s[0]
    {
      assert s[1..][j] == s[j + 1];
    }
  }

  lemma DistinctSuffix(s: seq<string>, d: nat)
    requires Distinct(s) && d <= |s|
    ensures Distinct(s[d..])
  {
    forall i, j | 0 <= i < j < |s| - d
      ensures s[d..][i] != s[d..][j]
    {
      assert s[d..][i] == s[d + i] && s[d..][j] == s[d + j];
    }
  }

  lemma DistinctCons(x: string, rest: seq<string>)
    requires x !in rest && Distinct(rest)
    ensures Distinct([x] + rest)
  {
    var s := [x] + rest;
    forall i, j | 0 <= i < j < |s|
      ensures s[i] != s[j]
    {
      assert s[j] == rest[j - 1];
      if i > 0 {
        assert s[i] == rest[i - 1];
      }
    }
  }

  /** `apiCache.remove(key)`. */
  function Remove(m: ApiMap, key: string): (r: ApiMap)
    ensures Bounded(m) ==> Bounded(r)
    ensures key !in r.entries
  {
    ApiMap(Without(m.order, key), m.entries - {key})
  }

  /**
   * `apiCache.put(key, e)` on the insertion-ordered map followed by the
   * `removeEldestEntry` rule: an existing key keeps its place; a new key goes
   * last, and if that makes more than ten keys the oldest one is dropped.
   */
  function Insert(m: ApiMap, key: string, e: ApiEntry): ApiMap
  {
    if key in m.entries then ApiMap(m.order, m.entries[key := e])
    else
      var order := m.order + [key];
      var entries := m.entries[key := e];
      if |order| > MaxApiCalls then ApiMap(order[1..], entries - {order[0]})
      else ApiMap(order, entries)
  }

  /** `get(key)`: the value of a live entry; an expired entry reads as absent and is removed. */
  function Lookup(m: ApiMap, key: string, now: Millis): (Option<string>, ApiMap)
  {
    if key !in m.entries then (None, m)
    else if ApiExpired(m.entries[key], now) then (None, Remove(m, key))
    else (Some(m.entries[key].value), m)
  }

  /** `put(key, value, ttlSeconds)`: null removes the key, anything else is inserted. */
  function Store(m: ApiMap, key: string, value: Option<string>, ttlSeconds: int32, now: Millis): ApiMap
  {
    if value.None? then Remove(m, key) else Insert(m, key, NewApiEntry(value.value, ttlSeconds, now))
  }

  // ---------------------------------------------------------------------------
  // Properties of the string cache

  /** Reading a key the map does not hold gives null and changes nothing. */
  lemma LookupAbsent(m: ApiMap, key: string, now: Millis)
    requires key !in m.entries
    ensures Lookup(m, key, now) == (None, m)
  {
  }

  /**
   * Reading returns exactly the live value, removes the key read when its
   * entry has expired and changes nothing otherwise, and never moves a key.
   */
  lemma LookupSemantics(m: ApiMap, key: string, now: Millis)
    requires Bounded(m)
    ensures Lookup(m, key, now).0.Some? <==> key in m.entries && !ApiExpired(m.entries[key], now)
    ensures Lookup(m, key, now).0.Some? ==> Lookup(m, key, now).0.value == m.entries[key].value
    ensures Lookup(m, key, now).1 == (if key in m.entries && ApiExpired(m.entries[key], now) then Remove(m, key) else m)
    ensures Lookup(m, key, now).1.order in {m.order, Without(m.order, key)}
    ensures Bounded(Lookup(m, key, now).1)
  {
  }

  /** Adding a key the cache does not hold appends it and keeps the last ten. */
  lemma InsertFresh(m: ApiMap, key: string, e: ApiEntry)
    requires Bounded(m) && key !in m.entries
    ensures Insert(m, key, e).order == LastTen(m.order + [key])
    ensures Bounded(Insert(m, key, e))
  {
    var order := m.order + [key];
    var entries := m.entries[key := e];
    DistinctCons2(m.order, key);
    assert forall k :: k in entries <==> k in order;
    if |order| > MaxApiCalls {
      DropFirst(order);
      assert Insert(m, key, e) == ApiMap(order[1..], entries - {order[0]});
      assert order[1..] == LastTen(order);
    }
  }

  /** Without its first element, a sequence of distinct keys holds exactly the others. */
  lemma DropFirst(s: seq<string>)
    requires Distinct(s) && s != []
    ensures Distinct(s[1..])
    ensures forall k :: k in s[1..] <==> k in s && k != s[0]
  {
    DistinctParts(s);
    assert s == [s[0]] + s[1..];
  }

  lemma DistinctCons2(s: seq<string>, x: string)
    requires Distinct(s) && x !in s
    ensures Distinct(s + [x])
  {
    var t := s + [x];
    forall i, j | 0 <= i < j < |t|
      ensures t[i] != t[j]
    {
      assert t[i] == s[i];
      if j < |s| {
        assert t[j] == s[j];
      }
    }
  }

  /** Every put leaves at most ten keys, each listed once in the order. */
  lemma PutKeepsBounded(m: ApiMap, key: string, value: Option<string>, ttlSeconds: int32, now: Millis)
    requires Bounded(m)
    ensures Bounded(Store(m, key, value, ttlSeconds, now))
  {
    if value.Some? && key !in m.entries {
      InsertFresh(m, key, NewApiEntry(value.value, ttlSeconds, now));
    }
  }

  /** A value put is read back unchanged at any time before its expiry. */
  lemma GetAfterPut(m: ApiMap, key: string, v: string, ttlSeconds: int32, now: Millis, later: Millis)
    requires Bounded(m)
    requires now <= later < now + ttlSeconds * 1000
    ensures Lookup(Store(m, key, Some(v), ttlSeconds, now), key, later) == (Some(v), Store(m, key, Some(v), ttlSeconds, now))
  {
    if key !in m.entries && |m.order| + 1 > MaxApiCalls {
      assert m.order[0] in m.entries;
    }
  }

  /** A value put reads as null from its expiry on, and that read removes the key and touches no other. */
  lemma ReadAfterExpiryRemoves(m: ApiMap, key: string, v: string, ttlSeconds: int32, now: Millis, later: Millis)
    requires Bounded(m)
    requires later >= now + ttlSeconds * 1000
    ensures var m' := Store(m, key, Some(v), ttlSeconds, now);
      Lookup(m', key, later) == (None, Remove(m', key))
    ensures var m' := Store(m, key, Some(v), ttlSeconds, now);
      Lookup(m', key, later).1.entries == m'.entries - {key}
  {
    var m' := Store(m, key, Some(v), ttlSeconds, now);
    if key !in m.entries && |m.order| + 1 > MaxApiCalls {
      assert m.order[0] in m.entries;
    }
    assert m'.entries[key] == NewApiEntry(v, ttlSeconds, now);
  }

  /** With a time to live of zero or less, the value is absent from the moment it is put, and reading it removes it. */
  lemma ZeroTtlReadsAbsent(m: ApiMap, key: string, v: string, ttlSeconds: int32, now: Millis, later: Millis)
    requires Bounded(m) && ttlSeconds <= 0 && now <= later
    ensures var m' := Store(m, key, Some(v), ttlSeconds, now);
      Lookup(m', key, later).0 == None && key !in Lookup(m', key, later).1.entries
  {
  }

  /** `put(key, null)` makes the key unreadable whatever came before, and touches no other key. */
  lemma PutNullRemoves(m: ApiMap, key: string, ttlSeconds: int32, now: Millis, later: Millis)
    ensures Lookup(Store(m, key, None, ttlSeconds, now), key, later).0 == None
    ensures Store(m, key, None, ttlSeconds, now).entries == m.entries - {key}
    ensures Store(m, key, None, ttlSeconds, now).order == Without(m.order, key)
  {
  }

  /**
   * Adding a new key to a full cache evicts exactly the oldest-inserted key,
   * whether or not it has expired, and appends the new one.
   */
  lemma PutNewKeyWhenFullEvictsOldest(m: ApiMap, key: string, v: string, ttlSeconds: int32, now: Millis)
    requires Bounded(m) && |m.order| == MaxApiCalls && key !in m.entries
    ensures var m' := Store(m, key, Some(v), ttlSeconds, now);
      m'.order == m.order[1..] + [key] &&
      m'.entries == (m.entries - {m.order[0]})[key := NewApiEntry(v, ttlSeconds, now)] &&
      m.order[0] !in m'.entries
  {
    var e := NewApiEntry(v, ttlSeconds, now);
    assert (m.order + [key])[1..] == m.order[1..] + [key];
    assert (m.order + [key])[0] == m.order[0];
    assert m.order[0] != key;
    assert m.entries[key := e] - {m.order[0]} == (m.entries - {m.order[0]})[key := e];
  }

  /** Overwriting a key that is already cached keeps its place in the eviction order. */
  lemma PutExistingKeepsOrder(m: ApiMap, key: string, v: string, ttlSeconds: int32, now: Millis)
    requires key in m.entries
    ensures Store(m, key, Some(v), ttlSeconds, now).order == m.order
  {
  }

  /** The last ten of a sequence, or all of it when shorter. */
  function LastTen(s: seq<string>): (r: seq<string>)
    ensures |r| <= MaxApiCalls
  {
    if |s| > MaxApiCalls then s[|s| - MaxApiCalls..] else s
  }

  /** Puts of the keys `ks`, one after another, each with value `v` at time `now`. */
  function PutAll(m: ApiMap, ks: seq<string>, v: string, ttlSeconds: int32, now: Millis): ApiMap
    decreases |ks|
  {
    if ks == [] then m else PutAll(Store(m, ks[0], Some(v), ttlSeconds, now), ks[1..], v, ttlSeconds, now)
  }

  /** Inserting keys the cache has never held keeps exactly the ten most recently inserted. */
  lemma {:induction false} PutAllFreshKeepsLastTen(m: ApiMap, ks: seq<string>, v: string, ttlSeconds: int32, now: Millis)
    requires Bounded(m) && Distinct(m.order + ks)
    ensures Bounded(PutAll(m, ks, v, ttlSeconds, now))
    ensures PutAll(m, ks, v, ttlSeconds, now).order == LastTen(m.order + ks)
    decreases |ks|
  {
    if ks != [] {
      var m1 := Store(m, ks[0], Some(v), ttlSeconds, now);
      var d := FreshStep(m, ks, v, ttlSeconds, now);
      DistinctSuffix(m.order + ks, d);
      PutAllFreshKeepsLastTen(m1, ks[1..], v, ttlSeconds, now);
      LastTenOfSuffix(m.order + ks, d);
    }
  }

  /** One fresh put: what is left to put after it is a suffix of what was to be put, cut only beyond the last ten. */
  lemma FreshStep(m: ApiMap, ks: seq<string>, v: string, ttlSeconds: int32, now: Millis) returns (d: nat)
    requires Bounded(m) && Distinct(m.order + ks) && ks != []
    ensures var m1 := Store(m, ks[0], Some(v), ttlSeconds, now);
      Bounded(m1) && d <= |m.order + ks| && (d == 0 || |m.order + ks| - d >= MaxApiCalls) &&
      m1.order + ks[1..] == (m.order + ks)[d..]
  {
    var o := m.order + [ks[0]];
    assert m.order + ks == o + ks[1..];
    forall i | 0 <= i < |m.order|
      ensures m.order[i] != ks[0]
    {
      assert (m.order + ks)[i] == m.order[i] && (m.order + ks)[|m.order|] == ks[0];
    }
    var m1 := Store(m, ks[0], Some(v), ttlSeconds, now);
    InsertFresh(m, ks[0], NewApiEntry(v, ttlSeconds, now));
    d := |o| - |m1.order|;
    assert m1.order + ks[1..] == (o + ks[1..])[d..];
  }

  /** Dropping from the front no more than what lies beyond the last ten changes nothing. */
  lemma LastTenOfSuffix(s: seq<string>, d: nat)
    requires d <= |s| && (d == 0 || |s| - d >= MaxApiCalls)
    ensures LastTen(s[d..]) == LastTen(s)
  {
  }

  /**
   * Putting eleven keys in a row, none of them cached before, leaves the
   * first one unreachable, even though it has not expired.
   */
  lemma ElevenFreshKeysEvictTheFirst(m: ApiMap, ks: seq<string>, v: string, ttlSeconds: int32, now: Millis, later: Millis)
    requires Bounded(m) && |ks| == MaxApiCalls + 1 && Distinct(m.order + ks)
    ensures Lookup(PutAll(m, ks, v, ttlSeconds, now), ks[0], later).0 == None
  {
    PutAllFreshKeepsLastTen(m, ks, v, ttlSeconds, now);
    var s := m.order + ks;
    assert s[|m.order|] == ks[0];
    assert ks[0] !in s[|s| - MaxApiCalls..];
  }

  // ---------------------------------------------------------------------------
  // The feed cache as a value

  /** `getGtfsRt(key)`: the feed of a live entry; an expired entry reads as absent and is removed. */
  function LookupFeed(feeds: map<string, GtfsEntry>, key: string, now: Millis): (Option<FeedMessage>, map<string, GtfsEntry>)
  {
    if key !in feeds then (None, feeds)
    else if GtfsExpired(feeds[key], now) then (None, feeds - {key})
    else (Some(feeds[key].feed), feeds)
  }

  /** A feed put is read back until the epoch second its time to live runs out, and never earlier than that is it dropped. */
  lemma FeedReadBackUntilExpiry(feeds: map<string, GtfsEntry>, key: string, feed: FeedMessage, ttlSeconds: int32, now: Millis, later: Millis)
    requires now <= later
    ensures var f := feeds[key := NewGtfsEntry(feed, ttlSeconds, now)];
      LookupFeed(f, key, later).0 == (if later / 1000 < now / 1000 + ttlSeconds then Some(feed) else None)
    ensures var f := feeds[key := NewGtfsEntry(feed, ttlSeconds, now)];
      LookupFeed(f, key, later).1 == (if later / 1000 < now / 1000 + ttlSeconds then f else f - {key})
  {
  }

  // ---------------------------------------------------------------------------
  // The service

  class CacheService {
    var apiOrder: seq<string>
    var apiEntries: map<string, ApiEntry>
    var gtfsEntries: map<string, GtfsEntry>

    /** The string cache as a value. */
    function Api(): ApiMap
      reads this
    {
      ApiMap(apiOrder, apiEntries)
    }

    predicate Valid()
      reads this
    {
      Bounded(Api())
    }

    constructor()
      ensures Valid() && Api() == EmptyApi && gtfsEntries == map[]
    {
      apiOrder := [];
      apiEntries := map[];
      gtfsEntries := map[];
    }

    /** `apiCache.remove(key)` in place. */
    method RemoveEntry(key: string)
      requires Valid()
      modifies this
      ensures Valid()
      ensures Api() == Remove(old(Api()), key) && gtfsEntries == old(gtfsEntries)
    {
      apiOrder := Without(apiOrder, key);
      apiEntries := apiEntries - {key};
    }

    /** `get(key)`. */
    method Get(key: string, now: Millis) returns (value: Option<string>)
      requires Valid()
      modifies this
      ensures Valid()
      ensures (value, Api()) == Lookup(old(Api()), key, now)
      ensures gtfsEntries == old(gtfsEntries)
    {
      if key in apiEntries {
        var entry := apiEntries[key];
        if !ApiExpired(entry, now) {
          return Some(entry.value);
        }
        RemoveEntry(key);
      }
      return None;
    }

    /** `put(key, value, ttlSeconds)`, with the eviction of the eldest entry past ten. */
    method Put(key: string, value: Option<string>, ttlSeconds: int32, now: Millis)
      requires Valid()
      modifies this
      ensures Valid()
      ensures Api() == Store(old(Api()), key, value, ttlSeconds, now)
      ensures gtfsEntries == old(gtfsEntries)
    {
      PutKeepsBounded(Api(), key, value, ttlSeconds, now);
      if value.None? {
        RemoveEntry(key);
        return;
      }
      var entry := NewApiEntry(value.value, ttlSeconds, now);
      if key in apiEntries {
        apiEntries := apiEntries[key := entry];
      } else {
        apiOrder := apiOrder + [key];
        apiEntries := apiEntries[key := entry];
        if |apiOrder| > MaxApiCalls {
          var eldest := apiOrder[0];
          apiOrder := apiOrder[1..];
          apiEntries := apiEntries - {eldest};
        }
      }
    }

    /** `put(key, value)`: the one-year time to live. */
    method PutDefault(key: string, value: Option<string>, now: Millis)
      requires Valid()
      modifies this
      ensures Valid()
      ensures Api() == Store(old(Api()), key, value, DefaultTtlSeconds, now)
      ensures gtfsEntries == old(gtfsEntries)
    {
      Put(key, value, DefaultTtlSeconds, now);
    }

    /** `putTramAccessToken(token)`: null removes the token, anything else is stored for a year. */
    method PutTramAccessToken(token: Option<string>, now: Millis)
      requires Valid()
      modifies this
      ensures Valid()
      ensures Api() == Store(old(Api()), TramTokenKey, token, DefaultTtlSeconds, now)
      ensures gtfsEntries == old(gtfsEntries)
    {
      if token.None? {
        RemoveEntry(TramTokenKey);
        return;
      }
      PutDefault(TramTokenKey, token, now);
    }

    /** `getTramAccessToken()`. */
    method GetTramAccessToken(now: Millis) returns (token: Option<string>)
      requires Valid()
      modifies this
      ensures Valid()
      ensures (token, Api()) == Lookup(old(Api()), TramTokenKey, now)
      ensures gtfsEntries == old(gtfsEntries)
    {
      token := Get(TramTokenKey, now);
    }

    /** `clear()`: empties the string cache only; cached feeds stay. */
    method Clear()
      modifies this
      ensures Valid() && Api() == EmptyApi
      ensures gtfsEntries == old(gtfsEntries)
    {
      apiOrder := [];
      apiEntries := map[];
    }

    /** `getGtfsRt(key)`. */
    method GetGtfsRt(key: string, now: Millis) returns (feed: Option<FeedMessage>)
      modifies this
      ensures (feed, gtfsEntries) == LookupFeed(old(gtfsEntries), key, now)
      ensures Api() == old(Api())
    {
      if key in gtfsEntries {
        var entry := gtfsEntries[key];
        if !GtfsExpired(entry, now) {
          return Some(entry.feed);
        }
        gtfsEntries := gtfsEntries - {key};
      }
      return None;
    }

    /** `putGtfsRt(key, feed, ttlSeconds)`: no capacity bound, other feeds untouched. */
    method PutGtfsRt(key: string, feed: FeedMessage, ttlSeconds: int32, now: Millis)
      modifies this
      ensures gtfsEntries == old(gtfsEntries)[key := NewGtfsEntry(feed, ttlSeconds, now)]
      ensures Api() == old(Api())
    {
      gtfsEntries := gtfsEntries[key := NewGtfsEntry(feed, ttlSeconds, now)];
    }
  }
}
