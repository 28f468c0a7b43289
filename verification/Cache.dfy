/** The query cache of include/sqlgen/cache.hpp: eviction, and any number of fetches running
    at the same time. */
module Cache {
  import opened Wrappers
  import opened Numbers

  /** A shared future is known by its number. */
  type FutureId = nat

  datatype Entry = Entry(future: FutureId, counter: nat)

  type Entries = map<string, Entry>

  const SIZE_MAX: nat := 0xFFFF_FFFF_FFFF_FFFF

  /** max_size_: zero stands for no limit but that of size_t. */
  function MaxSize(maxSize: nat): (r: nat)
    ensures r > 0 && (r == maxSize || (maxSize == 0 && r == 0xFFFF_FFFF_FFFF_FFFF))
  {
    if maxSize == 0 then SIZE_MAX else maxSize
  }

  // ------------------------------------------------------------------- eviction

  ghost predicate IsOldest(c: Entries, key: string)
  {
    key in c && forall k :: k in c ==> c[key].counter <= c[k].counter
  }

  ghost predicate DistinctCounters(c: Entries)
  {
    forall k1, k2 :: k1 in c && k2 in c && k1 != k2 ==> c[k1].counter != c[k2].counter
  }

  lemma {:induction false} SomeOldest(c: Entries, keys: set<string>) returns (key: string)
    requires keys <= c.Keys && keys != {}
    ensures key in keys && forall k :: k in keys ==> c[key].counter <= c[k].counter
  {
    key :| key in keys;
    if keys != {key} {
      var other := SomeOldest(c, keys - {key});
      if c[other].counter < c[key].counter {
        key := other;
      }
    }
  }

  lemma OldestExists(c: Entries)
    requires c != map[]
    ensures exists key :: IsOldest(c, key)
  {
    var k :| k in c;
    var key := SomeOldest(c, c.Keys);
    assert IsOldest(c, key);
  }

  /** The cache after cache_[sql] = (future, counter), and after erasing the entry with the
      smallest counter if there are too many. */
  ghost function Written(c: Entries, counter: nat, maxSize: nat, sql: string, future: FutureId): Entries
  {
    var c' := c[sql := Entry(future, counter)];
    if |c'| <= maxSize then c'
    else
      OldestExists(c');
      var oldest :| IsOldest(c', oldest);
      c' - {oldest}
  }

  class CacheImpl {
    const maxSize: nat
    var cache: Entries
    var counter: nat

    constructor (maxSize_: nat)
      ensures cache == map[] && counter == 0 && maxSize == MaxSize(maxSize_)
    {
      maxSize, cache, counter := MaxSize(maxSize_), map[], 0;
    }

    /** Counters are handed out in order, so no two entries share one. */
    ghost predicate Valid()
      reads this
    {
      DistinctCounters(cache) && forall k :: k in cache ==> cache[k].counter < counter
    }

    method TryReadFromCache(sql: string) returns (r: Option<FutureId>)
      ensures r == if sql in cache then Some(cache[sql].future) else None
    {
      r := if sql in cache then Some(cache[sql].future) else None;
    }

    /** std::min_element over the entries, in whatever order the map has them. */
    method MinElement() returns (oldest: string)
      requires cache != map[]
      ensures IsOldest(cache, oldest)
    {
      var rest := cache.Keys;
      oldest :| oldest in rest;
      rest := rest - {oldest};
      while rest != {}
        invariant rest <= cache.Keys && oldest in cache
        invariant forall k :: k in cache && k !in rest ==> cache[oldest].counter <= cache[k].counter
        decreases rest
      {
        var key :| key in rest;
        if cache[key].counter < cache[oldest].counter {
          oldest := key;
        }
        rest := rest - {key};
      }
    }

    method WriteToCache(sql: string, future: FutureId)
      requires Valid()
      modifies this
      ensures Valid()
      ensures cache == Written(old(cache), old(counter), maxSize, sql, future) && counter == old(counter) + 1
    {
      ghost var before, n := cache, counter;
      CountersGrow(before, n, sql, future);
      cache := cache[sql := Entry(future, counter)];
      counter := counter + 1;
      if |cache| > maxSize {
        var oldest := MinElement();
        OldestIsErased(before, n, maxSize, sql, future, oldest);
        cache := cache - {oldest};
      }
    }

    /** A whole fetch that no other one interferes with. `results` is what get() gives on each
        future, `mine` the future of the query started here, if one is. */
    method Fetch<V>(sql: string, results: FutureId -> Result<V>, mine: FutureId) returns (r: Result<V>, ran: bool)
      requires Valid()
      modifies this
      ensures Valid()
      ensures ran <==> sql !in old(cache) || results(old(cache)[sql].future).Error?
      ensures r == results(if ran then mine else old(cache)[sql].future)
      ensures ran ==> cache == Written(old(cache), old(counter), maxSize, sql, mine) && counter == old(counter) + 1
      ensures !ran ==> cache == old(cache) && counter == old(counter)
    {
      var future := TryReadFromCache(sql);
      if future.Some? {
        r := results(future.value);
        if r.Ok? {
          return r, false;
        }
      }
      WriteToCache(sql, mine);
      r, ran := results(mine), true;
    }
  }

  lemma CountersGrow(c: Entries, counter: nat, sql: string, future: FutureId)
    requires DistinctCounters(c) && forall k :: k in c ==> c[k].counter < counter
    ensures var c' := c[sql := Entry(future, counter)];
            DistinctCounters(c') && forall k :: k in c' ==> c'[k].counter < counter + 1
  {
  }

  lemma OldestIsErased(c: Entries, counter: nat, maxSize: nat, sql: string, future: FutureId, oldest: string)
    requires var c' := c[sql := Entry(future, counter)]; |c'| > maxSize && DistinctCounters(c') && IsOldest(c', oldest)
    ensures Written(c, counter, maxSize, sql, future) == c[sql := Entry(future, counter)] - {oldest}
  {
    OldestIsUnique(c[sql := Entry(future, counter)], oldest);
  }

  lemma OldestIsUnique(c: Entries, key: string)
    requires DistinctCounters(c) && IsOldest(c, key)
    ensures forall k :: IsOldest(c, k) ==> k == key
  {
  }

  // ------------------------------------------------------------------- what the cache holds

  datatype Write = Write(sql: string, future: FutureId)

  /** The cache if nothing were ever evicted: for each key its last write. */
  function Unbounded(writes: seq<Write>): (u: Entries)
  {
    if writes == [] then map[]
    else
      var n := |writes| - 1;
      Unbounded(writes[..n])[writes[n].sql := Entry(writes[n].future, n)]
  }

  /** Its entries are the last writes of their keys. */
  lemma {:induction false} UnboundedHasLastWrites(writes: seq<Write>)
    ensures forall k :: k in Unbounded(writes) <==> exists i :: 0 <= i < |writes| && writes[i].sql == k
    ensures forall k :: k in Unbounded(writes) ==>
              var e := Unbounded(writes)[k];
              && e.counter < |writes| && writes[e.counter] == Write(k, e.future)
              && forall i :: e.counter < i < |writes| ==> writes[i].sql != k
  {
    if writes != [] {
      var n := |writes| - 1;
      var before := writes[..n];
      UnboundedHasLastWrites(before);
      assert forall i :: 0 <= i < n ==> writes[i] == before[i];
      assert writes[n].sql in Unbounded(writes);
    }
  }

  lemma {:induction false} UnboundedCounters(writes: seq<Write>)
    ensures DistinctCounters(Unbounded(writes))
    ensures forall k :: k in Unbounded(writes) ==> Unbounded(writes)[k].counter < |writes|
  {
    if writes != [] {
      UnboundedCounters(writes[..|writes| - 1]);
    }
  }

  lemma UnboundedSnoc(writes: seq<Write>, w: Write)
    ensures Unbounded(writes + [w]) == Unbounded(writes)[w.sql := Entry(w.future, |writes|)]
  {
    assert (writes + [w])[..|writes|] == writes;
  }

  /** The keys are the n most recently written ones, or all if there are not so many. */
  ghost predicate MostRecent(u: Entries, n: nat, keys: set<string>)
  {
    && keys <= u.Keys
    && |keys| == Min(n, |u.Keys|)
    && forall k, k' :: k in keys && k' in u.Keys - keys ==> u[k].counter > u[k'].counter
  }

  lemma {:induction false} Cardinality<T>(a: set<T>, b: set<T>)
    requires a <= b
    ensures |a| <= |b| && (|a| == |b| ==> a == b)
  {
    if a != {} {
      var x :| x in a;
      Cardinality(a - {x}, b - {x});
    }
  }

  /** There is only one such set of keys. */
  lemma MostRecentIsUnique(u: Entries, n: nat, keys1: set<string>, keys2: set<string>)
    requires MostRecent(u, n, keys1) && MostRecent(u, n, keys2)
    ensures keys1 == keys2
  {
    if keys1 <= keys2 {
      Cardinality(keys1, keys2);
    } else if keys2 <= keys1 {
      Cardinality(keys2, keys1);
    }
  }

  /** Outside the write lock the cache holds exactly the most recently written keys, each with
      the future of its last write. */
  ghost predicate Reflects(c: Entries, counter: nat, maxSize: nat, writes: seq<Write>)
  {
    var u := Unbounded(writes);
    && counter == |writes|
    && MostRecent(u, maxSize, c.Keys)
    && forall k :: k in c ==> c[k] == u[k]
  }

  /** Writing keeps it so: the key just written is kept, and what is evicted was last written
      before everything that stays. */
  lemma WrittenReflects(c: Entries, counter: nat, maxSize: nat, writes: seq<Write>, w: Write)
    requires Reflects(c, counter, maxSize, writes) && maxSize > 0
    ensures Reflects(Written(c, counter, maxSize, w.sql, w.future), counter + 1, maxSize, writes + [w])
    ensures w.sql in Written(c, counter, maxSize, w.sql, w.future)
  {
    UnboundedSnoc(writes, w);
    UnboundedCounters(writes);
    if |c[w.sql := Entry(w.future, counter)]| <= maxSize {
      ReflectsAll(Unbounded(writes), c, counter, maxSize, w);
    } else {
      ReflectsEvicted(Unbounded(writes), c, counter, maxSize, w);
    }
  }

  lemma ReflectsAll(u: Entries, c: Entries, counter: nat, maxSize: nat, w: Write)
    requires MostRecent(u, maxSize, c.Keys) && (forall k :: k in u ==> u[k].counter < counter)
    requires forall k :: k in c ==> c[k] == u[k]
    requires |c[w.sql := Entry(w.future, counter)]| <= maxSize
    ensures var c', u' := Written(c, counter, maxSize, w.sql, w.future), u[w.sql := Entry(w.future, counter)];
            MostRecent(u', maxSize, c'.Keys) && w.sql in c' && forall k :: k in c' ==> c'[k] == u'[k]
  {
    KeepAll(u, c, counter, maxSize, w);
    assert c[w.sql := Entry(w.future, counter)].Keys == c.Keys + {w.sql};
  }

  lemma ReflectsEvicted(u: Entries, c: Entries, counter: nat, maxSize: nat, w: Write)
    requires MostRecent(u, maxSize, c.Keys) && (forall k :: k in u ==> u[k].counter < counter) && DistinctCounters(u)
    requires forall k :: k in c ==> c[k] == u[k]
    requires |c[w.sql := Entry(w.future, counter)]| > maxSize > 0
    ensures var c', u' := Written(c, counter, maxSize, w.sql, w.future), u[w.sql := Entry(w.future, counter)];
            MostRecent(u', maxSize, c'.Keys) && w.sql in c' && forall k :: k in c' ==> c'[k] == u'[k]
  {
    var oldest := WrittenEvicts(c, counter, maxSize, w);
    Evict(u, c, counter, maxSize, w, oldest);
    assert Written(c, counter, maxSize, w.sql, w.future).Keys == c.Keys + {w.sql} - {oldest};
  }

  lemma WrittenEvicts(c: Entries, counter: nat, maxSize: nat, w: Write) returns (oldest: string)
    requires |c[w.sql := Entry(w.future, counter)]| > maxSize
    ensures IsOldest(c[w.sql := Entry(w.future, counter)], oldest)
    ensures Written(c, counter, maxSize, w.sql, w.future) == c[w.sql := Entry(w.future, counter)] - {oldest}
  {
    var c' := c[w.sql := Entry(w.future, counter)];
    OldestExists(c');
    oldest :| IsOldest(c', oldest) && Written(c, counter, maxSize, w.sql, w.future) == c' - {oldest};
  }

  lemma KeepAll(u: Entries, c: Entries, counter: nat, maxSize: nat, w: Write)
    requires MostRecent(u, maxSize, c.Keys) && (forall k :: k in u ==> u[k].counter < counter)
    requires |c[w.sql := Entry(w.future, counter)]| <= maxSize
    ensures MostRecent(u[w.sql := Entry(w.future, counter)], maxSize, c.Keys + {w.sql})
  {
    var e := Entry(w.future, counter);
    assert c[w.sql := e].Keys == c.Keys + {w.sql};
    assert u[w.sql := e].Keys == u.Keys + {w.sql};
    if w.sql in c {
      assert c.Keys + {w.sql} == c.Keys && u.Keys + {w.sql} == u.Keys;
    } else {
      assert |c.Keys + {w.sql}| == |c.Keys| + 1;
      Cardinality(c.Keys, u.Keys);
      assert c.Keys == u.Keys;
    }
  }

  lemma Evict(u: Entries, c: Entries, counter: nat, maxSize: nat, w: Write, oldest: string)
    requires MostRecent(u, maxSize, c.Keys) && (forall k :: k in u ==> u[k].counter < counter) && DistinctCounters(u)
    requires forall k :: k in c ==> c[k] == u[k]
    requires |c[w.sql := Entry(w.future, counter)]| > maxSize > 0
    requires IsOldest(c[w.sql := Entry(w.future, counter)], oldest)
    ensures oldest != w.sql
    ensures MostRecent(u[w.sql := Entry(w.future, counter)], maxSize, c.Keys + {w.sql} - {oldest})
  {
    var e := Entry(w.future, counter);
    EvictedIsOld(u, c, counter, maxSize, w, oldest);
    var keys := c.Keys + {w.sql} - {oldest};
    assert u[w.sql := e].Keys == u.Keys + {w.sql};
    Cardinality(keys, u.Keys + {w.sql});
    var others := u[w.sql := e].Keys - keys;
    forall k, k' | k in keys && k' in others
      ensures u[w.sql := e][k].counter > u[w.sql := e][k'].counter
    {
      EvictOrder(u, c, counter, maxSize, w, oldest, k, k');
    }
  }

  lemma EvictedIsOld(u: Entries, c: Entries, counter: nat, maxSize: nat, w: Write, oldest: string)
    requires MostRecent(u, maxSize, c.Keys) && (forall k :: k in u ==> u[k].counter < counter)
    requires forall k :: k in c ==> c[k] == u[k]
    requires |c[w.sql := Entry(w.future, counter)]| > maxSize > 0
    requires IsOldest(c[w.sql := Entry(w.future, counter)], oldest)
    ensures w.sql !in c && oldest in c && |c.Keys + {w.sql} - {oldest}| == maxSize
    ensures forall k :: k in c ==> u[oldest].counter <= u[k].counter
  {
    var c' := c[w.sql := Entry(w.future, counter)];
    assert c'.Keys == c.Keys + {w.sql};
    assert w.sql in c ==> c'.Keys == c.Keys;
    assert |c'.Keys| == |c.Keys| + 1;
    var other :| other in c;
    assert c'[oldest].counter <= c'[other].counter < counter;
    forall k | k in c ensures u[oldest].counter <= u[k].counter {
      assert c'[oldest].counter <= c'[k].counter;
    }
  }

  lemma EvictOrder(u: Entries, c: Entries, counter: nat, maxSize: nat, w: Write, oldest: string, k: string, k': string)
    requires MostRecent(u, maxSize, c.Keys) && (forall k :: k in u ==> u[k].counter < counter) && DistinctCounters(u)
    requires w.sql !in c && oldest in c && forall k :: k in c ==> u[oldest].counter <= u[k].counter
    requires k in c.Keys + {w.sql} - {oldest} && k' in u.Keys + {w.sql} - (c.Keys + {w.sql} - {oldest})
    ensures u[w.sql := Entry(w.future, counter)][k].counter > u[w.sql := Entry(w.future, counter)][k'].counter
  {
    assert k' in u && k' != w.sql;
    if k != w.sql {
      assert k in u;
      if k' == oldest {
        assert u[k].counter != u[oldest].counter;
      } else {
        assert k' in u.Keys - c.Keys;
      }
    }
  }

  // ------------------------------------------------------------------- first in, first out

  function Remove(keys: seq<string>, key: string): (r: seq<string>)
    ensures forall k :: k in r <==> k in keys && k != key
    ensures |r| <= |keys|
  {
    if keys == [] then []
    else if keys[0] == key then Remove(keys[1..], key)
    else [keys[0]] + Remove(keys[1..], key)
  }

  function DropFirst(keys: seq<string>, maxSize: nat): seq<string>
  {
    if |keys| > maxSize then keys[1..] else keys
  }

  /** One write on the list of the cached keys, from the next to be evicted to the last. */
  function CodeStep(keys: seq<string>, maxSize: nat, key: string): seq<string>
  {
    DropFirst(Remove(keys, key) + [key], maxSize)
  }

  function CodeOrder(writes: seq<Write>, maxSize: nat): seq<string>
  {
    if writes == [] then []
    else CodeStep(CodeOrder(writes[..|writes| - 1], maxSize), maxSize, writes[|writes| - 1].sql)
  }

  /** The queue that docs/cache.md describes: a key keeps its place until it is evicted. */
  function FifoStep(keys: seq<string>, maxSize: nat, key: string): seq<string>
  {
    if key in keys then keys else DropFirst(keys + [key], maxSize)
  }

  function FifoOrder(writes: seq<Write>, maxSize: nat): seq<string>
  {
    if writes == [] then []
    else FifoStep(FifoOrder(writes[..|writes| - 1], maxSize), maxSize, writes[|writes| - 1].sql)
  }

  ghost predicate Ordered(c: Entries, keys: seq<string>)
  {
    && (forall k :: k in keys ==> k in c)
    && forall i, j :: 0 <= i < j < |keys| ==> c[keys[i]].counter < c[keys[j]].counter
  }

  /** The list has every key of the cache once, in the order of the counters. */
  ghost predicate Lists(c: Entries, keys: seq<string>)
  {
    Ordered(c, keys) && forall k :: k in c ==> k in keys
  }

  lemma FirstIsOldest(c: Entries, keys: seq<string>)
    requires Ordered(c, keys) && keys != []
    ensures Ordered(c, keys[1..]) && forall k :: k in keys[1..] ==> c[keys[0]].counter < c[k].counter
  {
    forall k | k in keys[1..] ensures c[keys[0]].counter < c[k].counter {
      var i :| 0 <= i < |keys[1..]| && keys[1..][i] == k;
      assert keys[i + 1] == k;
    }
  }

  lemma {:induction false} RemoveKeepsOrder(c: Entries, keys: seq<string>, key: string)
    requires Ordered(c, keys)
    ensures Ordered(c, Remove(keys, key))
  {
    if keys != [] {
      FirstIsOldest(c, keys);
      RemoveKeepsOrder(c, keys[1..], key);
    }
  }

  lemma {:induction false} RemoveAbsent(keys: seq<string>, key: string)
    requires key !in keys
    ensures Remove(keys, key) == keys
  {
    if keys != [] {
      RemoveAbsent(keys[1..], key);
    }
  }

  /** Writing to the cache does to the list what CodeStep says. */
  lemma WrittenLists(c: Entries, counter: nat, maxSize: nat, sql: string, future: FutureId, keys: seq<string>)
    requires Lists(c, keys) && (forall k :: k in c ==> c[k].counter < counter) && maxSize > 0
    requires |c| <= maxSize
    ensures Lists(Written(c, counter, maxSize, sql, future), CodeStep(keys, maxSize, sql))
  {
    RemoveKeepsOrder(c, keys, sql);
    AppendLists(c, counter, sql, future, Remove(keys, sql));
    ListLength(c[sql := Entry(future, counter)], Remove(keys, sql) + [sql]);
    if |c[sql := Entry(future, counter)]| > maxSize {
      var oldest := WrittenEvicts(c, counter, maxSize, Write(sql, future));
      OldestIsFirst(c[sql := Entry(future, counter)], Remove(keys, sql) + [sql], oldest);
      ListTail(c[sql := Entry(future, counter)], Remove(keys, sql) + [sql]);
    }
  }

  lemma OldestIsFirst(c: Entries, keys: seq<string>, oldest: string)
    requires Lists(c, keys) && IsOldest(c, oldest)
    ensures keys != [] && oldest == keys[0]
  {
    assert oldest in keys;
    if oldest != keys[0] {
      FirstIsOldest(c, keys);
      InTail(keys, oldest);
    }
  }

  lemma InTail(keys: seq<string>, key: string)
    requires key in keys && key != keys[0]
    ensures key in keys[1..]
  {
    assert keys == [keys[0]] + keys[1..];
  }

  lemma {:induction false} ListTail(c: Entries, keys: seq<string>)
    requires Lists(c, keys) && keys != []
    ensures Lists(c - {keys[0]}, keys[1..]) && |c - {keys[0]}| == |c| - 1
  {
    var first, rest := keys[0], keys[1..];
    FirstIsOldest(c, keys);
    assert (c - {first}).Keys == c.Keys - {first};
    forall k | k in c - {first} ensures k in rest {
      InTail(keys, k);
    }
  }

  lemma AppendLists(c: Entries, counter: nat, sql: string, future: FutureId, rest: seq<string>)
    requires Ordered(c, rest) && sql !in rest && (forall k :: k in c ==> c[k].counter < counter)
    requires forall k :: k in c && k != sql ==> k in rest
    ensures Lists(c[sql := Entry(future, counter)], rest + [sql])
  {
  }

  lemma {:induction false} ListLength(c: Entries, keys: seq<string>)
    requires Lists(c, keys)
    ensures |keys| == |c|
    decreases |keys|
  {
    if keys == [] {
      assert c == map[];
    } else {
      ListTail(c, keys);
      ListLength(c - {keys[0]}, keys[1..]);
    }
  }

  /** The cache after the writes, starting empty. */
  ghost function CacheAfter(writes: seq<Write>, maxSize: nat): Entries
  {
    if writes == [] then map[]
    else
      var n := |writes| - 1;
      Written(CacheAfter(writes[..n], maxSize), n, maxSize, writes[n].sql, writes[n].future)
  }

  lemma NothingReflects(maxSize: nat)
    ensures Reflects(map[], 0, maxSize, [])
  {
  }

  lemma {:induction false} CacheAfterReflects(writes: seq<Write>, maxSize: nat)
    requires maxSize > 0
    ensures Reflects(CacheAfter(writes, maxSize), |writes|, maxSize, writes)
  {
    if writes == [] {
      NothingReflects(maxSize);
    } else {
      var n := |writes| - 1;
      var before, w := writes[..n], writes[n];
      CacheAfterReflects(before, maxSize);
      WrittenReflects(CacheAfter(before, maxSize), n, maxSize, before, w);
      assert before + [w] == writes;
    }
  }

  lemma ReflectsIsUnique(c1: Entries, c2: Entries, counter: nat, maxSize: nat, writes: seq<Write>)
    requires Reflects(c1, counter, maxSize, writes) && Reflects(c2, counter, maxSize, writes)
    ensures c1 == c2
  {
    MostRecentIsUnique(Unbounded(writes), maxSize, c1.Keys, c2.Keys);
    assert forall k :: k in c1 <==> k in c1.Keys;
    assert forall k :: k in c2 <==> k in c2.Keys;
  }

  lemma {:induction false} CodeOrderListsCacheAfter(writes: seq<Write>, maxSize: nat)
    requires maxSize > 0
    ensures Lists(CacheAfter(writes, maxSize), CodeOrder(writes, maxSize))
  {
    if writes != [] {
      var n := |writes| - 1;
      var before := writes[..n];
      CodeOrderListsCacheAfter(before, maxSize);
      CacheAfterReflects(before, maxSize);
      UnboundedCounters(before);
      WrittenLists(CacheAfter(before, maxSize), n, maxSize, writes[n].sql, writes[n].future,
          CodeOrder(before, maxSize));
    }
  }

  /** The list of the cached keys, from the next to be evicted to the last. */
  lemma CodeOrderListsCache(c: Entries, counter: nat, maxSize: nat, writes: seq<Write>)
    requires Reflects(c, counter, maxSize, writes) && maxSize > 0
    ensures Lists(c, CodeOrder(writes, maxSize))
  {
    CacheAfterReflects(writes, maxSize);
    ReflectsIsUnique(c, CacheAfter(writes, maxSize), counter, maxSize, writes);
    CodeOrderListsCacheAfter(writes, maxSize);
  }

  /** After every one of the writes the keys are queued first in, first out. */
  ghost predicate AlwaysFifo(writes: seq<Write>, maxSize: nat)
  {
    forall n :: 0 <= n <= |writes| ==> CodeOrder(writes[..n], maxSize) == FifoOrder(writes[..n], maxSize)
  }

  predicate HitsOlder(keys: seq<string>, key: string)
  {
    key in keys && key != keys[|keys| - 1]
  }

  /** No write is for a key that is in the cache and not the newest one there. */
  ghost predicate NoOlderHit(writes: seq<Write>, maxSize: nat)
  {
    forall n :: 0 <= n < |writes| ==> !HitsOlder(CodeOrder(writes[..n], maxSize), writes[n].sql)
  }

  predicate NoTwice(keys: seq<string>)
  {
    forall i, j :: 0 <= i < j < |keys| ==> keys[i] != keys[j]
  }

  lemma {:induction false} RemoveLast(keys: seq<string>)
    requires NoTwice(keys) && keys != []
    ensures Remove(keys, keys[|keys| - 1]) + [keys[|keys| - 1]] == keys
  {
    if |keys| > 1 {
      RemoveLast(keys[1..]);
      assert keys == [keys[0]] + keys[1..];
    } else {
      assert keys == [keys[0]] && keys[1..] == [];
    }
  }

  lemma {:induction false} RemoveShortens(keys: seq<string>, key: string)
    requires key in keys
    ensures |Remove(keys, key)| < |keys|
  {
    if keys[0] != key {
      RemoveShortens(keys[1..], key);
    }
  }

  /** One write leaves the two lists equal unless it hits a cached key other than the newest. */
  lemma StepIsFifo(keys: seq<string>, maxSize: nat, key: string)
    requires NoTwice(keys) && |keys| <= maxSize
    ensures CodeStep(keys, maxSize, key) == FifoStep(keys, maxSize, key) <==> !HitsOlder(keys, key)
  {
    if key !in keys {
      RemoveAbsent(keys, key);
    } else {
      RemoveShortens(keys, key);
      if key == keys[|keys| - 1] {
        RemoveLast(keys);
      } else {
        var list := Remove(keys, key) + [key];
        assert list[|list| - 1] == key;
      }
    }
  }

  lemma OrderIsBounded(writes: seq<Write>, maxSize: nat)
    requires maxSize > 0
    ensures NoTwice(CodeOrder(writes, maxSize)) && |CodeOrder(writes, maxSize)| <= maxSize
  {
    CodeOrderListsCacheAfter(writes, maxSize);
    CacheAfterReflects(writes, maxSize);
    ListLength(CacheAfter(writes, maxSize), CodeOrder(writes, maxSize));
  }

  lemma OrdersSnoc(writes: seq<Write>, maxSize: nat, n: nat)
    requires n < |writes|
    ensures CodeOrder(writes[..n + 1], maxSize) == CodeStep(CodeOrder(writes[..n], maxSize), maxSize, writes[n].sql)
    ensures FifoOrder(writes[..n + 1], maxSize) == FifoStep(FifoOrder(writes[..n], maxSize), maxSize, writes[n].sql)
  {
    assert writes[..n + 1][..n] == writes[..n] && writes[..n + 1][n] == writes[n];
  }

  lemma {:induction false} FifoUpTo(writes: seq<Write>, maxSize: nat, n: nat)
    requires maxSize > 0 && n <= |writes| && NoOlderHit(writes, maxSize)
    ensures CodeOrder(writes[..n], maxSize) == FifoOrder(writes[..n], maxSize)
  {
    if n > 0 {
      FifoUpTo(writes, maxSize, n - 1);
      OrdersSnoc(writes, maxSize, n - 1);
      OrderIsBounded(writes[..n - 1], maxSize);
      StepIsFifo(CodeOrder(writes[..n - 1], maxSize), maxSize, writes[n - 1].sql);
    }
  }

  /** The cached keys are queued first in, first out if and only if no write hits a cached key
      other than the newest. */
  lemma FifoExactlyIf(writes: seq<Write>, maxSize: nat)
    requires maxSize > 0
    ensures AlwaysFifo(writes, maxSize) <==> NoOlderHit(writes, maxSize)
  {
    if AlwaysFifo(writes, maxSize) {
      forall n | 0 <= n < |writes| ensures !HitsOlder(CodeOrder(writes[..n], maxSize), writes[n].sql) {
        OrdersSnoc(writes, maxSize, n);
        OrderIsBounded(writes[..n], maxSize);
        StepIsFifo(CodeOrder(writes[..n], maxSize), maxSize, writes[n].sql);
        assert CodeOrder(writes[..n + 1], maxSize) == FifoOrder(writes[..n + 1], maxSize);
      }
    }
    if NoOlderHit(writes, maxSize) {
      forall n | 0 <= n <= |writes| ensures CodeOrder(writes[..n], maxSize) == FifoOrder(writes[..n], maxSize) {
        FifoUpTo(writes, maxSize, n);
      }
    }
  }

  // ------------------------------------------------------------------- concurrent fetches

  /** Where a fetch is: about to look into the cache; waiting for the future found there; in
      or_else, after the failure of that future or for want of one; with its own query started;
      with its future in the cache; returned. */
  datatype Phase<V> =
    | Begun
    | Waiting(hit: FutureId)
    | Missed(failed: Option<FutureId>)
    | Launched(own: FutureId)
    | Stored(own: FutureId)
    | Returned(result: Result<V>, from: FutureId)

  /** A fetch through the connection with that number. */
  datatype Fetch<V> = Fetch(sql: string, conn: nat, phase: Phase<V>)

  /** A query run by std::async for the fetch `owner`, on its connection; the outcome once it has
      ended. */
  datatype Query<V> = Query(sql: string, owner: nat, failed: Option<FutureId>, outcome: Option<Result<V>>)

  /** The cache as seen whenever no lock is held; writes is its history. */
  datatype State<V> = State(
    fetches: seq<Fetch<V>>,
    queries: seq<Query<V>>,
    cache: Entries,
    counter: nat,
    writes: seq<Write>)

  datatype Action<V> =
    | Begin(sql: string, conn: nat)
    | Read(t: nat)
    | Launch(t: nat)
    | Store(t: nat)
    | Complete(q: FutureId, outcome: Result<V>)
    | Receive(t: nat)

  function Init<V>(): State<V> { State([], [], map[], 0, []) }

  predicate Ended<V>(s: State<V>, q: FutureId)
  {
    q < |s.queries| && s.queries[q].outcome.Some?
  }

  predicate Enabled<V>(s: State<V>, a: Action<V>)
  {
    match a
    case Begin(_, _) => true
    case Read(t) => t < |s.fetches| && s.fetches[t].phase.Begun?
    case Launch(t) => t < |s.fetches| && s.fetches[t].phase.Missed?
    case Store(t) => t < |s.fetches| && s.fetches[t].phase.Launched?
    case Complete(q, _) => q < |s.queries| && s.queries[q].outcome.None?
    case Receive(t) =>
      && t < |s.fetches|
      && (s.fetches[t].phase.Waiting? || s.fetches[t].phase.Stored?)
      && Ended(s, AwaitedBy(s.fetches[t].phase))
  }

  function AwaitedBy<V>(p: Phase<V>): FutureId
    requires p.Waiting? || p.Stored?
  {
    if p.Waiting? then p.hit else p.own
  }

  function SetPhase<V>(s: State<V>, t: nat, phase: Phase<V>): State<V>
    requires t < |s.fetches|
  {
    s.(fetches := s.fetches[t := s.fetches[t].(phase := phase)])
  }

  /** get() on the future found in the cache returns a value to the caller but an error to
      or_else; on the fetch's own future it returns either to the caller. */
  function Received<V>(p: Phase<V>, outcome: Result<V>): Phase<V>
    requires p.Waiting? || p.Stored?
  {
    if p.Waiting? && outcome.Error? then Missed(Some(p.hit)) else Returned(outcome, AwaitedBy(p))
  }

  ghost function Apply<V>(maxSize: nat, s: State<V>, a: Action<V>): State<V>
    requires Enabled(s, a)
  {
    match a
    case Begin(sql, conn) => s.(fetches := s.fetches + [Fetch(sql, conn, Begun)])
    case Read(t) =>
      var sql := s.fetches[t].sql;
      SetPhase(s, t, if sql in s.cache then Waiting(s.cache[sql].future) else Missed(None))
    case Launch(t) =>
      var q := Query(s.fetches[t].sql, t, s.fetches[t].phase.failed, None);
      SetPhase(s.(queries := s.queries + [q]), t, Launched(|s.queries|))
    case Store(t) =>
      var w := Write(s.fetches[t].sql, s.fetches[t].phase.own);
      SetPhase(s.(cache := Written(s.cache, s.counter, maxSize, w.sql, w.future), counter := s.counter + 1,
                  writes := s.writes + [w]),
               t, Stored(w.future))
    case Complete(q, outcome) => s.(queries := s.queries[q := s.queries[q].(outcome := Some(outcome))])
    case Receive(t) =>
      var p := s.fetches[t].phase;
      SetPhase(s, t, Received(p, s.queries[AwaitedBy(p)].outcome.value))
  }

  /** The state after the actions, if each was enabled in its turn. */
  ghost function After<V>(maxSize: nat, s: State<V>, actions: seq<Action<V>>): Option<State<V>>
    decreases |actions|
  {
    if actions == [] then Some(s)
    else if Enabled(s, actions[0]) then After(maxSize, Apply(maxSize, s, actions[0]), actions[1..])
    else None
  }

  // ------------------------------------------------------------------- what every run keeps

  ghost predicate OwnQuery<V>(s: State<V>, t: nat, q: FutureId)
    requires t < |s.fetches|
  {
    q < |s.queries| && s.queries[q].owner == t && s.queries[q].sql == s.fetches[t].sql
  }

  /** A query with the fetch's SQL ended with that result; an error is that of its own query. */
  ghost predicate ResultOf<V>(s: State<V>, t: nat, q: FutureId, r: Result<V>)
    requires t < |s.fetches|
  {
    && q < |s.queries|
    && s.queries[q].sql == s.fetches[t].sql
    && s.queries[q].outcome == Some(r)
    && (r.Error? ==> s.queries[q].owner == t)
  }

  /** The future was found in the cache under that SQL and ended in an error. */
  ghost predicate FailedHit<V>(s: State<V>, sql: string, failed: Option<FutureId>)
  {
    failed.Some? ==> failed.value < |s.queries| && s.queries[failed.value].sql == sql
                     && s.queries[failed.value].outcome == Some(Result.Error)
  }

  ghost predicate PhaseOk<V>(s: State<V>, t: nat)
    requires t < |s.fetches|
  {
    match s.fetches[t].phase
    case Begun => true
    case Waiting(q) => q < |s.queries| && s.queries[q].sql == s.fetches[t].sql
    case Missed(failed) => FailedHit(s, s.fetches[t].sql, failed)
    case Launched(q) => OwnQuery(s, t, q)
    case Stored(q) => OwnQuery(s, t, q)
    case Returned(r, q) => ResultOf(s, t, q, r)
  }

  predicate HasLaunched<V>(p: Phase<V>) { p.Launched? || p.Stored? || p.Returned? }

  ghost predicate QueriesOk<V>(s: State<V>)
  {
    && (forall q :: 0 <= q < |s.queries| ==>
          && s.queries[q].owner < |s.fetches|
          && s.queries[q].sql == s.fetches[s.queries[q].owner].sql
          && HasLaunched(s.fetches[s.queries[q].owner].phase)
          && FailedHit(s, s.queries[q].sql, s.queries[q].failed))
    && forall q1, q2 :: 0 <= q1 < q2 < |s.queries| ==> s.queries[q1].owner != s.queries[q2].owner
  }

  ghost predicate WritesOk<V>(s: State<V>)
  {
    forall i :: 0 <= i < |s.writes| ==>
        s.writes[i].future < |s.queries| && s.queries[s.writes[i].future].sql == s.writes[i].sql
  }

  ghost predicate Invariant<V>(maxSize: nat, s: State<V>)
  {
    && Reflects(s.cache, s.counter, maxSize, s.writes)
    && WritesOk(s)
    && QueriesOk(s)
    && forall t :: 0 <= t < |s.fetches| ==> PhaseOk(s, t)
  }

  /** A cached future belongs to a query with the key's SQL. */
  lemma CachedIsQueried<V>(maxSize: nat, s: State<V>, sql: string)
    requires Reflects(s.cache, s.counter, maxSize, s.writes) && WritesOk(s) && sql in s.cache
    ensures s.cache[sql].future < |s.queries| && s.queries[s.cache[sql].future].sql == sql
  {
    UnboundedHasLastWrites(s.writes);
    var e := Unbounded(s.writes)[sql];
    assert s.writes[e.counter] == Write(sql, e.future);
  }

  /** More queries and more outcomes disturb nobody else. */
  ghost predicate Extends<V>(s: State<V>, s': State<V>)
  {
    && |s.fetches| <= |s'.fetches| && |s.queries| <= |s'.queries|
    && (forall t :: 0 <= t < |s.fetches| ==>
        s'.fetches[t].sql == s.fetches[t].sql && s'.fetches[t].conn == s.fetches[t].conn)
    && forall q :: 0 <= q < |s.queries| ==>
         && s'.queries[q].sql == s.queries[q].sql && s'.queries[q].owner == s.queries[q].owner
         && (s.queries[q].outcome.Some? ==> s'.queries[q].outcome == s.queries[q].outcome)
  }

  lemma PhaseStays<V>(s: State<V>, s': State<V>, t: nat)
    requires t < |s.fetches| && Extends(s, s') && PhaseOk(s, t) && s'.fetches[t] == s.fetches[t]
    ensures PhaseOk(s', t)
  {
  }

  lemma OthersStay<V>(s: State<V>, s': State<V>, t: nat)
    requires Extends(s, s')
    requires forall k :: 0 <= k < |s.fetches| ==> PhaseOk(s, k)
    requires forall k :: 0 <= k < |s.fetches| && k != t ==> s'.fetches[k] == s.fetches[k]
    ensures forall k :: 0 <= k < |s.fetches| && k != t ==> PhaseOk(s', k)
  {
    forall k | 0 <= k < |s.fetches| && k != t ensures PhaseOk(s', k) {
      PhaseStays(s, s', k);
    }
  }

  lemma StepKeepsInvariant<V>(maxSize: nat, s: State<V>, a: Action<V>)
    requires maxSize > 0 && Invariant(maxSize, s) && Enabled(s, a)
    ensures Invariant(maxSize, Apply(maxSize, s, a)) && Extends(s, Apply(maxSize, s, a))
  {
    match a
    case Begin(sql, conn) => BeginKeepsInvariant(maxSize, s, sql, conn);
    case Read(t) => ReadKeepsInvariant(maxSize, s, t);
    case Launch(t) => LaunchKeepsInvariant(maxSize, s, t);
    case Store(t) => StoreKeepsInvariant(maxSize, s, t);
    case Complete(q, outcome) => CompleteKeepsInvariant(maxSize, s, q, outcome);
    case Receive(t) => ReceiveKeepsInvariant(maxSize, s, t);
  }

  lemma BeginKeepsInvariant<V>(maxSize: nat, s: State<V>, sql: string, conn: nat)
    requires Invariant(maxSize, s)
    ensures Invariant(maxSize, Apply(maxSize, s, Begin(sql, conn))) && Extends(s, Apply(maxSize, s, Begin(sql, conn)))
  {
    OthersStay(s, Apply(maxSize, s, Begin(sql, conn)), |s.fetches|);
  }

  lemma {:induction false} ReadKeepsInvariant<V>(maxSize: nat, s: State<V>, t: nat)
    requires Invariant(maxSize, s) && Enabled(s, Read(t))
    ensures Invariant(maxSize, Apply(maxSize, s, Read(t))) && Extends(s, Apply(maxSize, s, Read(t)))
  {
    OthersStay(s, Apply(maxSize, s, Read(t)), t);
    if s.fetches[t].sql in s.cache {
      CachedIsQueried(maxSize, s, s.fetches[t].sql);
    }
  }

  lemma {:induction false} StoreKeepsInvariant<V>(maxSize: nat, s: State<V>, t: nat)
    requires maxSize > 0 && Invariant(maxSize, s) && Enabled(s, Store(t))
    ensures Invariant(maxSize, Apply(maxSize, s, Store(t))) && Extends(s, Apply(maxSize, s, Store(t)))
  {
    OthersStay(s, Apply(maxSize, s, Store(t)), t);
    assert PhaseOk(s, t);
    WrittenReflects(s.cache, s.counter, maxSize, s.writes, Write(s.fetches[t].sql, s.fetches[t].phase.own));
  }

  lemma CompleteKeepsInvariant<V>(maxSize: nat, s: State<V>, q: FutureId, outcome: Result<V>)
    requires Invariant(maxSize, s) && Enabled(s, Complete(q, outcome))
    ensures Invariant(maxSize, Apply(maxSize, s, Complete(q, outcome)))
         && Extends(s, Apply(maxSize, s, Complete(q, outcome)))
  {
    OthersStay(s, Apply(maxSize, s, Complete(q, outcome)), |s.fetches|);
  }

  lemma LaunchKeepsInvariant<V>(maxSize: nat, s: State<V>, t: nat)
    requires Invariant(maxSize, s) && Enabled(s, Launch(t))
    ensures Invariant(maxSize, Apply(maxSize, s, Launch(t))) && Extends(s, Apply(maxSize, s, Launch(t)))
  {
    var s' := Apply(maxSize, s, Launch(t));
    OthersStay(s, s', t);
    LaunchKeepsQueries(maxSize, s, t);
    assert WritesOk(s');
  }

  lemma LaunchKeepsQueries<V>(maxSize: nat, s: State<V>, t: nat)
    requires QueriesOk(s) && Enabled(s, Launch(t)) && PhaseOk(s, t)
    ensures QueriesOk(Apply(maxSize, s, Launch(t)))
  {
    var s' := Apply(maxSize, s, Launch(t));
    forall q | 0 <= q < |s.queries| ensures s.queries[q].owner != t && s'.queries[q] == s.queries[q] {
      assert HasLaunched(s.fetches[s.queries[q].owner].phase);
    }
    assert FailedHit(s', s.fetches[t].sql, s.fetches[t].phase.failed);
  }

  lemma {:induction false} ReceiveKeepsInvariant<V>(maxSize: nat, s: State<V>, t: nat)
    requires Invariant(maxSize, s) && Enabled(s, Receive(t))
    ensures Invariant(maxSize, Apply(maxSize, s, Receive(t))) && Extends(s, Apply(maxSize, s, Receive(t)))
  {
    var s' := Apply(maxSize, s, Receive(t));
    OthersStay(s, s', t);
    var p := s.fetches[t].phase;
    assert PhaseOk(s, t);
    var q := AwaitedBy(p);
    if s'.fetches[t].phase.Returned? {
      assert ResultOf(s', t, q, s.queries[q].outcome.value);
    }
    forall k | 0 <= k < |s.queries| && s.queries[k].owner == t ensures p.Stored? {
      assert HasLaunched(s.fetches[s.queries[k].owner].phase);
    }
  }

  /** In every state any interleaving of fetches can reach. */
  lemma {:induction false} RunKeepsInvariant<V>(maxSize: nat, s: State<V>, actions: seq<Action<V>>)
    requires maxSize > 0 && Invariant(maxSize, s) && After(maxSize, s, actions).Some?
    ensures Invariant(maxSize, After(maxSize, s, actions).value) && Extends(s, After(maxSize, s, actions).value)
    decreases |actions|
  {
    if actions != [] {
      StepKeepsInvariant(maxSize, s, actions[0]);
      RunKeepsInvariant(maxSize, Apply(maxSize, s, actions[0]), actions[1..]);
    }
  }

  lemma InitInvariant<V>(maxSize: nat)
    ensures Invariant<V>(maxSize, Init())
  {
    assert Unbounded([]) == map[];
  }

  // ------------------------------------------------------------------- the main results

  /** Whatever the interleaving: the cache holds the max_size most recently written keys, with
      distinct counters, and each under it the future of its last write. */
  lemma CacheHoldsMostRecent<V>(maxSize: nat, actions: seq<Action<V>>)
    requires After(MaxSize(maxSize), Init<V>(), actions).Some?
    ensures var s := After(MaxSize(maxSize), Init<V>(), actions).value;
            && |s.cache.Keys| <= MaxSize(maxSize)
            && DistinctCounters(s.cache)
            && MostRecent(Unbounded(s.writes), MaxSize(maxSize), s.cache.Keys)
            && (s.writes != [] ==> s.writes[|s.writes| - 1].sql in s.cache)
            && forall k :: k in s.cache ==> s.cache[k] == Unbounded(s.writes)[k]
  {
    InitInvariant<V>(MaxSize(maxSize));
    RunKeepsInvariant(MaxSize(maxSize), Init<V>(), actions);
    var s := After(MaxSize(maxSize), Init<V>(), actions).value;
    UnboundedCounters(s.writes);
    if s.writes != [] {
      NewestIsKept(MaxSize(maxSize), s.cache, s.writes);
    }
  }

  /** Whatever the interleaving: a cache with a limit has as many of the keys ever written as it
      may have; one with the limit 0 has all of them with their last writes, as long as there
      are no more than a size_t can count. */
  lemma LimitIsUsed<V>(maxSize: nat, actions: seq<Action<V>>)
    requires After(MaxSize(maxSize), Init<V>(), actions).Some?
    ensures var s := After(MaxSize(maxSize), Init<V>(), actions).value;
            var all := Unbounded(s.writes);
            && (maxSize > 0 ==> |s.cache.Keys| == Min(maxSize, |all.Keys|))
            && (maxSize == 0 && |all.Keys| <= 0xFFFF_FFFF_FFFF_FFFF ==> s.cache == all)
  {
    CacheHoldsMostRecent<V>(maxSize, actions);
    var s := After(MaxSize(maxSize), Init<V>(), actions).value;
    var all := Unbounded(s.writes);
    Cardinality(s.cache.Keys, all.Keys);
    if s.cache.Keys == all.Keys {
      assert forall k :: k in s.cache ==> k in s.cache.Keys;
      assert s.cache == all;
    }
  }

  lemma NewestIsKept(maxSize: nat, c: Entries, writes: seq<Write>)
    requires maxSize > 0 && writes != [] && MostRecent(Unbounded(writes), maxSize, c.Keys)
    ensures writes[|writes| - 1].sql in c
  {
    var u, last := Unbounded(writes), writes[|writes| - 1].sql;
    UnboundedCounters(writes);
    assert last in u.Keys && u[last].counter == |writes| - 1;
    assert |c.Keys| > 0;
    var k :| k in c.Keys;
    assert last !in c ==> last in u.Keys - c.Keys;
  }

  /** Whatever the interleaving: a fetch returns a value only of a query with its own SQL, and
      an error only of the query it ran itself. */
  lemma FetchReturnsItsQuery<V>(maxSize: nat, actions: seq<Action<V>>, t: nat)
    requires After(MaxSize(maxSize), Init<V>(), actions).Some?
    requires var s := After(MaxSize(maxSize), Init<V>(), actions).value;
             t < |s.fetches| && s.fetches[t].phase.Returned?
    ensures var s := After(MaxSize(maxSize), Init<V>(), actions).value;
            ResultOf(s, t, s.fetches[t].phase.from, s.fetches[t].phase.result)
  {
    InitInvariant<V>(MaxSize(maxSize));
    RunKeepsInvariant(MaxSize(maxSize), Init<V>(), actions);
    assert PhaseOk(After(MaxSize(maxSize), Init<V>(), actions).value, t);
  }

  /** Whatever the interleaving: no fetch runs more than one query, and one that runs a query
      although its key was in the cache found a failed query there. */
  lemma OneQueryPerFetch<V>(maxSize: nat, actions: seq<Action<V>>)
    requires After(MaxSize(maxSize), Init<V>(), actions).Some?
    ensures QueriesOk(After(MaxSize(maxSize), Init<V>(), actions).value)
  {
    InitInvariant<V>(MaxSize(maxSize));
    RunKeepsInvariant(MaxSize(maxSize), Init<V>(), actions);
  }

  function StepsLeft<V>(s: State<V>, t: nat): nat
    requires t < |s.fetches|
  {
    match s.fetches[t].phase
    case Begun => 7
    case Waiting(q) => if Ended(s, q) then 5 else 6
    case Missed(_) => 4
    case Launched(q) => if Ended(s, q) then 2 else 3
    case Stored(q) => if Ended(s, q) then 1 else 2
    case Returned(_, _) => 0
  }

  function NextAction<V>(s: State<V>, t: nat, outcome: Result<V>): (a: Action<V>)
    requires t < |s.fetches| && !s.fetches[t].phase.Returned?
  {
    match s.fetches[t].phase
    case Begun => Read(t)
    case Waiting(q) => if Ended(s, q) then Receive(t) else Complete(q, outcome)
    case Missed(_) => Launch(t)
    case Launched(q) => Store(t)
    case Stored(q) => if Ended(s, q) then Receive(t) else Complete(q, outcome)
    case Returned(_, _) => Read(t)
  }

  /** A step of fetch t, or the end of a query. */
  predicate StepFor<V(==)>(a: Action<V>, t: nat, outcome: Result<V>)
  {
    match a
    case Begin(_, _) => false
    case Complete(_, o) => o == outcome
    case _ => a.t == t
  }

  lemma {:induction false} NextActionIsEnabled<V>(maxSize: nat, s: State<V>, t: nat, outcome: Result<V>)
    requires Invariant(maxSize, s) && t < |s.fetches| && !s.fetches[t].phase.Returned?
    ensures Enabled(s, NextAction(s, t, outcome))
  {
    assert PhaseOk(s, t);
  }

  lemma {:induction false} NextActionHelps<V>(maxSize: nat, s: State<V>, t: nat, outcome: Result<V>)
    requires maxSize > 0 && Invariant(maxSize, s) && t < |s.fetches| && !s.fetches[t].phase.Returned?
    ensures var a := NextAction(s, t, outcome);
            && Enabled(s, a)
            && t < |Apply(maxSize, s, a).fetches|
            && StepsLeft(Apply(maxSize, s, a), t) < StepsLeft(s, t) && StepFor(a, t, outcome)
  {
    NextActionIsEnabled(maxSize, s, t, outcome);
  }

  lemma FirstAction<V>(maxSize: nat, s: State<V>, a: Action<V>, rest: seq<Action<V>>)
    requires maxSize > 0 && Enabled(s, a)
    ensures After(maxSize, s, [a] + rest) == After(maxSize, Apply(maxSize, s, a), rest)
  {
    assert ([a] + rest)[1..] == rest;
  }

  /** No fetch is ever stuck: its own steps and the end of the query it awaits finish it, in
      at most seven steps, also when a cached failure makes it start over. */
  lemma {:induction false} FetchCanFinish<V>(maxSize: nat, s: State<V>, t: nat, outcome: Result<V>)
    returns (actions: seq<Action<V>>)
    requires maxSize > 0 && Invariant(maxSize, s) && t < |s.fetches|
    ensures |actions| <= StepsLeft(s, t) && |actions| <= 7 && After(maxSize, s, actions).Some?
    ensures forall i :: 0 <= i < |actions| ==> StepFor(actions[i], t, outcome)
    ensures t < |After(maxSize, s, actions).value.fetches|
    ensures After(maxSize, s, actions).value.fetches[t].phase.Returned?
    decreases StepsLeft(s, t)
  {
    if s.fetches[t].phase.Returned? {
      actions := [];
    } else {
      var a := NextAction(s, t, outcome);
      NextActionHelps(maxSize, s, t, outcome);
      StepKeepsInvariant(maxSize, s, a);
      var rest := FetchCanFinish(maxSize, Apply(maxSize, s, a), t, outcome);
      FirstAction(maxSize, s, a, rest);
      actions := [a] + rest;
    }
  }

  // ------------------------------------------------------------------- which fetches run a query

  /** The fetch has started a query. */
  ghost predicate Owns<V>(s: State<V>, t: nat)
  {
    exists q :: 0 <= q < |s.queries| && s.queries[q].owner == t
  }

  /** What the fetch found when it read the cache: nothing, or a future that ended in an error. */
  ghost predicate MissOrError<V>(s: State<V>, hit: Option<FutureId>)
  {
    hit.Some? ==> hit.value < |s.queries| && s.queries[hit.value].outcome == Some(Result.Error)
  }

  /** Where a fetch can be that found `hit` in the cache. */
  ghost predicate OnPath<V>(s: State<V>, t: nat, hit: Option<FutureId>)
    requires t < |s.fetches|
  {
    match s.fetches[t].phase
    case Begun => false
    case Waiting(q) => hit == Some(q) && !Owns(s, t)
    case Missed(failed) => failed == hit && MissOrError(s, hit) && !Owns(s, t)
    case Launched(_) => MissOrError(s, hit) && Owns(s, t)
    case Stored(_) => MissOrError(s, hit) && Owns(s, t)
    case Returned(_, _) => (Owns(s, t) <==> MissOrError(s, hit)) && (hit.Some? ==> Ended(s, hit.value))
  }

  lemma OwnsStays<V>(maxSize: nat, s: State<V>, a: Action<V>, t: nat)
    requires Enabled(s, a) && a != Launch(t) && Extends(s, Apply(maxSize, s, a))
    ensures Owns(Apply(maxSize, s, a), t) <==> Owns(s, t)
  {
    var s' := Apply(maxSize, s, a);
    if Owns(s, t) {
      var q :| 0 <= q < |s.queries| && s.queries[q].owner == t;
      assert s'.queries[q].owner == t;
    }
    if Owns(s', t) {
      var q :| 0 <= q < |s'.queries| && s'.queries[q].owner == t;
      assert q < |s.queries| && s.queries[q].owner == t;
    }
  }

  lemma {:induction false} StepStaysOnPath<V>(maxSize: nat, s: State<V>, a: Action<V>, t: nat, hit: Option<FutureId>)
    requires maxSize > 0 && Invariant(maxSize, s) && Enabled(s, a)
    requires t < |s.fetches| && OnPath(s, t, hit)
    ensures t < |Apply(maxSize, s, a).fetches| && OnPath(Apply(maxSize, s, a), t, hit)
  {
    StepKeepsInvariant(maxSize, s, a);
    var s' := Apply(maxSize, s, a);
    if a == Launch(t) {
      assert s'.queries[|s.queries|].owner == t;
    } else {
      OwnsStays(maxSize, s, a, t);
      if a != Receive(t) && a != Store(t) {
        assert s'.fetches[t] == s.fetches[t];
      }
    }
  }

  lemma {:induction false} RunStaysOnPath<V>(
      maxSize: nat, s: State<V>, actions: seq<Action<V>>, t: nat, hit: Option<FutureId>)
    requires maxSize > 0 && Invariant(maxSize, s) && After(maxSize, s, actions).Some?
    requires t < |s.fetches| && OnPath(s, t, hit)
    ensures var s' := After(maxSize, s, actions).value; t < |s'.fetches| && OnPath(s', t, hit)
    decreases |actions|
  {
    if actions != [] {
      StepKeepsInvariant(maxSize, s, actions[0]);
      StepStaysOnPath(maxSize, s, actions[0], t, hit);
      RunStaysOnPath(maxSize, Apply(maxSize, s, actions[0]), actions[1..], t, hit);
    }
  }

  lemma ReadGoesOnPath<V>(maxSize: nat, s: State<V>, t: nat)
    requires Invariant(maxSize, s) && Enabled(s, Read(t))
    ensures var sql := s.fetches[t].sql;
            OnPath(Apply(maxSize, s, Read(t)), t, if sql in s.cache then Some(s.cache[sql].future) else None)
  {
    forall q | 0 <= q < |s.queries| ensures s.queries[q].owner != t {
      assert HasLaunched(s.fetches[s.queries[q].owner].phase);
    }
  }

  /** From a reachable state a fetch reads the cache; then anything may happen until it has
      returned. It has run a query if and only if its key was not in the cache, or the future
      found there ended in an error. */
  lemma RunsQueryExactlyIf<V>(maxSize: nat, s: State<V>, t: nat, rest: seq<Action<V>>)
    requires maxSize > 0 && Invariant(maxSize, s) && Enabled(s, Read(t))
    requires After(maxSize, Apply(maxSize, s, Read(t)), rest).Some?
    requires var s' := After(maxSize, Apply(maxSize, s, Read(t)), rest).value;
             t < |s'.fetches| && s'.fetches[t].phase.Returned?
    ensures var s', sql := After(maxSize, Apply(maxSize, s, Read(t)), rest).value, s.fetches[t].sql;
            && (sql in s.cache ==> s.cache[sql].future < |s'.queries|)
            && (Owns(s', t) <==> sql !in s.cache || s'.queries[s.cache[sql].future].outcome == Some(Result.Error))
  {
    var sql := s.fetches[t].sql;
    var hit := if sql in s.cache then Some(s.cache[sql].future) else None;
    ReadGoesOnPath(maxSize, s, t);
    StepKeepsInvariant(maxSize, s, Read(t));
    RunStaysOnPath(maxSize, Apply(maxSize, s, Read(t)), rest, t, hit);
  }

  /** The connection a query runs on. */
  function ConnOf<V>(s: State<V>, q: FutureId): nat
    requires q < |s.queries| && s.queries[q].owner < |s.fetches|
  {
    s.fetches[s.queries[q].owner].conn
  }

  /** What a fetch that found `hit` waits for, or has waited for. */
  ghost predicate WaitsFor<V>(s: State<V>, t: nat, hit: Option<FutureId>)
    requires t < |s.fetches|
  {
    match s.fetches[t].phase
    case Begun => false
    case Waiting(q) => hit == Some(q)
    case Returned(_, from) => from < |s.queries| && (s.queries[from].owner == t || hit == Some(from))
    case _ => true
  }

  lemma {:induction false} StepWaitsFor<V>(maxSize: nat, s: State<V>, a: Action<V>, t: nat, hit: Option<FutureId>)
    requires Enabled(s, a) && Extends(s, Apply(maxSize, s, a))
    requires t < |s.fetches| && PhaseOk(s, t) && WaitsFor(s, t, hit)
    ensures t < |Apply(maxSize, s, a).fetches| && WaitsFor(Apply(maxSize, s, a), t, hit)
  {
    if a != Launch(t) && a != Receive(t) && a != Store(t) {
      assert Apply(maxSize, s, a).fetches[t] == s.fetches[t];
    }
  }

  lemma {:induction false} RunWaitsFor<V>(
      maxSize: nat, s: State<V>, actions: seq<Action<V>>, t: nat, hit: Option<FutureId>)
    requires maxSize > 0 && Invariant(maxSize, s) && After(maxSize, s, actions).Some?
    requires t < |s.fetches| && WaitsFor(s, t, hit)
    ensures var s' := After(maxSize, s, actions).value; t < |s'.fetches| && WaitsFor(s', t, hit)
    decreases |actions|
  {
    if actions != [] {
      StepKeepsInvariant(maxSize, s, actions[0]);
      StepWaitsFor(maxSize, s, actions[0], t, hit);
      RunWaitsFor(maxSize, Apply(maxSize, s, actions[0]), actions[1..], t, hit);
    }
  }

  /** A fetch that has returned got its result from its own query if it ran one, and else from
      the future it found. */
  lemma ResultComesFrom<V>(maxSize: nat, s: State<V>, t: nat, hit: Option<FutureId>)
    requires Invariant(maxSize, s) && t < |s.fetches| && s.fetches[t].phase.Returned?
    requires WaitsFor(s, t, hit) && (Owns(s, t) <==> MissOrError(s, hit))
    ensures var from := s.fetches[t].phase.from;
            from < |s.queries| && if MissOrError(s, hit) then s.queries[from].owner == t else hit == Some(from)
  {
    assert PhaseOk(s, t);
  }

  /** The key is the SQL alone, and all connections of a type share the cache. So the result a
      fetch returns comes from its own connection if and only if it ran the query itself, that is
      as in RunsQueryExactlyIf, or the future it found was that of a query on its connection. */
  lemma ResultIsOwnExactlyIf<V>(maxSize: nat, s: State<V>, t: nat, rest: seq<Action<V>>)
    requires maxSize > 0 && Invariant(maxSize, s) && Enabled(s, Read(t))
    requires After(maxSize, Apply(maxSize, s, Read(t)), rest).Some?
    requires var s' := After(maxSize, Apply(maxSize, s, Read(t)), rest).value;
             t < |s'.fetches| && s'.fetches[t].phase.Returned?
    ensures var s', sql := After(maxSize, Apply(maxSize, s, Read(t)), rest).value, s.fetches[t].sql;
            var from := s'.fetches[t].phase.from;
            && from < |s'.queries| && s'.queries[from].owner < |s'.fetches|
            && (sql in s.cache ==>
                s.cache[sql].future < |s.queries| && s.queries[s.cache[sql].future].owner < |s.fetches|)
            && |s.queries| <= |s'.queries|
            && (ConnOf(s', from) == s.fetches[t].conn <==>
                || sql !in s.cache
                || s'.queries[s.cache[sql].future].outcome == Some(Result.Error)
                || ConnOf(s, s.cache[sql].future) == s.fetches[t].conn)
  {
    var sql := s.fetches[t].sql;
    var hit := if sql in s.cache then Some(s.cache[sql].future) else None;
    var s1, s' := Apply(maxSize, s, Read(t)), After(maxSize, Apply(maxSize, s, Read(t)), rest).value;
    RunsQueryExactlyIf(maxSize, s, t, rest);
    StepKeepsInvariant(maxSize, s, Read(t));
    RunWaitsFor(maxSize, s1, rest, t, hit);
    RunKeepsInvariant(maxSize, s1, rest);
    ResultComesFrom(maxSize, s', t, hit);
    if sql in s.cache {
      CachedIsQueried(maxSize, s, sql);
    }
  }

  // ------------------------------------------------------------------- any writes can happen

  /** In every reachable state the list of the writes orders the cache by its counters. */
  lemma CacheIsListed<V>(maxSize: nat, actions: seq<Action<V>>)
    requires After(MaxSize(maxSize), Init<V>(), actions).Some?
    ensures var s := After(MaxSize(maxSize), Init<V>(), actions).value;
            Lists(s.cache, CodeOrder(s.writes, MaxSize(maxSize)))
  {
    InitInvariant<V>(MaxSize(maxSize));
    RunKeepsInvariant(MaxSize(maxSize), Init<V>(), actions);
    var s := After(MaxSize(maxSize), Init<V>(), actions).value;
    CodeOrderListsCache(s.cache, s.counter, MaxSize(maxSize), s.writes);
  }

  lemma {:induction false} AfterBoth<V>(maxSize: nat, s: State<V>, first: seq<Action<V>>, rest: seq<Action<V>>)
    requires After(maxSize, s, first).Some?
    ensures After(maxSize, s, first + rest) == After(maxSize, After(maxSize, s, first).value, rest)
    decreases |first|
  {
    if first == [] {
      assert first + rest == rest;
    } else {
      AfterBoth(maxSize, Apply(maxSize, s, first[0]), first[1..], rest);
      assert (first + rest)[1..] == first[1..] + rest;
    }
  }

  lemma AfterTwo<V>(maxSize: nat, s: State<V>, a1: Action<V>, a2: Action<V>)
    requires Enabled(s, a1) && Enabled(Apply(maxSize, s, a1), a2)
    ensures After(maxSize, s, [a1, a2]) == Some(Apply(maxSize, Apply(maxSize, s, a1), a2))
  {
    assert [a1, a2][1..] == [a2] && [a2][1..] == [];
    assert After(maxSize, Apply(maxSize, s, a1), [a2]) == Some(Apply(maxSize, Apply(maxSize, s, a1), a2));
  }

  /** No query ends. */
  predicate NoneCompletes<V>(actions: seq<Action<V>>)
  {
    forall i :: 0 <= i < |actions| ==> !actions[i].Complete?
  }

  /** Fetches for the given keys, the first `stored` of which have written. */
  ghost predicate Writing<V>(s: State<V>, sqls: seq<string>, stored: nat)
  {
    && |s.fetches| == |sqls| && stored == |s.writes| <= |sqls|
    && (stored == 0 ==> s.cache == map[])
    && (forall t :: 0 <= t < |sqls| ==> s.fetches[t].sql == sqls[t])
    && (forall t :: stored <= t < |sqls| ==> s.fetches[t].phase == Missed(None))
    && forall i :: 0 <= i < stored ==> s.writes[i].sql == sqls[i]
  }

  /** All fetches look into the still empty cache. */
  lemma {:induction false} AllMiss<V>(maxSize: nat, sqls: seq<string>) returns (actions: seq<Action<V>>, s: State<V>)
    ensures NoneCompletes(actions) && After(maxSize, Init<V>(), actions) == Some(s) && Writing(s, sqls, 0)
    decreases |sqls|
  {
    if sqls == [] {
      actions, s := [], Init<V>();
    } else {
      var n := |sqls| - 1;
      var before, s0 := AllMiss<V>(maxSize, sqls[..n]);
      var more := [Begin(sqls[n], 0), Read(n)];
      AfterTwo(maxSize, s0, Begin(sqls[n], 0), Read(n));
      AfterBoth(maxSize, Init<V>(), before, more);
      actions, s := before + more, Apply(maxSize, Apply(maxSize, s0, Begin(sqls[n], 0)), Read(n));
      assert forall t :: 0 <= t < n ==> s.fetches[t] == s0.fetches[t] && sqls[..n][t] == sqls[t];
    }
  }

  lemma {:induction false} TheyWrite<V>(maxSize: nat, sqls: seq<string>, n: nat)
    returns (actions: seq<Action<V>>, s: State<V>)
    requires n <= |sqls|
    ensures NoneCompletes(actions) && After(maxSize, Init<V>(), actions) == Some(s) && Writing(s, sqls, n)
    decreases n
  {
    if n == 0 {
      actions, s := AllMiss<V>(maxSize, sqls);
    } else {
      var t := n - 1;
      var before, s0 := TheyWrite<V>(maxSize, sqls, t);
      var more := [Launch(t), Store(t)];
      AfterTwo(maxSize, s0, Launch(t), Store(t));
      AfterBoth(maxSize, Init<V>(), before, more);
      actions, s := before + more, Apply(maxSize, Apply(maxSize, s0, Launch(t)), Store(t));
    }
  }

  /** Keys can be written in any order and any number of times with no query failing, or even
      ending: it is enough that the fetches read before the first of them writes. */
  lemma AnyWritesHappen<V>(maxSize: nat, sqls: seq<string>) returns (actions: seq<Action<V>>)
    ensures NoneCompletes(actions) && After(maxSize, Init<V>(), actions).Some?
    ensures var s := After(maxSize, Init<V>(), actions).value;
            |s.writes| == |sqls| && forall i :: 0 <= i < |sqls| ==> s.writes[i].sql == sqls[i]
  {
    var s;
    actions, s := TheyWrite<V>(maxSize, sqls, |sqls|);
  }

  lemma OrdersOfFour(a: string, b: string, c: string, writes: seq<Write>)
    requires a != b && b != c && a != c && |writes| == 4
    requires writes[0].sql == a && writes[1].sql == b && writes[2].sql == a && writes[3].sql == c
    ensures CodeOrder(writes, 2) == [a, c] && FifoOrder(writes, 2) == [b, c]
  {
    OrdersSnoc(writes, 2, 0);
    OrdersSnoc(writes, 2, 1);
    OrdersSnoc(writes, 2, 2);
    OrdersSnoc(writes, 2, 3);
    assert writes[..4] == writes;
    StepsOfFour(a, b, c);
  }

  lemma StepOnTwo(x: string, y: string, z: string)
    requires x != y && y != z && x != z
    ensures CodeStep([x, y], 2, x) == [y, x] && CodeStep([x, y], 2, z) == [y, z]
    ensures FifoStep([x, y], 2, x) == [x, y] && FifoStep([x, y], 2, z) == [y, z]
  {
    assert [x, y][1..] == [y] && [y][1..] == [] && [x, y, z][1..] == [y, z];
    RemoveAbsent([y], x);
    RemoveAbsent([x, y], z);
    assert [x, y] + [z] == [x, y, z];
    assert Remove([x, y], x) == [y];
  }

  lemma StepsOfFour(a: string, b: string, c: string)
    requires a != b && b != c && a != c
    ensures CodeStep(CodeStep(CodeStep(CodeStep([], 2, a), 2, b), 2, a), 2, c) == [a, c]
    ensures FifoStep(FifoStep(FifoStep(FifoStep([], 2, a), 2, b), 2, a), 2, c) == [b, c]
  {
    RemoveAbsent([a], b);
    assert CodeStep([], 2, a) == [a] == FifoStep([], 2, a);
    assert CodeStep([a], 2, b) == [a, b] == FifoStep([a], 2, b);
    StepOnTwo(a, b, c);
    StepOnTwo(b, a, c);
  }

  /** docs/cache.md promises first in, first out. Here two fetches of `a` miss before either
      writes; the second write moves `a` behind `b`, and `b` is evicted although `a` came first.
      No query has even ended. */
  lemma FifoBreaksWithoutFailure<V>(a: string, b: string, c: string) returns (actions: seq<Action<V>>)
    requires a != b && b != c && a != c
    ensures NoneCompletes(actions) && After(MaxSize(2), Init<V>(), actions).Some?
    ensures var s := After(MaxSize(2), Init<V>(), actions).value;
            && a in s.cache && c in s.cache && b !in s.cache
            && FifoOrder(s.writes, 2) == [b, c]
  {
    actions := AnyWritesHappen<V>(MaxSize(2), [a, b, a, c]);
    var s := After(MaxSize(2), Init<V>(), actions).value;
    OrdersOfFour(a, b, c, s.writes);
    CacheIsListed(2, actions);
    assert [a, c][0] == a && [a, c][1] == c;
  }

  // ------------------------------------------------------------------- cached failures

  /** A run and one more step. */
  lemma OneMoreStep<V>(maxSize: nat, before: seq<Action<V>>, s: State<V>, a: Action<V>, s': State<V>)
    requires After(maxSize, Init<V>(), before) == Some(s) && Enabled(s, a) && Apply(maxSize, s, a) == s'
    ensures After(maxSize, Init<V>(), before + [a]) == Some(s')
  {
    AfterBoth(maxSize, Init<V>(), before, [a]);
    assert [a][1..] == [];
    assert After(maxSize, s, [a]) == Some(s');
  }

  /** docs/cache.md says that once a query's future is in the cache no other request starts it
      again. That fails for a query that failed, and by RunsQueryExactlyIf for no other: here the
      key is in the cache from the first fetch on, and the second fetch starts the query again. */
  lemma CachedFailureRunsAgain<V>(sql: string) returns (actions: seq<Action<V>>)
    ensures After(MaxSize(0), Init<V>(), actions).Some?
    ensures var s := After(MaxSize(0), Init<V>(), actions).value;
            && sql in s.cache && s.cache[sql].future == 0
            && |s.queries| == 2 && s.queries[1].sql == sql && s.queries[1].failed == Some(0)
  {
    var before, s := FirstFetchStores<V>(sql);
    actions := SecondFetchRuns(sql, before, s);
  }

  /** The state with the one key in the cache; each fetch has a connection of its own. */
  function WithKey<V>(sql: string, phases: seq<Phase<V>>, queries: seq<Query<V>>): State<V>
  {
    State(seq(|phases|, i requires 0 <= i < |phases| => Fetch(sql, i, phases[i])),
          queries, map[sql := Entry(0, 0)], 1, [Write(sql, 0)])
  }

  lemma FirstFetchStores<V>(sql: string) returns (actions: seq<Action<V>>, s: State<V>)
    ensures s == WithKey<V>(sql, [Stored(0)], [Query(sql, 0, None, None)])
    ensures After(MaxSize(0), Init<V>(), actions) == Some(s)
  {
    var max := MaxSize(0);
    var q: Query<V> := Query(sql, 0, None, None);
    var s1: State<V> := State([Fetch(sql, 0, Begun)], [], map[], 0, []);
    var s2: State<V> := State([Fetch(sql, 0, Missed(None))], [], map[], 0, []);
    var s3: State<V> := State([Fetch(sql, 0, Launched(0))], [q], map[], 0, []);
    OneMoreStep(max, [], Init<V>(), Begin(sql, 0), s1);
    OneMoreStep(max, [] + [Begin(sql, 0)], s1, Read(0), s2);
    OneMoreStep(max, [] + [Begin(sql, 0)] + [Read(0)], s2, Launch(0), s3);
    var one: Entries := map[][sql := Entry(0, 0)];
    assert one.Keys == {sql};
    assert Written(map[], 0, max, sql, 0) == one;
    s := WithKey(sql, [Stored(0)], [q]);
    OneMoreStep(max, [] + [Begin(sql, 0)] + [Read(0)] + [Launch(0)], s3, Store(0), s);
    actions := [] + [Begin(sql, 0)] + [Read(0)] + [Launch(0)] + [Store(0)];
  }

  lemma SecondFetchRuns<V>(sql: string, before: seq<Action<V>>, s4: State<V>) returns (actions: seq<Action<V>>)
    requires s4 == WithKey<V>(sql, [Stored(0)], [Query(sql, 0, None, None)])
    requires After(MaxSize(0), Init<V>(), before) == Some(s4)
    ensures After(MaxSize(0), Init<V>(), actions)
         == Some(WithKey<V>(sql, [Stored(0), Launched(1)],
             [Query(sql, 0, None, Some(Result.Error)), Query(sql, 1, Some(0), None)]))
  {
    var max := MaxSize(0);
    var q: Query<V> := Query(sql, 0, None, Some(Result.Error));
    var s5 := WithKey(sql, [Stored(0)], [q]);
    var s6 := WithKey(sql, [Stored(0), Begun], [q]);
    var s7 := WithKey(sql, [Stored(0), Waiting(0)], [q]);
    var s8 := WithKey(sql, [Stored(0), Missed(Some(0))], [q]);
    var s9 := WithKey(sql, [Stored(0), Launched(1)], [q, Query(sql, 1, Some(0), None)]);
    OneMoreStep(max, before, s4, Complete(0, Result.Error), s5);
    OneMoreStep(max, before + [Complete(0, Result.Error)], s5, Begin(sql, 1), s6);
    OneMoreStep(max, before + [Complete(0, Result.Error)] + [Begin(sql, 1)], s6, Read(1), s7);
    OneMoreStep(max, before + [Complete(0, Result.Error)] + [Begin(sql, 1)] + [Read(1)], s7, Receive(1), s8);
    OneMoreStep(max, before + [Complete(0, Result.Error)] + [Begin(sql, 1)] + [Read(1)] + [Receive(1)],
                s8, Launch(1), s9);
    actions := before + [Complete(0, Result.Error)] + [Begin(sql, 1)] + [Read(1)] + [Receive(1)] + [Launch(1)];
  }

  /** The second of two fetches of a key, through connection 1, returns what the first has read
      through connection 0. */
  lemma OtherConnectionsResult<V>(sql: string, v: V) returns (actions: seq<Action<V>>)
    ensures After(MaxSize(0), Init<V>(), actions).Some?
    ensures var s := After(MaxSize(0), Init<V>(), actions).value;
            && |s.fetches| == 2 && s.fetches[1].conn == 1 && s.fetches[1].phase == Returned(Ok(v), 0)
            && |s.queries| == 1 && s.queries[0].owner == 0 && ConnOf(s, 0) == 0
  {
    var max := MaxSize(0);
    var before, s4 := FirstFetchStores<V>(sql);
    var q: Query<V> := Query(sql, 0, None, Some(Ok(v)));
    var s5 := WithKey(sql, [Stored(0)], [q]);
    var s6 := WithKey(sql, [Stored(0), Begun], [q]);
    var s7 := WithKey(sql, [Stored(0), Waiting(0)], [q]);
    var s8 := WithKey(sql, [Stored(0), Returned(Ok(v), 0)], [q]);
    OneMoreStep(max, before, s4, Complete(0, Ok(v)), s5);
    OneMoreStep(max, before + [Complete(0, Ok(v))], s5, Begin(sql, 1), s6);
    OneMoreStep(max, before + [Complete(0, Ok(v))] + [Begin(sql, 1)], s6, Read(1), s7);
    OneMoreStep(max, before + [Complete(0, Ok(v))] + [Begin(sql, 1)] + [Read(1)], s7, Receive(1), s8);
    actions := before + [Complete(0, Ok(v))] + [Begin(sql, 1)] + [Read(1)] + [Receive(1)];
  }
}
