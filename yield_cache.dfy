/**
 * The keyed time-to-live cache behind the yield history endpoints
 * (`cache` and `getFromCache` in src/api/controllers/yield.js).
 *
 * A module-level table maps `prefix + "/" + configID` to the last successfully
 * produced data and the time it was stored. A lookup serves the stored data
 * while it is at most two hours old; otherwise it runs the producer, stores a
 * truthy result with the current time, and hands a falsy one back untouched.
 */
module YieldCache {
  import opened Wrappers

  /** Two hours in milliseconds, written as in the source. */
  const StaleAfterMs: int := 2 * 60 * 60 * 1000

  /** One slot of the table: when it was stored and what was stored. */
  datatype Entry<V> = Entry(lastUpdate: int, data: V)

  type Table<V> = map<string, Entry<V>>

  /** The composite key of a resource kind and a pool identifier. */
  function CacheKey(prefix: string, configID: string): (key: string)
  {
    prefix + "/" + configID
  }

  /**
   * The strict staleness test: an entry is stale only once it is MORE than
   * two hours old, so an entry exactly two hours old is still served.
   */
  predicate Stale<V>(e: Entry<V>, now: int)
  {
    e.lastUpdate < now - StaleAfterMs
  }

  /** The producer must run: nothing is stored for `key`, or it is stale. */
  predicate NeedsRefresh<V>(table: Table<V>, key: string, now: int)
  {
    key !in table || Stale(table[key], now)
  }

  /** What one lookup returns, the table after it, and whether it ran the producer. */
  datatype Outcome<V> = Outcome(result: Option<V>, table: Table<V>, invoked: bool)

  /**
   * One lookup on `table`. `checkTime` is the clock read by the staleness
   * test, `storeTime` the clock read when a fresh result is stored.
   */
  function Lookup<V>(table: Table<V>, prefix: string, configID: string,
                     checkTime: int, storeTime: int, generate: () -> Option<V>): (o: Outcome<V>)
    // the producer runs exactly when the slot is missing or stale
    ensures o.invoked <==> NeedsRefresh(table, CacheKey(prefix, configID), checkTime)
    // key isolation: every other slot keeps its presence and contents
    ensures forall k :: k != CacheKey(prefix, configID) ==>
              (k in o.table <==> k in table) && (k in table ==> o.table[k] == table[k])
    // slots are created or overwritten, never removed
    ensures table.Keys <= o.table.Keys
    // the table changes only by storing a truthy producer result of this call, stamped storeTime
    ensures o.table != table ==>
              o.invoked && generate().Some? &&
              o.table == table[CacheKey(prefix, configID) := Entry(storeTime, generate().value)]
    // a returned value is this call's producer output or data that was fresh when checked
    ensures o.result.Some? ==>
              (o.invoked && o.result == generate()) ||
              (!o.invoked && CacheKey(prefix, configID) in table &&
               !Stale(table[CacheKey(prefix, configID)], checkTime) &&
               o.result == Some(table[CacheKey(prefix, configID)].data))
  {
    var key := CacheKey(prefix, configID);
    if NeedsRefresh(table, key, checkTime) then
      match generate()
      case None => Outcome(None, table, true)
      case Some(d) => Outcome(Some(d), table[key := Entry(storeTime, d)], true)
    else
      Outcome(Some(table[key].data), table, false)
  }

  /** A fresh slot is served as is: no producer call, no change to the table. */
  lemma FreshHit<V>(table: Table<V>, prefix: string, configID: string,
                    checkTime: int, storeTime: int, generate: () -> Option<V>)
    requires CacheKey(prefix, configID) in table
    requires table[CacheKey(prefix, configID)].lastUpdate >= checkTime - StaleAfterMs
    ensures var o := Lookup(table, prefix, configID, checkTime, storeTime, generate);
            !o.invoked && o.table == table &&
            o.result == Some(table[CacheKey(prefix, configID)].data)
  {
  }

  /** A missing or stale slot makes the lookup run the producer. */
  lemma MissOrStaleRuns<V>(table: Table<V>, prefix: string, configID: string,
                           checkTime: int, storeTime: int, generate: () -> Option<V>)
    requires CacheKey(prefix, configID) !in table ||
             table[CacheKey(prefix, configID)].lastUpdate < checkTime - StaleAfterMs
    ensures Lookup(table, prefix, configID, checkTime, storeTime, generate).invoked
  {
  }

  /** A falsy producer result is returned and the table is left exactly as it was. */
  lemma FailSoft<V>(table: Table<V>, prefix: string, configID: string,
                    checkTime: int, storeTime: int, generate: () -> Option<V>)
    requires NeedsRefresh(table, CacheKey(prefix, configID), checkTime)
    requires generate() == None
    ensures var o := Lookup(table, prefix, configID, checkTime, storeTime, generate);
            o.result == None && o.table == table
  {
  }

  /** A truthy producer result is stored with the store-time clock and returned. */
  lemma StoreOnSuccess<V>(table: Table<V>, prefix: string, configID: string,
                          checkTime: int, storeTime: int, generate: () -> Option<V>, d: V)
    requires NeedsRefresh(table, CacheKey(prefix, configID), checkTime)
    requires generate() == Some(d)
    ensures var o := Lookup(table, prefix, configID, checkTime, storeTime, generate);
            o.result == Some(d) && CacheKey(prefix, configID) in o.table &&
            o.table[CacheKey(prefix, configID)] == Entry(storeTime, d)
  {
  }

  /** The boundary of the strict test: exactly two hours old is fresh, one millisecond more is stale. */
  lemma StaleBoundary<V>(d: V, now: int)
    ensures !Stale(Entry(now - StaleAfterMs, d), now)
    ensures Stale(Entry(now - StaleAfterMs - 1, d), now)
  {
  }

  /**
   * Staleness only moves forward with the clock: a stale entry stays stale at
   * every later reading, and an entry fresh now was fresh at every earlier
   * reading since it was stamped.
   */
  lemma StaleMonotone<V>(e: Entry<V>, t: int, t2: int)
    ensures Stale(e, t) && t <= t2 ==> Stale(e, t2)
    ensures e.lastUpdate <= t2 <= t && !Stale(e, t) ==> !Stale(e, t2)
  {
  }

  /**
   * With a prefix free of '/', as all the endpoint prefixes are, distinct
   * (prefix, configID) pairs never share a slot.
   */
  lemma CacheKeyInjective(p1: string, c1: string, p2: string, c2: string)
    requires '/' !in p1 && '/' !in p2
    ensures CacheKey(p1, c1) == CacheKey(p2, c2) <==> p1 == p2 && c1 == c2
  {
    if CacheKey(p1, c1) == CacheKey(p2, c2) {
      var k := CacheKey(p1, c1);
      // the first '/' of the key ends the prefix on both sides
      assert k[|p1|] == '/' && k[|p2|] == '/';
      assert p1 == k[..|p1|] && p2 == k[..|p2|];
      assert c1 == k[|p1| + 1..] && c2 == k[|p2| + 1..];
    }
  }

  /** Without that restriction two different pairs can meet in one slot. */
  lemma SlashInPrefixCollides()
    ensures CacheKey("a/b", "c") == CacheKey("a", "b/c")
  {
  }

  /** The process-wide table with the lookup that reads and overwrites it in place. */
  class Cache<V> {
    var entries: Table<V>
    /** How many times a lookup has run a producer. */
    ghost var producerCalls: nat

    /** The table starts empty when the module is loaded. */
    constructor ()
      ensures entries == map[] && producerCalls == 0
    {
      entries := map[];
      producerCalls := 0;
    }

    /**
     * `getFromCache(prefix, configID, generate)`. The result, the new table and
     * whether a producer call happened are those of `Lookup`; the producer runs
     * at most once per call.
     */
    method Get(prefix: string, configID: string, checkTime: int, storeTime: int,
               generate: () -> Option<V>) returns (r: Option<V>)
      modifies this
      ensures var o := Lookup(old(entries), prefix, configID, checkTime, storeTime, generate);
              r == o.result && entries == o.table &&
              producerCalls == old(producerCalls) + (if o.invoked then 1 else 0)
    {
      var cacheKey := CacheKey(prefix, configID);
      if cacheKey !in entries || entries[cacheKey].lastUpdate < checkTime - StaleAfterMs {
        var data := generate();
        producerCalls := producerCalls + 1;
        if data.None? {
          return data;
        }
        entries := entries[cacheKey := Entry(storeTime, data.value)];
      }
      r := Some(entries[cacheKey].data);
    }
  }
}
