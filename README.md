# Yield history cache

This project models the keyed time-to-live cache of the yield-server API:
the module-level `cache` object and `getFromCache(prefix, configID, generate)`
in `src/api/controllers/yield.js`. The three yield history endpoints put their
database queries behind this cache. Each pool's data is materialised on demand
under the key `prefix + "/" + configID`. It is served from the cache while it is
at most two hours old. When the slot is missing or stale, the producer
`generate` runs. A falsy result is handed back without touching the cache. Any
other result is stored with the current time and returned.

Modules:

- `Wrappers` (`wrappers.dfy`): `Option`. `None` stands for any JavaScript falsy value.
- `YieldCache` (`yield_cache.dfy`): the key, the strict two-hour staleness test
  (`StaleAfterMs = 2 * 60 * 60 * 1000`), `Lookup` (one call as a function of the
  old table), the per-call lemmas, and the class `Cache`. `Cache` holds the
  table as a mutable `map` field. Its method `Get` reads and overwrites that
  field as `getFromCache` does, and it is proved to agree with `Lookup`. A ghost
  counter `producerCalls` records how often a producer ran.
- `CacheHistory` (`cache_history.dfy`): a sequence of calls made one after
  another (`Replay`). The lemmas here are proved by induction over that sequence.

The clock `Date.now()` is read twice: in the staleness test and when an entry
is stored. Each `Lookup`/`Get` call therefore takes two integers, `checkTime`
and `storeTime`. The producer is a parameter of type `() -> Option<V>`.

The code tests `lastUpdate < now - 7200000`, so an entry exactly two hours old
is still served (`StaleBoundary`).

## Model

| member | source | states |
|---|---|---|
| `YieldCache.StaleMonotone` | src/api/controllers/yield.js:12 | staleness moves forward with the clock: a stale entry stays stale at every later reading, and one fresh now was fresh at every earlier reading since its stamp |
| `YieldCache.StaleBoundary` | src/api/controllers/yield.js:12 | an entry exactly two hours old is fresh; one a millisecond older is stale |
| `YieldCache.CacheKeyInjective` | src/api/controllers/yield.js:11 | when no prefix contains '/', two (prefix, configID) pairs share a key exactly when they are equal |
| `YieldCache.SlashInPrefixCollides` | src/api/controllers/yield.js:11 | without that condition two different pairs can meet in one slot ("a/b","c" and "a","b/c") |
| `YieldCache.Lookup` | src/api/controllers/yield.js:10-23 | the producer runs iff the slot is missing or stale; every other key keeps its presence and entry; no key is removed; the table changes only by storing this call's truthy producer result stamped with the store time; a returned value is this call's producer output or data that was fresh at check time |
| `YieldCache.FreshHit` | src/api/controllers/yield.js:12-22 | a slot with `lastUpdate >= now - 7200000` is returned as stored, without a producer call, and the table is unchanged |
| `YieldCache.MissOrStaleRuns` | src/api/controllers/yield.js:12-13 | a missing slot, or one with `lastUpdate < now - 7200000`, makes the call run the producer |
| `YieldCache.FailSoft` | src/api/controllers/yield.js:13-16 | a falsy producer result is returned and the table stays exactly as before, stale entry included |
| `YieldCache.StoreOnSuccess` | src/api/controllers/yield.js:17-22 | a truthy result `d` is returned and the slot becomes `Entry(storeTime, d)` |
| `YieldCache.Cache.constructor` | src/api/controllers/yield.js:8 | the table starts empty and no producer has run |
| `YieldCache.Cache.Get` | src/api/controllers/yield.js:10-23 | the returned value and the new table are those of `Lookup` on the old table; the producer counter rises by one exactly when `Lookup` runs the producer, else it stays the same |
| `CacheHistory.StepMonotone` | src/api/controllers/yield.js:12-20 | one call whose store reading is not more than two hours before its check reading keeps every slot and never lowers a stamp |
| `CacheHistory.ReplayMonotone` | src/api/controllers/yield.js:12-20 | over any sequence of such calls, in any clock order between calls, no slot is deleted and no `lastUpdate` decreases |
| `CacheHistory.ReplayIsolation` | src/api/controllers/yield.js:11-20 | over any sequence of calls none of which targets key `k`, slot `k` keeps its presence and its entry |
| `CacheHistory.ReplayProvenance` | src/api/controllers/yield.js:12-20 | after any sequence of calls, every slot is either untouched from the start or holds a truthy result that one of the calls produced after finding the slot missing or stale, stamped with that call's store time |
| `CacheHistory.FailureIsRetried` | src/api/controllers/yield.js:12-16 | after a falsy producer result the slot still needs a refresh at every later time, so the next call runs its producer again |

## Left out

- The HTTP handlers `getYieldHistory`, `getYieldHistoryHourly` and `getYieldLendBorrowHistory` (src/api/controllers/yield.js:25-167) are request and response plumbing: status codes, JSON bodies and the 404 `AppError`.
- UUID validation by the `validator` library is a foreign call. The model takes `configID` as any string.
- SQL text, `pg-minify` and `conn.query` are database I/O. The producer is an opaque function value of type `() -> Option<V>`.
- The response header helpers `customHeader` and `customHeaderFixedCache` are not part of this model.
- `Date.now()` is not modelled. The two clock readings are the parameters `checkTime` and `storeTime`. The monotonicity lemmas require only that, within one call, the store reading is not more than two hours before the check reading. They need no order between calls, so a wall clock that steps back between calls is covered.
- Concurrency at `await generate()` is not modelled. Two overlapping calls on one stale key can both run the producer, and the last store wins. Each `Get` is modelled as atomic, and calls run one after another.
- A producer that throws is not modelled. In the source the exception leaves the table untouched and propagates to the caller.
- The different JavaScript falsy values (`undefined`, `null`, `0`, `""`, `false`) are all `None`. The model does not say which one is returned. An empty array is truthy, so it is a `Some` and is cached.
- Object-key behaviour of the JavaScript `cache` object is modelled as a plain map. Every key contains '/', so no inherited `Object.prototype` property can be mistaken for a slot.
