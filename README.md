# Historian collector, modelled in Dafny

This project models the collector of the Bosch IoT Things historian example.
The collector subscribes to the feature changes of all things. For every
created or updated feature it does three things:

1. It determines the thing's history size. This is the `historySize` property
   of the thing's `HistorianConfig` feature, which is looked up remotely and
   kept in a bounded cache, or the default of 1000. It is cut down to at most
   100000.
2. It flattens the changed feature value into one record per leaf. A leaf is a
   non-object node, reached through a path of object keys, and each record is
   stamped with the clock.
3. It upserts every record, in order, into the MongoDB `history` collection.
   Each property has one document, with the id `<thingId>/features/<featureId><path>`.
   The upsert pushes the normalised value and the timestamp onto two arrays and
   keeps the last `historySize` entries of each (`$push` with `$each` and `$slice`).

Modules, one file each:

- `Common`: options, results, the failures that abort a change, and Java's `int` range and negation.
- `JsonValues`: JSON nodes and `getJavaValue`. The conversion is specified by
  the relation `Fits` and proved total and unique.
- `ChangeFlattening`: `collectChanges` as a recursive method over a record list
  and a clock. It is proved against the specification function `Leaves`, which
  is sound, complete and has one record per leaf.
- `HistorySizing`: `getHistorySize`'s default-and-clamp rule, its cache-or-remote
  resolution, and the config cache with capacity 1000.
- `HistoryStorage`: the `$slice` semantics, the series id, the upsert, and the
  `HistoryStore` class with `storeHistory`.
- `Collector`: the `Collector` class with `getHistorySize` and the change
  handler, plus concrete scenarios.

`getHistorySize` clamps the configured size only from above (`Math.min`,
Collector.java:191), so a configured size of 0 or below comes through. The
upsert then uses `$slice: -historySize`:
- A size of 0 empties both arrays.
- A size between -2^31 and 0, exclusive, keeps the oldest entries, so once the
  array is full the new value is dropped.
- A size of exactly -2^31 (`Integer.MIN_VALUE`) negates to itself. `$slice`
  then keeps the last 2^31 entries, which is every entry, the new one included.

The model follows the code. `HistorySizing.SizeInRangeIff` characterises exactly
when the size lies in [1, 100000]. `HistoryStorage.NonPositiveSizeDropsNewest`
and `HistoryStorage.MinValueSizeKeepsAll` show what the other sizes do to a
series.

The series id writes the path keys without escaping. Distinct properties
therefore share a series when a key contains '/' (`HistoryStorage.SlashInKeyCollides`).
With non-empty, '/'-free ids and keys the id is injective (`HistoryStorage.SeriesIdInjective`).

## Model

All sources are in `historian/src/main/java/com/bosch/iot/things/example/historian/Collector.java`.

| member | source | states |
|---|---|---|
| Common.Negate | historian/src/main/java/com/bosch/iot/things/example/historian/Collector.java:209-212 | `-historySize` on a Java `int` is the arithmetic negation, except that the most negative value maps to itself |
| JsonValues.NumberValue | historian/src/main/java/com/bosch/iot/things/example/historian/Collector.java:245-254 | a number is stored as an Integer if it fits 32 bits, else as a Long if it fits 64 bits, else as a Double |
| JsonValues.GetJavaValue | historian/src/main/java/com/bosch/iot/things/example/historian/Collector.java:242-270 | the conversion is total, and its result is a representation that `Fits` the node: null, boolean, string and unrecognised nodes map to their Java counterparts (the fallback is the string rendering); arrays keep length and order; objects become maps |
| JsonValues.FillMap | historian/src/main/java/com/bosch/iot/things/example/historian/Collector.java:262-266 | putting the first n members into a fresh map gives exactly their keys, and each key holds the converted value of the last member with that key |
| JsonValues.FitsIsFunctional | historian/src/main/java/com/bosch/iot/things/example/historian/Collector.java:242-270 | at most one Java value fits a JSON node, so `Fits` fully determines the conversion |
| JsonValues.ArrayNormalised | historian/src/main/java/com/bosch/iot/things/example/historian/Collector.java:259-261 | an array becomes an Object[] of the same length whose i-th item is the conversion of the i-th element |
| JsonValues.ObjectNormalised | historian/src/main/java/com/bosch/iot/things/example/historian/Collector.java:262-266 | an object becomes a map over the same keys whose value at each key is the conversion of the last member with that key |
| ChangeFlattening.LeavesAreLeaves | historian/src/main/java/com/bosch/iot/things/example/historian/Collector.java:223-234 | every collected record is a non-object node, its path extends the starting path, and following the added keys from the value reaches that node |
| ChangeFlattening.LeavesComplete | historian/src/main/java/com/bosch/iot/things/example/historian/Collector.java:223-234 | every non-object node reachable from the value by object keys is collected, at the starting path followed by those keys |
| ChangeFlattening.LeafCountMatches | historian/src/main/java/com/bosch/iot/things/example/historian/Collector.java:223-234 | exactly one record is collected per leaf of the value |
| ChangeFlattening.ScalarValueIsOneRecord | historian/src/main/java/com/bosch/iot/things/example/historian/Collector.java:231-233 | a non-object value yields a single record at the given path |
| ChangeFlattening.Clock.Now | historian/src/main/java/com/bosch/iot/things/example/historian/Collector.java:232 | `LocalDateTime.now()` returns the clock's next reading and advances it by one |
| ChangeFlattening.RecordList.Add | historian/src/main/java/com/bosch/iot/things/example/historian/Collector.java:232 | `target.add` appends the record at the end |
| ChangeFlattening.CollectChanges | historian/src/main/java/com/bosch/iot/things/example/historian/Collector.java:223-234 | appends to the target, after its existing records, the leaves of the value in depth-first member order, each stamped with successive clock readings; the clock advances once per leaf |
| ChangeFlattening.CollectMembers | historian/src/main/java/com/bosch/iot/things/example/historian/Collector.java:227-230 | the `forEach` over an object's members collects each member's leaves under path+key, one member after the other |
| HistorySizing.HistorySize | historian/src/main/java/com/bosch/iot/things/example/historian/Collector.java:187-195 | with no config, or with a config without `historySize`, the size is the default 1000; otherwise it is min(100000, configured); it never exceeds 100000 |
| HistorySizing.SizeInRangeIff | historian/src/main/java/com/bosch/iot/things/example/historian/Collector.java:187-195 | the size lies in [1, 100000] if and only if no configured size below 1 is present (there is no lower clamp) |
| HistorySizing.LargeSizeIsClamped | historian/src/main/java/com/bosch/iot/things/example/historian/Collector.java:191-193 | a configured size of 100000 or more gives 100000 |
| HistorySizing.ResolveSize | historian/src/main/java/com/bosch/iot/things/example/historian/Collector.java:166-196 | a cache hit gives the size of the cached config; on a miss, a retrieved config gives its own size, a failed retrieval gives the default, and a timeout or interruption, and only that, is an error; the size never exceeds 100000 |
| HistorySizing.ConfigCache.Put | historian/src/main/java/com/bosch/iot/things/example/historian/Collector.java:98 | the cache keeps at most 1000 entries; after `put` the key holds the new config, no other entry changes, nothing is evicted when the key is present or there is room, and at most one entry is evicted |
| HistorySizing.ConfigCache.Clear | historian/src/main/java/com/bosch/iot/things/example/historian/Collector.java:135 | the scheduled `clear` empties the cache |
| HistoryStorage.Slice | historian/src/main/java/com/bosch/iot/things/example/historian/Collector.java:209-212 | `$slice: n` keeps the last -n elements when n < 0, the first n when n >= 0 (none for 0), or all when the array is shorter |
| HistoryStorage.Push | historian/src/main/java/com/bosch/iot/things/example/historian/Collector.java:206-212 | with a positive size, a push leaves the last `historySize` elements of the array followed by the new element, and the new element is last |
| HistoryStorage.PushLength | historian/src/main/java/com/bosch/iot/things/example/historian/Collector.java:206-212 | the length after a push depends only on the old length and the size, so the two parallel arrays stay the same length |
| HistoryStorage.PushAllKeepsRecent | historian/src/main/java/com/bosch/iot/things/example/historian/Collector.java:206-212 | after one or more pushes with a fixed positive size, the array holds the most recent `historySize` of all the elements pushed onto the old contents |
| HistoryStorage.NonPositiveSizeDropsNewest | historian/src/main/java/com/bosch/iot/things/example/historian/Collector.java:209-212 | with -2^31 < size <= 0, a push keeps a prefix of old contents + new; once the array holds -size elements the new value is discarded |
| HistoryStorage.MinValueSizeKeepsAll | historian/src/main/java/com/bosch/iot/things/example/historian/Collector.java:209-212 | with a size of -2^31 the negation wraps to -2^31, so a push keeps the last 2^31 entries of old + new, which for any shorter array is all of them |
| HistoryStorage.SeriesIdSplits | historian/src/main/java/com/bosch/iot/things/example/historian/Collector.java:205 | with '/'-free ids and keys, the document id splits at '/' into thing id, "features", feature id and the path keys |
| HistoryStorage.SeriesIdInjective | historian/src/main/java/com/bosch/iot/things/example/historian/Collector.java:205 | with non-empty, '/'-free keys and '/'-free ids, distinct (thing, feature, path) triples get distinct document ids |
| HistoryStorage.SlashInKeyCollides | historian/src/main/java/com/bosch/iot/things/example/historian/Collector.java:205 | for any thing, feature and strings a and b, the one-key path [a/b] gets the same document id as the two-key path [a, b] |
| HistoryStorage.PushEntry | historian/src/main/java/com/bosch/iot/things/example/historian/Collector.java:206-212 | the two pushes keep values and timestamps the same length; with a positive size, each array is the last `historySize` of old + new and ends with the new entry |
| HistoryStorage.Upsert | historian/src/main/java/com/bosch/iot/things/example/historian/Collector.java:215-217 | the upsert adds the document id to the collection and leaves every other document unchanged; a missing document is created holding just the new entry, and an existing one gets the entry pushed |
| HistoryStorage.UpsertAllSnoc | historian/src/main/java/com/bosch/iot/things/example/historian/Collector.java:157 | storing records in order is a left-to-right sequence of single upserts |
| HistoryStorage.UpsertAllPaired | historian/src/main/java/com/bosch/iot/things/example/historian/Collector.java:206-212 | storing any batch keeps every document's values and timestamps in step |
| HistoryStorage.UpsertAllFrame | historian/src/main/java/com/bosch/iot/things/example/historian/Collector.java:214-217 | a document that no record of the batch belongs to is unchanged by the batch |
| HistoryStorage.UpsertAllLatest | historian/src/main/java/com/bosch/iot/things/example/historian/Collector.java:157 | with a positive size, a record's document ends with that record's value and timestamp when no later record of the batch shares the document |
| HistoryStorage.HistoryStore.StoreHistory | historian/src/main/java/com/bosch/iot/things/example/historian/Collector.java:201-218 | `storeHistory` upserts the record into the document of its property; with a positive size the arrays become the last `historySize` of old + new; every other document is unchanged |
| Collector.ChangeRecords | historian/src/main/java/com/bosch/iot/things/example/historian/Collector.java:152-154 | a change yields one record per leaf of its value, each carrying the change's thing and feature ids and a non-object value |
| Collector.Collector.GetHistorySize | historian/src/main/java/com/bosch/iot/things/example/historian/Collector.java:166-196 | returns the resolved size; a hit makes no remote lookup and leaves the cache alone; a miss makes one lookup and caches the config only when it was retrieved |
| Collector.Collector.StoreRecords | historian/src/main/java/com/bosch/iot/things/example/historian/Collector.java:157 | `forEachOrdered(storeHistory)` leaves the store as the in-order upserts of the records, all with the one size |
| Collector.Collector.HandleChange | historian/src/main/java/com/bosch/iot/things/example/historian/Collector.java:144-159 | deleted changes change nothing. Otherwise the size is resolved first, with the lookup and cache effects of `getHistorySize`. A timeout aborts, and so does a change without a value (after the lookup); neither stores anything or reads the clock. Otherwise all leaf records are stored in order with that size, and the clock advances once per record |
| Collector.FailedLookupIsRetried | historian/src/main/java/com/bosch/iot/things/example/historian/Collector.java:166-185 | a failed lookup gives the default and is not cached, so it is retried; a retrieved config then serves later changes from the cache, even when a lookup would time out |
| Collector.ExampleLeaves | historian/src/main/java/com/bosch/iot/things/example/historian/Collector.java:223-234 | {"temperature": 21.5, "meta": {"unit": "C"}} flattens to /temperature and /meta/unit, in that order |
| Collector.ExampleTemperatureId | historian/src/main/java/com/bosch/iot/things/example/historian/Collector.java:205 | the document id of property /temperature of feature f1 of thing t1 is t1/features/f1/temperature |
| Collector.ExampleUnitId | historian/src/main/java/com/bosch/iot/things/example/historian/Collector.java:205 | the document id of property /meta/unit of feature f1 of thing t1 is t1/features/f1/meta/unit |
| Collector.ExampleRecords | historian/src/main/java/com/bosch/iot/things/example/historian/Collector.java:152-154 | the example change yields two records, stamped with the first two clock readings |
| Collector.ExampleRecordFacts | historian/src/main/java/com/bosch/iot/things/example/historian/Collector.java:205-208 | the two example records go to distinct documents and store a Double and a String |
| Collector.ExampleStore | historian/src/main/java/com/bosch/iot/things/example/historian/Collector.java:201-218 | storing the two example records into an empty collection creates two documents, one entry each |
| Collector.ExampleUpdate | historian/src/main/java/com/bosch/iot/things/example/historian/Collector.java:144-159 | a fresh collector that handles the example update without a config ends with exactly those two documents |

## Left out

- `setupClient`, the subscription and `startConsumption`: client configuration and I/O. The handler is a method that receives each change.
- `start`: the collection check, the collector thread and the scheduler are not modelled. Only the effect of the scheduled task, `ConfigCache.Clear`, is.
- The remote `HistorianConfig` retrieval is network I/O. Its outcome is an input (`Lookup`): found, failed, or timed out/interrupted.
- The clock is a given sequence of readings (`Clock`), not the wall clock.
- MongoDB failures: every upsert succeeds. `WriteResultChecking.EXCEPTION` is not modelled.
- Concurrency: the synchronised cache, the race between `containsKey` and `get` against the scheduled `clear`, and handlers running concurrently are not modelled.
- HistorySizing.ConfigCache.Put: the `Cache` class is not part of this model. Only its capacity of 1000 is known from the constructor call, so a full cache evicts some unspecified other entry. Its contract does not say which one.
- `asInt` on a `historySize` that is not an integer throws. The model's `Config` holds the size as a Java `int` and leaves that path out.
- `asDouble` and floating point: a number that fits no integer type is stored as `JavaDouble` of its literal, without computing the double.
- The string form of a JSON pointer belongs to a library that is not part of this model. The model renders the empty pointer as "/" and a non-empty pointer as "/" before each key, without escaping.
- Logging and `History.toString` are not modelled.
- The iteration order of `HashMap`: a converted object is a `map`, which has no order.
