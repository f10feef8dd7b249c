/**
 * The collector: resolves the history size of a thing through the config
 * cache and the remote `HistorianConfig` lookup, and handles each feature
 * change by flattening it and storing every record (the change handler
 * registered in `run`).
 */
module Collector {
  import opened Common
  import opened JsonValues
  import opened ChangeFlattening
  import opened HistorySizing
  import opened HistoryStorage

  datatype ChangeAction = Created | Updated | Deleted

  /** A feature change as delivered by the subscription. */
  datatype FeatureChange = FeatureChange(action: ChangeAction, thingId: string, featureId: string, value: Option<Json>)

  /** How the handling of one change ended. */
  datatype Outcome = Done | Aborted(failure: Failure)

  /** Only created and updated features are recorded. */
  predicate IsRecorded(action: ChangeAction) {
    action == Created || action == Updated
  }

  /** The records collected for a change's value, with clock readings numbered from `start`. */
  function ChangeRecords(change: FeatureChange, value: Json, reading: nat -> Timestamp, start: nat): (r: seq<History>)
    ensures |r| == LeafCount(value)
    ensures forall h :: h in r ==> h.thingId == change.thingId && h.featureId == change.featureId && !h.value.JObject?
  {
    LeafCountMatches([], value);
    LeavesAreLeaves([], value);
    var r := Stamp(change.thingId, change.featureId, Leaves([], value), reading, start);
    assert forall k :: 0 <= k < |r| ==> r[k].value == Leaves([], value)[k].1;
    r
  }

  class Collector {
    const cache: ConfigCache
    const store: HistoryStore
    /** The things whose `HistorianConfig` was requested remotely, in order. */
    var lookups: seq<string>

    ghost predicate Valid()
      reads this, cache, store
    {
      cache.Valid() && store.Valid()
    }

    constructor ()
      ensures Valid() && fresh(cache) && fresh(store)
      ensures cache.entries == map[] && store.series == map[] && lookups == []
    {
      cache := new ConfigCache();
      store := new HistoryStore();
      lookups := [];
    }

    /**
     * `getHistorySize`: a cache hit uses the cached config and makes no remote
     * lookup. A miss requests the config remotely and caches only a retrieved one.
     */
    method GetHistorySize(thingId: string, remote: Lookup) returns (r: Result<Int32, Failure>)
      requires Valid()
      modifies this, cache
      ensures Valid()
      ensures r == ResolveSize(old(cache.entries), thingId, remote)
      ensures thingId in old(cache.entries) ==> cache.entries == old(cache.entries) && lookups == old(lookups)
      ensures thingId !in old(cache.entries) ==> lookups == old(lookups) + [thingId]
      ensures thingId !in old(cache.entries) && !remote.Found? ==> cache.entries == old(cache.entries)
      ensures thingId !in old(cache.entries) && remote.Found? ==>
                && thingId in cache.entries && cache.entries[thingId] == remote.config
                && (forall k :: k in cache.entries && k != thingId ==>
                      k in old(cache.entries) && cache.entries[k] == old(cache.entries)[k])
                && (|old(cache.entries)| < CACHE_CAPACITY ==>
                      cache.entries == old(cache.entries)[thingId := remote.config])
    {
      var config: Option<Config>;
      if thingId in cache.entries {
        config := Some(cache.entries[thingId]);
      } else {
        lookups := lookups + [thingId];
        match remote
        case Found(c) =>
          config := Some(c);
          cache.Put(thingId, c);
        case Failed =>
          config := None;
        case TimedOut =>
          return Err(LookupInterrupted);
      }
      r := Ok(HistorySize(config));
    }

    /** `forEachOrdered(h -> storeHistory(h, historySize))`: stores the records in list order. */
    method StoreRecords(records: seq<History>, historySize: Int32)
      requires Valid()
      modifies store
      ensures Valid()
      ensures store.series == UpsertAll(old(store.series), records, historySize)
    {
      ghost var before := store.series;
      var i := 0;
      while i < |records|
        invariant 0 <= i <= |records|
        invariant store.Valid()
        invariant store.series == UpsertAll(before, records[..i], historySize)
      {
        store.StoreHistory(records[i], historySize);
        UpsertAllPrefix(before, records, i, historySize);
        i := i + 1;
      }
      assert records[..|records|] == records;
    }

    /**
     * The change handler: ignores changes that are neither created nor updated;
     * otherwise resolves the history size once, flattens the value and stores
     * every record, in order, with that one size.
     */
    method HandleChange(change: FeatureChange, remote: Lookup, clock: Clock) returns (r: Outcome)
      requires Valid()
      modifies this, cache, store, clock
      ensures Valid()
      ensures !IsRecorded(change.action) ==>
                && r == Done
                && lookups == old(lookups) && cache.entries == old(cache.entries)
                && store.series == old(store.series) && clock.count == old(clock.count)
      ensures IsRecorded(change.action) ==>
                var size := ResolveSize(old(cache.entries), change.thingId, remote);
                && lookups == old(lookups) + (if change.thingId in old(cache.entries) then [] else [change.thingId])
                && (size.Err? ==> r == Aborted(size.error) && store.series == old(store.series))
                && (size.Ok? && change.value.None? ==> r == Aborted(MissingValue) && store.series == old(store.series))
                && (size.Ok? && change.value.Some? ==>
                      var records := ChangeRecords(change, change.value.value, clock.reading, old(clock.count));
                      && r == Done
                      && store.series == UpsertAll(old(store.series), records, size.value)
                      && clock.count == old(clock.count) + |records|)
      ensures IsRecorded(change.action) ==>
                var size := ResolveSize(old(cache.entries), change.thingId, remote);
                size.Err? || change.value.None? ==> clock.count == old(clock.count)
      ensures IsRecorded(change.action) && (change.thingId in old(cache.entries) || !remote.Found?) ==>
                cache.entries == old(cache.entries)
      ensures IsRecorded(change.action) && change.thingId !in old(cache.entries) && remote.Found? ==>
                && change.thingId in cache.entries && cache.entries[change.thingId] == remote.config
                && (forall k :: k in cache.entries && k != change.thingId ==>
                      k in old(cache.entries) && cache.entries[k] == old(cache.entries)[k])
                && (|old(cache.entries)| < CACHE_CAPACITY ==>
                      cache.entries == old(cache.entries)[change.thingId := remote.config])
    {
      if !IsRecorded(change.action) {
        return Done;
      }
      var size := GetHistorySize(change.thingId, remote);
      if size.Err? {
        return Aborted(size.error);
      }
      if change.value.None? {
        return Aborted(MissingValue);
      }
      ghost var start := clock.count;
      var target := new RecordList();
      CollectChanges(target, change.thingId, change.featureId, [], change.value.value, clock);
      ghost var records := ChangeRecords(change, change.value.value, clock.reading, start);
      assert target.records == records by {
        assert [] + records == records;
      }
      StoreRecords(target.records, size.value);
      r := Done;
    }
  }

  /**
   * A thing without a `HistorianConfig`: the failed lookup gives the default
   * and is not cached, so the next change of the thing looks it up again; once
   * retrieved, the config is served from the cache without a lookup.
   */
  method FailedLookupIsRetried() returns (first: Result<Int32, Failure>, second: Result<Int32, Failure>,
                                         third: Result<Int32, Failure>, queried: seq<string>)
    ensures first == Ok(DEFAULT_HISTORY_SIZE)
    ensures second == Ok(5)
    ensures third == Ok(5)
    ensures queried == ["t1", "t1"]
  {
    var collector := new Collector();
    first := collector.GetHistorySize("t1", Failed);
    second := collector.GetHistorySize("t1", Found(Config(Some(5))));
    third := collector.GetHistorySize("t1", TimedOut);
    queried := collector.lookups;
  }

  const EXAMPLE_VALUE: Json :=
    JObject([("temperature", JNumber(OtherLiteral("21.5"))), ("meta", JObject([("unit", JString("C"))]))])

  /** The example value has two leaves, at /temperature and /meta/unit. */
  lemma ExampleLeaves()
    ensures Leaves([], EXAMPLE_VALUE)
         == [(["temperature"], JNumber(OtherLiteral("21.5"))), (["meta", "unit"], JString("C"))]
  {
    var temperature := (["temperature"], JNumber(OtherLiteral("21.5")));
    var unit := (["meta", "unit"], JString("C"));
    var inner := JObject([("unit", JString("C"))]);
    var b := Branches(["meta"], inner.members, inner);
    assert ["meta"] + ["unit"] == ["meta", "unit"];
    assert b[0] == Leaves(["meta", "unit"], JString("C")) == [unit];
    assert b == [[unit]];
    assert Flatten(b) == Flatten(b[..0]) + [unit];
    assert Leaves(["meta"], inner) == [unit];
    var top := Branches([], EXAMPLE_VALUE.members, EXAMPLE_VALUE);
    assert [] + ["temperature"] == ["temperature"] && [] + ["meta"] == ["meta"];
    assert top[0] == [temperature];
    assert top[1] == [unit];
    assert top == [[temperature], [unit]];
    assert top[..1] == [[temperature]];
    assert Flatten(top[..1]) == Flatten(top[..1][..0]) + [temperature];
    assert Flatten(top) == Flatten(top[..1]) + [unit];
  }

  /** The document id of the example's /temperature property. */
  lemma ExampleTemperatureId()
    ensures SeriesId("t1", "f1", ["temperature"]) == "t1/features/f1/temperature"
  {
    RenderedId("t1", "f1", ["temperature"]);
    assert Keys(["temperature"][1..]) == "";
  }

  /** The document id of the example's /meta/unit property. */
  lemma ExampleUnitId()
    ensures SeriesId("t1", "f1", ["meta", "unit"]) == "t1/features/f1/meta/unit"
  {
    RenderedId("t1", "f1", ["meta", "unit"]);
    var rest: Pointer := ["meta", "unit"][1..];
    assert |rest| == 1 && rest[0] == "unit";
    assert Keys(rest) == "/unit" by { assert |rest[1..]| == 0; }
    UnitIdText();
  }

  lemma UnitIdText()
    ensures "t1" + "/features/" + "f1" + "/" + "meta" + "/unit" == "t1/features/f1/meta/unit"
  {
  }

  /** The records of the example update: one per leaf, stamped with the first two clock readings. */
  lemma ExampleRecords(change: FeatureChange, reading: nat -> Timestamp)
    requires change == FeatureChange(Updated, "t1", "f1", Some(EXAMPLE_VALUE))
    ensures ChangeRecords(change, EXAMPLE_VALUE, reading, 0)
         == [History("t1", "f1", ["temperature"], JNumber(OtherLiteral("21.5")), reading(0)),
             History("t1", "f1", ["meta", "unit"], JString("C"), reading(1))]
  {
    ExampleLeaves();
  }

  /** Storing one record into a store without its series creates the series with that one entry. */
  lemma StoreIntoNewSeries(store: map<string, Series>, h: History, id: string, value: JavaValue)
    requires id == RecordId(h) && id !in store && value == GetJavaValue(h.value)
    ensures StoreRecord(store, h, DEFAULT_HISTORY_SIZE) == store[id := Series([value], [h.timestamp])]
  {
  }

  /** The series ids and stored values of the two example records. */
  lemma ExampleRecordFacts(h1: History, h2: History)
    requires h1.thingId == h2.thingId == "t1" && h1.featureId == h2.featureId == "f1"
    requires h1.path == ["temperature"] && h1.value == JNumber(OtherLiteral("21.5"))
    requires h2.path == ["meta", "unit"] && h2.value == JString("C")
    ensures RecordId(h1) == "t1/features/f1/temperature"
    ensures RecordId(h2) == "t1/features/f1/meta/unit"
    ensures RecordId(h1) != RecordId(h2)
    ensures GetJavaValue(h1.value) == JavaDouble(OtherLiteral("21.5"))
    ensures GetJavaValue(h2.value) == JavaString("C")
  {
    ExampleTemperatureId();
    ExampleUnitId();
    assert RecordId(h1)[15] != RecordId(h2)[15];
  }

  /** Storing the example records into an empty store with the default size gives one series per leaf. */
  lemma ExampleStore(t0: Timestamp, t1: Timestamp)
    ensures UpsertAll(map[], [History("t1", "f1", ["temperature"], JNumber(OtherLiteral("21.5")), t0),
                              History("t1", "f1", ["meta", "unit"], JString("C"), t1)], DEFAULT_HISTORY_SIZE)
         == map["t1/features/f1/temperature" := Series([JavaDouble(OtherLiteral("21.5"))], [t0]),
                "t1/features/f1/meta/unit" := Series([JavaString("C")], [t1])]
  {
    var h1 := History("t1", "f1", ["temperature"], JNumber(OtherLiteral("21.5")), t0);
    var h2 := History("t1", "f1", ["meta", "unit"], JString("C"), t1);
    ExampleRecordFacts(h1, h2);
    var m1 := map[RecordId(h1) := Series([JavaDouble(OtherLiteral("21.5"))], [t0])];
    StoreIntoNewSeries(map[], h1, RecordId(h1), GetJavaValue(h1.value));
    StoreIntoNewSeries(m1, h2, RecordId(h2), GetJavaValue(h2.value));
    assert [h1, h2][1..] == [h2] && [h2][1..] == [];
    assert UpsertAll(map[], [h1, h2], DEFAULT_HISTORY_SIZE) == UpsertAll(m1, [h2], DEFAULT_HISTORY_SIZE);
  }

  /**
   * An update of feature `f1` of thing `t1` to {"temperature": 21.5, "meta": {"unit": "C"}}
   * without a config: two series, one per leaf, each holding the one new value.
   */
  method ExampleUpdate() returns (r: Outcome, series: map<string, Series>)
    ensures r == Done
    ensures series == map["t1/features/f1/temperature" := Series([JavaDouble(OtherLiteral("21.5"))], [0]),
                          "t1/features/f1/meta/unit" := Series([JavaString("C")], [1])]
  {
    var collector := new Collector();
    var clock := new Clock(n => n);
    var change := FeatureChange(Updated, "t1", "f1", Some(EXAMPLE_VALUE));
    r := collector.HandleChange(change, Failed, clock);
    series := collector.store.series;
    ExampleRecords(change, clock.reading);
    ExampleStore(0, 1);
  }
}
