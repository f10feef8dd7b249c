/**
 * The per-thing history size: the `HistorianConfig` feature of a thing, the
 * bounded cache of those features, and the default-and-clamp rule of
 * `getHistorySize`.
 */
module HistorySizing {
  import opened Common

  const DEFAULT_HISTORY_SIZE: Int32 := 1000
  const MAX_HISTORY_SIZE: Int32 := 100000
  const CACHE_CAPACITY: nat := 1000

  /** A thing's `HistorianConfig` feature: its `historySize` property, read as an `int`, if set. */
  datatype Config = Config(historySize: Option<Int32>)

  /** The outcome of the remote retrieval of a thing's `HistorianConfig` feature. */
  datatype Lookup =
    | Found(config: Config)
    | Failed   // ExecutionException: not found, or an error while retrieving
    | TimedOut // TimeoutException after 5 seconds, or InterruptedException

  /**
   * The history size for an optional config: the default without a config or
   * without a `historySize`, else the configured size, at most the maximum.
   */
  function HistorySize(config: Option<Config>): (r: Int32)
    ensures r <= MAX_HISTORY_SIZE
    ensures config.None? ==> r == DEFAULT_HISTORY_SIZE
    ensures config.Some? && config.value.historySize.None? ==> r == DEFAULT_HISTORY_SIZE
    ensures config.Some? && config.value.historySize.Some? ==>
              r == Min(MAX_HISTORY_SIZE, config.value.historySize.value)
  {
    if config.None? then DEFAULT_HISTORY_SIZE
    else
      var configured := config.value.historySize.GetOr(DEFAULT_HISTORY_SIZE);
      if MAX_HISTORY_SIZE <= configured then MAX_HISTORY_SIZE else configured
  }

  /**
   * The size lies in [1, MAX_HISTORY_SIZE] exactly when no positive bound is
   * missing: there is no lower clamp, so a configured size below 1 comes through.
   */
  lemma SizeInRangeIff(config: Option<Config>)
    ensures 1 <= HistorySize(config) <= MAX_HISTORY_SIZE
        <==> config.None? || config.value.historySize.None? || config.value.historySize.value >= 1
  {
  }

  /** A configured size above the maximum is cut down to the maximum. */
  lemma LargeSizeIsClamped(n: Int32)
    requires n >= MAX_HISTORY_SIZE
    ensures HistorySize(Some(Config(Some(n)))) == MAX_HISTORY_SIZE
  {
  }

  /**
   * The history size `getHistorySize` resolves for `thingId`: from the cached
   * config on a hit; on a miss from the retrieved config, the default when
   * retrieval failed, and an error when it timed out or was interrupted.
   */
  function ResolveSize(entries: map<string, Config>, thingId: string, remote: Lookup): (r: Result<Int32, Failure>)
    ensures r.Err? <==> thingId !in entries && remote.TimedOut?
    ensures r.Err? ==> r.error == LookupInterrupted
    ensures r.Ok? ==> r.value <= MAX_HISTORY_SIZE
    ensures thingId in entries ==> r == Ok(HistorySize(Some(entries[thingId])))
    ensures thingId !in entries && remote.Found? ==> r == Ok(HistorySize(Some(remote.config)))
    ensures thingId !in entries && remote.Failed? ==> r == Ok(DEFAULT_HISTORY_SIZE)
  {
    if thingId in entries then Ok(HistorySize(Some(entries[thingId])))
    else
      match remote
      case Found(config) => Ok(HistorySize(Some(config)))
      case Failed => Ok(HistorySize(None))
      case TimedOut => Err(LookupInterrupted)
  }

  /**
   * The config cache: thing id to `HistorianConfig`, holding at most
   * CACHE_CAPACITY entries. Which entry a full cache evicts is not known.
   */
  class ConfigCache {
    var entries: map<string, Config>

    ghost predicate Valid()
      reads this
    {
      |entries| <= CACHE_CAPACITY
    }

    constructor ()
      ensures Valid() && entries == map[]
    {
      entries := map[];
    }

    /** `put`: stores `config` for `thingId`; on a full cache, some other entry is evicted first. */
    method Put(thingId: string, config: Config)
      requires Valid()
      modifies this
      ensures Valid()
      ensures thingId in entries && entries[thingId] == config
      ensures forall k :: k in entries && k != thingId ==> k in old(entries) && entries[k] == old(entries)[k]
      ensures thingId in old(entries) || |old(entries)| < CACHE_CAPACITY ==> entries == old(entries)[thingId := config]
      ensures |old(entries).Keys - entries.Keys| <= 1
    {
      if thingId in entries || |entries| < CACHE_CAPACITY {
        entries := entries[thingId := config];
      } else {
        assert entries.Keys != {};
        var victim :| victim in entries.Keys;
        ghost var before := entries;
        entries := (entries - {victim})[thingId := config];
        assert entries.Keys == before.Keys - {victim} + {thingId};
        assert before.Keys - entries.Keys == {victim};
      }
    }

    /** `clear`: drops every entry. */
    method Clear()
      modifies this
      ensures Valid() && entries == map[]
    {
      entries := map[];
    }
  }
}
