/**
 * The history collection: one series per (thing, feature, property path),
 * appended to by an upsert that pushes one value and one timestamp and then
 * keeps a slice of each array (`storeHistory`, MongoDB `$push` with `$each`
 * and `$slice`).
 */
module HistoryStorage {
  import opened Common
  import opened JsonValues
  import opened ChangeFlattening

  /** A stored series: values and their timestamps, oldest first. */
  datatype Series = Series(values: seq<JavaValue>, timestamps: seq<Timestamp>)

  const EMPTY_SERIES := Series([], [])

  /** MongoDB `$slice: n`: 0 empties the array, n < 0 keeps the last -n elements, n > 0 the first n. */
  function Slice<T>(s: seq<T>, n: int): (r: seq<T>)
    ensures n < 0 ==> |r| == Min(|s|, -n) && r == s[|s| - |r|..]
    ensures n >= 0 ==> |r| == Min(|s|, n) && r == s[..|r|]
  {
    if n == 0 then []
    else if n < 0 then (if |s| <= -n then s else s[|s| + n..])
    else (if |s| <= n then s else s[..n])
  }

  /** One `$push` of `x` with `$each: [x]` and `$slice: -historySize`. */
  function Push<T>(s: seq<T>, x: T, historySize: Int32): (r: seq<T>)
    ensures historySize >= 1 ==> |r| == Min(|s| + 1, historySize)
    ensures historySize >= 1 ==> r == Last(s + [x], historySize)
    ensures historySize >= 1 ==> r[|r| - 1] == x
  {
    Slice(s + [x], Negate(historySize))
  }

  /** How long a series of length `n` is after one push: it depends on the length alone. */
  function PushedLength(n: nat, historySize: Int32): nat {
    var k: int := Negate(historySize);
    if k < 0 then Min(n + 1, -k) else Min(n + 1, k)
  }

  lemma PushLength<T>(s: seq<T>, x: T, historySize: Int32)
    ensures |Push(s, x, historySize)| == PushedLength(|s|, historySize)
  {
  }

  /** The last `n` elements of `s` (all of it when shorter). */
  function Last<T>(s: seq<T>, n: nat): (r: seq<T>)
    ensures |r| == Min(|s|, n)
  {
    if |s| <= n then s else s[|s| - n..]
  }

  /** Pushing each of `xs` in turn. */
  function PushAll<T>(s: seq<T>, xs: seq<T>, historySize: Int32): seq<T>
    decreases |xs|
  {
    if xs == [] then s else PushAll(Push(s, xs[0], historySize), xs[1..], historySize)
  }

  /**
   * After at least one push with a fixed positive size, the series holds the
   * most recent entries of everything pushed, at most `historySize` of them.
   */
  lemma {:induction false} PushAllKeepsRecent<T>(s: seq<T>, xs: seq<T>, historySize: Int32)
    requires historySize >= 1 && xs != []
    ensures PushAll(s, xs, historySize) == Last(s + xs, historySize)
    decreases |xs|
  {
    var s' := Push(s, xs[0], historySize);
    assert s + xs == s + [xs[0]] + xs[1..];
    if |xs| == 1 {
      assert xs[1..] == [];
    } else {
      PushAllKeepsRecent(s', xs[1..], historySize);
      var whole := s + xs;
      var t := s + [xs[0]];
      assert s' == Last(t, historySize);
      LastOfLast(t, xs[1..], historySize);
    }
  }

  lemma LastOfLast<T>(t: seq<T>, u: seq<T>, n: nat)
    ensures Last(Last(t, n) + u, n) == Last(t + u, n)
  {
    if |t| > n {
      var d := |t| - n;
      assert t + u == t[..d] + (t[d..] + u);
    }
  }

  /** A size below 1 keeps the oldest entries: once the series is full, the new value is not at the end. */
  lemma NonPositiveSizeDropsNewest<T>(s: seq<T>, x: T, historySize: Int32)
    requires INT_MIN < historySize <= 0
    ensures Push(s, x, historySize) == (s + [x])[..Min(|s| + 1, -historySize)]
    ensures |s| >= -historySize ==> Push(s, x, historySize) == s[..-historySize]
  {
    var r := Push(s, x, historySize);
    if |s| >= -historySize {
      assert (s + [x])[..-historySize] == s[..-historySize];
    }
  }

  /**
   * A size of -2^31 negates to itself, so `$slice` keeps the last 2^31
   * entries: every entry of any shorter array, the new one included.
   */
  lemma MinValueSizeKeepsAll<T>(s: seq<T>, x: T)
    ensures Push(s, x, INT_MIN) == Last(s + [x], -INT_MIN)
    ensures |s| < -INT_MIN ==> Push(s, x, INT_MIN) == s + [x]
  {
  }

  /** The string form of a JSON pointer: "/" for the empty pointer, else "/" before each key. */
  function PointerString(p: Pointer): string {
    if p == [] then "/" else Keys(p)
  }

  function Keys(p: Pointer): string {
    if p == [] then "" else "/" + p[0] + Keys(p[1..])
  }

  /** The `_id` of the series of one property: thing id, "/features/", feature id, path. */
  function SeriesId(thingId: string, featureId: string, path: Pointer): string {
    thingId + "/features/" + featureId + PointerString(path)
  }

  /** The id of a property with a non-empty path: one "/" before each key. */
  lemma RenderedId(thingId: string, featureId: string, path: Pointer)
    requires path != []
    ensures SeriesId(thingId, featureId, path) == thingId + "/features/" + featureId + "/" + path[0] + Keys(path[1..])
  {
    var prefix := thingId + "/features/" + featureId;
    AppendAssoc(prefix, "/" + path[0], Keys(path[1..]));
    AppendAssoc(prefix, "/", path[0]);
  }

  /** Splits a string at every '/'. */
  function Split(s: string): (r: seq<string>)
    ensures |r| >= 1
    decreases |s|
  {
    if '/' !in s then [s]
    else
      var i := IndexOfSlash(s);
      [s[..i]] + Split(s[i + 1..])
  }

  function IndexOfSlash(s: string): (i: nat)
    requires '/' in s
    ensures i < |s| && s[i] == '/' && '/' !in s[..i]
  {
    if s[0] == '/' then 0 else 1 + IndexOfSlash(s[1..])
  }

  lemma {:induction false} SplitAtSlash(a: string, b: string)
    requires '/' !in a
    ensures Split(a + "/" + b) == [a] + Split(b)
  {
    var s := a + "/" + b;
    assert s[|a|] == '/';
    var i := IndexOfSlash(s);
    assert s[..i] == a;
    assert s[i + 1..] == b;
  }

  ghost predicate SlashFree(s: string) {
    '/' !in s
  }

  /** Keys that name a path segment: non-empty and without '/'. */
  ghost predicate PlainKeys(p: Pointer) {
    forall i :: 0 <= i < |p| ==> p[i] != "" && SlashFree(p[i])
  }

  lemma {:induction false} SplitKeys(a: string, p: Pointer)
    requires SlashFree(a) && PlainKeys(p)
    ensures Split(a + Keys(p)) == [a] + p
    decreases |p|
  {
    if p == [] {
      assert a + Keys(p) == a;
    } else {
      var rest := p[0] + Keys(p[1..]);
      KeysUnfold(a, p);
      SplitAtSlash(a, rest);
      assert PlainKeys(p[1..]) by {
        forall i | 0 <= i < |p[1..]| ensures p[1..][i] != "" && SlashFree(p[1..][i]) {
          assert p[1..][i] == p[i + 1];
        }
      }
      assert SlashFree(p[0]);
      SplitKeys(p[0], p[1..]);
      assert [p[0]] + p[1..] == p;
    }
  }

  lemma KeysUnfold(a: string, p: Pointer)
    requires p != []
    ensures a + Keys(p) == a + "/" + (p[0] + Keys(p[1..]))
  {
    AppendAssoc(a, "/" + p[0], Keys(p[1..]));
    AppendAssoc(a, "/", p[0]);
    AppendAssoc(a + "/", p[0], Keys(p[1..]));
  }

  lemma AppendAssoc<T>(a: seq<T>, b: seq<T>, c: seq<T>)
    ensures a + (b + c) == a + b + c
  {
  }

  lemma FeaturesSegment(thingId: string, tail: string)
    ensures thingId + "/features/" + tail == thingId + "/" + ("features" + "/" + tail)
    ensures '/' !in "features"
  {
  }

  lemma {:induction false} SplitPointer(featureId: string, path: Pointer)
    requires SlashFree(featureId) && PlainKeys(path)
    ensures Split(featureId + PointerString(path)) == [featureId] + (if path == [] then [""] else path)
  {
    if path == [] {
      assert featureId + PointerString(path) == featureId + "/" + "";
      SplitAtSlash(featureId, "");
    } else {
      SplitKeys(featureId, path);
    }
  }

  /** The identifier splits back into thing id, "features", feature id and the path ([""] for the empty path). */
  lemma {:induction false} SeriesIdSplits(thingId: string, featureId: string, path: Pointer)
    requires SlashFree(thingId) && SlashFree(featureId) && PlainKeys(path)
    ensures Split(SeriesId(thingId, featureId, path))
         == [thingId, "features", featureId] + (if path == [] then [""] else path)
  {
    var tail := featureId + PointerString(path);
    FeaturesSegment(thingId, tail);
    assert SeriesId(thingId, featureId, path) == thingId + "/features/" + tail;
    SplitAtSlash(thingId, "features" + "/" + tail);
    SplitAtSlash("features", tail);
    SplitPointer(featureId, path);
    DisplayShape(thingId, featureId, if path == [] then [""] else path);
  }

  lemma DisplayShape(t: string, f: string, segments: seq<string>)
    ensures [t] + (["features"] + ([f] + segments)) == [t, "features", f] + segments
  {
  }

  /** Distinct properties never share a series, when ids and keys are non-empty and free of '/'. */
  lemma SeriesIdInjective(t1: string, f1: string, p1: Pointer, t2: string, f2: string, p2: Pointer)
    requires SlashFree(t1) && SlashFree(f1) && PlainKeys(p1)
    requires SlashFree(t2) && SlashFree(f2) && PlainKeys(p2)
    requires SeriesId(t1, f1, p1) == SeriesId(t2, f2, p2)
    ensures t1 == t2 && f1 == f2 && p1 == p2
  {
    SeriesIdSplits(t1, f1, p1);
    SeriesIdSplits(t2, f2, p2);
    var s1 := [t1, "features", f1] + (if p1 == [] then [""] else p1);
    var s2 := [t2, "features", f2] + (if p2 == [] then [""] else p2);
    assert s1[3..] == s2[3..];
  }

  /** The identifier does not separate a key containing '/' from the keys on either side of it. */
  lemma SlashInKeyCollides(thingId: string, featureId: string, a: string, b: string)
    ensures SeriesId(thingId, featureId, [a + "/" + b]) == SeriesId(thingId, featureId, [a, b])
  {
    assert Keys([a + "/" + b]) == "/" + (a + "/" + b) by { assert [a + "/" + b][1..] == []; }
    assert Keys([b]) == "/" + b by { assert [b][1..] == []; }
    assert Keys([a, b]) == "/" + a + Keys([b]) by { assert [a, b][1..] == [b]; }
  }

  /** Every series keeps its values and timestamps in step. */
  ghost predicate Paired(store: map<string, Series>) {
    forall id :: id in store ==> |store[id].values| == |store[id].timestamps|
  }

  /** One series after pushing `value` with timestamp `timestamp`. */
  function PushEntry(s: Series, value: JavaValue, timestamp: Timestamp, historySize: Int32): (r: Series)
    ensures |s.values| == |s.timestamps| ==> |r.values| == |r.timestamps|
    ensures historySize >= 1 ==>
              && r.values == Last(s.values + [value], historySize)
              && r.timestamps == Last(s.timestamps + [timestamp], historySize)
    ensures historySize >= 1 ==>
              && r.values != [] && r.values[|r.values| - 1] == value
              && r.timestamps != [] && r.timestamps[|r.timestamps| - 1] == timestamp
  {
    PushLength(s.values, value, historySize);
    PushLength(s.timestamps, timestamp, historySize);
    Series(Push(s.values, value, historySize), Push(s.timestamps, timestamp, historySize))
  }

  /** The upsert of one entry into series `id`: push onto it, or create it. */
  function Upsert(store: map<string, Series>, id: string, value: JavaValue, timestamp: Timestamp,
                  historySize: Int32): (r: map<string, Series>)
    ensures r.Keys == store.Keys + {id}
    ensures forall other :: other in store && other != id ==> r[other] == store[other]
    ensures Paired(store) ==> Paired(r)
    ensures r[id] == PushEntry(if id in store then store[id] else EMPTY_SERIES, value, timestamp, historySize)
    ensures historySize >= 1 && id !in store ==> r[id] == Series([value], [timestamp])
  {
    var before := if id in store then store[id] else EMPTY_SERIES;
    store[id := PushEntry(before, value, timestamp, historySize)]
  }

  /** The series a record belongs to. */
  function RecordId(h: History): string {
    SeriesId(h.thingId, h.featureId, h.path)
  }

  /** The upsert `storeHistory` performs for record `h`. */
  function StoreRecord(store: map<string, Series>, h: History, historySize: Int32): map<string, Series> {
    Upsert(store, RecordId(h), GetJavaValue(h.value), h.timestamp, historySize)
  }

  /** The upserts of `records`, in order, all with the same size. */
  function UpsertAll(store: map<string, Series>, records: seq<History>, historySize: Int32): (r: map<string, Series>)
    decreases |records|
  {
    if records == [] then store
    else UpsertAll(StoreRecord(store, records[0], historySize), records[1..], historySize)
  }

  lemma {:induction false} UpsertAllSnoc(store: map<string, Series>, records: seq<History>, h: History, historySize: Int32)
    ensures UpsertAll(store, records + [h], historySize) == StoreRecord(UpsertAll(store, records, historySize), h, historySize)
    decreases |records|
  {
    if records == [] {
      assert [h][1..] == [];
    } else {
      assert (records + [h])[1..] == records[1..] + [h];
      UpsertAllSnoc(StoreRecord(store, records[0], historySize), records[1..], h, historySize);
    }
  }

  lemma UpsertAllPrefix(store: map<string, Series>, records: seq<History>, i: nat, historySize: Int32)
    requires i < |records|
    ensures UpsertAll(store, records[..i + 1], historySize)
         == StoreRecord(UpsertAll(store, records[..i], historySize), records[i], historySize)
  {
    assert records[..i + 1] == records[..i] + [records[i]];
    UpsertAllSnoc(store, records[..i], records[i], historySize);
  }

  /** Storing a batch of records keeps every series paired. */
  lemma {:induction false} UpsertAllPaired(store: map<string, Series>, records: seq<History>, historySize: Int32)
    requires Paired(store)
    ensures Paired(UpsertAll(store, records, historySize))
    decreases |records|
  {
    if records != [] {
      UpsertAllPaired(StoreRecord(store, records[0], historySize), records[1..], historySize);
    }
  }

  /** Storing a batch of records leaves every series that none of them belongs to as it was. */
  lemma {:induction false} UpsertAllFrame(store: map<string, Series>, records: seq<History>, historySize: Int32, id: string)
    requires id in store
    requires forall k :: 0 <= k < |records| ==> RecordId(records[k]) != id
    ensures id in UpsertAll(store, records, historySize)
    ensures UpsertAll(store, records, historySize)[id] == store[id]
    decreases |records|
  {
    if records != [] {
      var next := StoreRecord(store, records[0], historySize);
      assert RecordId(records[0]) != id;
      forall k | 0 <= k < |records[1..]| ensures RecordId(records[1..][k]) != id {
        assert records[1..][k] == records[k + 1];
      }
      UpsertAllFrame(next, records[1..], historySize, id);
    }
  }

  /** The series of record `h` in `store` ends with the record's value and timestamp. */
  ghost predicate EndsWith(store: map<string, Series>, h: History) {
    var id := RecordId(h);
    && id in store && store[id].values != [] && store[id].timestamps != []
    && store[id].values[|store[id].values| - 1] == GetJavaValue(h.value)
    && store[id].timestamps[|store[id].timestamps| - 1] == h.timestamp
  }

  lemma StoreRecordEndsWith(store: map<string, Series>, h: History, historySize: Int32)
    requires historySize >= 1
    ensures EndsWith(StoreRecord(store, h, historySize), h)
  {
  }

  /** No record after the k-th belongs to the k-th record's series. */
  ghost predicate LastOfItsSeries(records: seq<History>, k: nat)
    requires k < |records|
  {
    forall j :: k < j < |records| ==> RecordId(records[j]) != RecordId(records[k])
  }

  lemma LastOfItsSeriesTail(records: seq<History>, k: nat)
    requires 0 < k < |records| && LastOfItsSeries(records, k)
    ensures LastOfItsSeries(records[1..], k - 1)
  {
    var rest := records[1..];
    forall j | k - 1 < j < |rest| ensures RecordId(rest[j]) != RecordId(rest[k - 1]) {
      assert rest[j] == records[j + 1];
    }
  }

  lemma LastOfItsSeriesFirst(records: seq<History>)
    requires 0 < |records| && LastOfItsSeries(records, 0)
    ensures forall j :: 0 <= j < |records[1..]| ==> RecordId(records[1..][j]) != RecordId(records[0])
  {
    forall j | 0 <= j < |records[1..]| ensures RecordId(records[1..][j]) != RecordId(records[0]) {
      assert records[1..][j] == records[j + 1];
    }
  }

  lemma UpsertAllUnfold(store: map<string, Series>, records: seq<History>, historySize: Int32)
    requires records != []
    ensures UpsertAll(store, records, historySize)
         == UpsertAll(StoreRecord(store, records[0], historySize), records[1..], historySize)
  {
  }

  /** The first record of a batch whose series no later record shares ends that series. */
  lemma UpsertAllLatestFirst(store: map<string, Series>, records: seq<History>, historySize: Int32)
    requires historySize >= 1 && records != [] && LastOfItsSeries(records, 0)
    ensures EndsWith(UpsertAll(store, records, historySize), records[0])
  {
    var next := StoreRecord(store, records[0], historySize);
    var id := RecordId(records[0]);
    StoreRecordEndsWith(store, records[0], historySize);
    LastOfItsSeriesFirst(records);
    UpsertAllFrame(next, records[1..], historySize, id);
    UpsertAllUnfold(store, records, historySize);
    var r := UpsertAll(store, records, historySize);
    assert r[id] == next[id];
  }

  /**
   * With a positive size, after a batch the series of a record that no later
   * record of the batch shares ends with that record's value and timestamp.
   */
  lemma {:induction false} UpsertAllLatest(store: map<string, Series>, records: seq<History>, historySize: Int32, k: nat)
    requires historySize >= 1 && k < |records| && LastOfItsSeries(records, k)
    ensures EndsWith(UpsertAll(store, records, historySize), records[k])
    decreases |records|, 1
  {
    if k == 0 {
      UpsertAllLatestFirst(store, records, historySize);
    } else {
      UpsertAllLatestLater(store, records, historySize, k);
    }
  }

  /** A later record of a batch: the first record's upsert is followed by the rest of the batch. */
  lemma {:induction false} UpsertAllLatestLater(store: map<string, Series>, records: seq<History>, historySize: Int32, k: nat)
    requires historySize >= 1 && 0 < k < |records| && LastOfItsSeries(records, k)
    ensures EndsWith(UpsertAll(store, records, historySize), records[k])
    decreases |records|, 0
  {
    LastOfItsSeriesTail(records, k);
    UpsertAllLatest(StoreRecord(store, records[0], historySize), records[1..], historySize, k - 1);
    EndsWithAfterFirst(store, records, historySize, k);
  }

  /** What holds of the k-th record after the rest of a batch holds of it after the whole batch. */
  lemma EndsWithAfterFirst(store: map<string, Series>, records: seq<History>, historySize: Int32, k: nat)
    requires 0 < k < |records|
    requires EndsWith(UpsertAll(StoreRecord(store, records[0], historySize), records[1..], historySize), records[1..][k - 1])
    ensures EndsWith(UpsertAll(store, records, historySize), records[k])
  {
    UpsertAllUnfold(store, records, historySize);
    assert records[1..][k - 1] == records[k];
  }

  /** The MongoDB `history` collection. */
  class HistoryStore {
    var series: map<string, Series>

    ghost predicate Valid()
      reads this
    {
      Paired(series)
    }

    constructor ()
      ensures Valid() && series == map[]
    {
      series := map[];
    }

    /**
     * `storeHistory`: pushes the record's normalised value and timestamp onto
     * the series of its property, creating it if absent, and keeps the last
     * `historySize` entries of each array. No other series changes.
     */
    method StoreHistory(h: History, historySize: Int32)
      requires Valid()
      modifies this
      ensures Valid()
      ensures series == StoreRecord(old(series), h, historySize)
      ensures var id := SeriesId(h.thingId, h.featureId, h.path);
              var before := if id in old(series) then old(series)[id] else EMPTY_SERIES;
              && id in series
              && (historySize >= 1 ==>
                    && series[id].values == Last(before.values + [GetJavaValue(h.value)], historySize)
                    && series[id].timestamps == Last(before.timestamps + [h.timestamp], historySize))
      ensures forall id :: id in old(series) && id != SeriesId(h.thingId, h.featureId, h.path) ==>
                id in series && series[id] == old(series)[id]
    {
      var id := RecordId(h);
      series := Upsert(series, id, GetJavaValue(h.value), h.timestamp, historySize);
    }
  }
}
