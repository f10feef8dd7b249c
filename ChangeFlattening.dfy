/**
 * Flattening of a changed feature value into one history record per leaf
 * (`collectChanges`). Object nodes are only descended into; every other node
 * is recorded at the path of object keys that leads to it.
 */
module ChangeFlattening {
  import opened JsonValues

  /** A JSON pointer: the object keys on the way from the feature value to a node. */
  type Pointer = seq<string>

  /** A wall-clock reading. */
  type Timestamp = int

  /** One property change, as collected before it is stored. */
  datatype History = History(thingId: string, featureId: string, path: Pointer, value: Json, timestamp: Timestamp)

  /** The concatenation of a sequence of sequences. */
  function Flatten<T>(xss: seq<seq<T>>): seq<T> {
    if xss == [] then [] else Flatten(xss[..|xss| - 1]) + xss[|xss| - 1]
  }

  /** Every element of the concatenation comes from one of the parts. */
  lemma {:induction false} FlattenMember<T>(xss: seq<seq<T>>, x: T)
    requires x in Flatten(xss)
    ensures exists i :: 0 <= i < |xss| && x in xss[i]
  {
    var n := |xss|;
    if x !in xss[n - 1] {
      FlattenMember(xss[..n - 1], x);
      var i :| 0 <= i < n - 1 && x in xss[..n - 1][i];
      assert x in xss[i];
    }
  }

  lemma {:induction false} FlattenContains<T>(xss: seq<seq<T>>, i: nat, x: T)
    requires i < |xss| && x in xss[i]
    ensures x in Flatten(xss)
  {
    if i < |xss| - 1 {
      FlattenContains(xss[..|xss| - 1], i, x);
    }
  }

  lemma FlattenSnoc<T>(xss: seq<seq<T>>, i: nat)
    requires i < |xss|
    ensures Flatten(xss[..i + 1]) == Flatten(xss[..i]) + xss[i]
  {
    assert xss[..i + 1][..i] == xss[..i];
  }

  function Sum(ns: seq<nat>): nat {
    if ns == [] then 0 else Sum(ns[..|ns| - 1]) + ns[|ns| - 1]
  }

  /** The number of leaf (non-object) nodes of a tree. */
  function LeafCount(v: Json): nat
    decreases v
  {
    match v
    case JObject(ms) => Sum(seq(|ms|, i requires 0 <= i < |ms| => LeafCount(ms[i].1)))
    case _ => 1
  }

  /** Following the keys of `p` from `v`, through some member with each key, arrives at `x`. */
  ghost predicate Reaches(v: Json, p: Pointer, x: Json)
    decreases |p|
  {
    if p == [] then x == v
    else
      && v.JObject?
      && exists i :: 0 <= i < |v.members| && v.members[i].0 == p[0] && Reaches(v.members[i].1, p[1..], x)
  }

  /** The leaf paths and values of `v`, depth first, members in iteration order, prefixed by `path`. */
  function Leaves(path: Pointer, v: Json): (r: seq<(Pointer, Json)>)
    decreases v, 1
  {
    match v
    case JObject(ms) => Flatten(Branches(path, ms, v))
    case _ => [(path, v)]
  }

  /** The leaves of each member of object `parent`, in member order. */
  function Branches(path: Pointer, ms: seq<(string, Json)>, ghost parent: Json): (r: seq<seq<(Pointer, Json)>>)
    requires parent == JObject(ms)
    ensures |r| == |ms|
    decreases parent, 0
  {
    seq(|ms|, i requires 0 <= i < |ms| =>
      assert ms[i] in parent.members;
      Leaves(path + [ms[i].0], ms[i].1))
  }

  /**
   * Every leaf record lies below `path`, is not an object, and is reached from
   * `v` by following the rest of its path.
   */
  lemma {:induction false} LeavesAreLeaves(path: Pointer, v: Json)
    ensures forall e :: e in Leaves(path, v) ==>
              && !e.1.JObject?
              && |path| <= |e.0| && e.0[..|path|] == path
              && Reaches(v, e.0[|path|..], e.1)
    decreases v
  {
    if v.JObject? {
      var ms := v.members;
      var parts := Branches(path, ms, v);
      forall e | e in Leaves(path, v)
        ensures && !e.1.JObject?
                && |path| <= |e.0| && e.0[..|path|] == path
                && Reaches(v, e.0[|path|..], e.1)
      {
        FlattenMember(parts, e);
        var i :| 0 <= i < |parts| && e in parts[i];
        assert ms[i] in ms;
        var child := path + [ms[i].0];
        LeavesAreLeaves(child, ms[i].1);
        assert e.0[..|child|] == child;
        assert e.0[..|path|] == e.0[..|child|][..|path|];
        var rest := e.0[|path|..];
        assert rest[0] == ms[i].0;
        assert rest[1..] == e.0[|child|..];
      }
    } else {
      assert Leaves(path, v) == [(path, v)];
      assert path[|path|..] == [];
    }
  }

  /** Every leaf reached from `v` is recorded, at `path` followed by the keys that reach it. */
  lemma {:induction false} LeavesComplete(path: Pointer, v: Json, p: Pointer, x: Json)
    requires Reaches(v, p, x) && !x.JObject?
    ensures (path + p, x) in Leaves(path, v)
    decreases p
  {
    if p == [] {
      assert path + p == path;
    } else {
      var ms := v.members;
      var i :| 0 <= i < |ms| && ms[i].0 == p[0] && Reaches(ms[i].1, p[1..], x);
      LeavesComplete(path + [p[0]], ms[i].1, p[1..], x);
      assert path + [p[0]] + p[1..] == path + p;
      FlattenContains(Branches(path, ms, v), i, (path + p, x));
    }
  }

  lemma {:induction false} FlattenLength<T>(xss: seq<seq<T>>)
    ensures |Flatten(xss)| == Sum(seq(|xss|, i requires 0 <= i < |xss| => |xss[i]|))
  {
    if xss != [] {
      var n := |xss|;
      FlattenLength(xss[..n - 1]);
      var lens := seq(n, i requires 0 <= i < n => |xss[i]|);
      assert lens[..n - 1] == seq(n - 1, i requires 0 <= i < n - 1 => |xss[..n - 1][i]|);
    }
  }

  /** There is exactly one record per leaf (non-object) node of the tree. */
  lemma {:induction false} LeafCountMatches(path: Pointer, v: Json)
    ensures |Leaves(path, v)| == LeafCount(v)
    decreases v
  {
    if v.JObject? {
      var ms := v.members;
      var parts := Branches(path, ms, v);
      FlattenLength(parts);
      forall i | 0 <= i < |ms| ensures |parts[i]| == LeafCount(ms[i].1) {
        assert ms[i] in ms;
        LeafCountMatches(path + [ms[i].0], ms[i].1);
      }
      assert seq(|parts|, i requires 0 <= i < |parts| => |parts[i]|)
          == seq(|ms|, i requires 0 <= i < |ms| => LeafCount(ms[i].1));
    }
  }

  /** A feature value that is not an object yields exactly one record, at the path it was called with. */
  lemma ScalarValueIsOneRecord(path: Pointer, v: Json)
    requires !v.JObject?
    ensures Leaves(path, v) == [(path, v)]
    ensures LeafCount(v) == 1
  {
  }

  /** The records for the leaves, with the clock readings numbered from `start`. */
  function Stamp(thingId: string, featureId: string, leaves: seq<(Pointer, Json)>,
                 reading: nat -> Timestamp, start: nat): (r: seq<History>)
    ensures |r| == |leaves|
  {
    seq(|leaves|, k requires 0 <= k < |leaves| =>
      History(thingId, featureId, leaves[k].0, leaves[k].1, reading(start + k)))
  }

  lemma StampAppend(thingId: string, featureId: string, a: seq<(Pointer, Json)>, b: seq<(Pointer, Json)>,
                    reading: nat -> Timestamp, start: nat)
    ensures Stamp(thingId, featureId, a + b, reading, start)
         == Stamp(thingId, featureId, a, reading, start) + Stamp(thingId, featureId, b, reading, start + |a|)
  {
  }

  /** The records of the first i parts followed by those of part i are the records of the first i + 1 parts. */
  lemma CollectedOneMore(base: seq<History>, thingId: string, featureId: string, parts: seq<seq<(Pointer, Json)>>,
                         i: nat, reading: nat -> Timestamp, start: nat)
    requires i < |parts|
    ensures base + Stamp(thingId, featureId, Flatten(parts[..i]), reading, start)
                 + Stamp(thingId, featureId, parts[i], reading, start + |Flatten(parts[..i])|)
         == base + Stamp(thingId, featureId, Flatten(parts[..i + 1]), reading, start)
    ensures |Flatten(parts[..i + 1])| == |Flatten(parts[..i])| + |parts[i]|
  {
    var done := Flatten(parts[..i]);
    FlattenSnoc(parts, i);
    StampAppend(thingId, featureId, done, parts[i], reading, start);
  }

  /** The system clock, as the sequence of readings it gives. */
  class Clock {
    const reading: nat -> Timestamp
    var count: nat

    constructor (reading: nat -> Timestamp)
      ensures this.reading == reading && count == 0
    {
      this.reading := reading;
      count := 0;
    }

    /** `LocalDateTime.now()`: the next reading. */
    method Now() returns (t: Timestamp)
      modifies this
      ensures count == old(count) + 1
      ensures t == reading(old(count))
    {
      t := reading(count);
      count := count + 1;
    }
  }

  /** The list the records are collected into. */
  class RecordList {
    var records: seq<History>

    constructor ()
      ensures records == []
    {
      records := [];
    }

    method Add(h: History)
      modifies this
      ensures records == old(records) + [h]
    {
      records := records + [h];
    }
  }

  /**
   * `collectChanges`: appends to `target` one record per leaf of `value`, in
   * depth-first member order, each stamped with the clock at the moment it is
   * recorded. Existing records are kept.
   */
  method CollectChanges(target: RecordList, thingId: string, featureId: string, path: Pointer, value: Json, clock: Clock)
    modifies target, clock
    ensures target.records
         == old(target.records) + Stamp(thingId, featureId, Leaves(path, value), clock.reading, old(clock.count))
    ensures clock.count == old(clock.count) + |Leaves(path, value)|
    decreases value, 1
  {
    if value.JObject? {
      CollectMembers(target, thingId, featureId, path, value.members, value, clock);
    } else {
      var now := clock.Now();
      target.Add(History(thingId, featureId, path, value, now));
      assert Stamp(thingId, featureId, [(path, value)], clock.reading, old(clock.count))
          == [History(thingId, featureId, path, value, now)];
    }
  }

  /** The `forEach` over the members of object `parent`: collects each member's leaves in turn. */
  method CollectMembers(target: RecordList, thingId: string, featureId: string, path: Pointer,
                        ms: seq<(string, Json)>, ghost parent: Json, clock: Clock)
    requires parent == JObject(ms)
    modifies target, clock
    ensures target.records
         == old(target.records) + Stamp(thingId, featureId, Flatten(Branches(path, ms, parent)), clock.reading, old(clock.count))
    ensures clock.count == old(clock.count) + |Flatten(Branches(path, ms, parent))|
    decreases parent, 0
  {
    ghost var parts := Branches(path, ms, parent);
    ghost var base := target.records;
    ghost var start := clock.count;
    var i := 0;
    while i < |ms|
      invariant 0 <= i <= |ms|
      invariant target.records == base + Stamp(thingId, featureId, Flatten(parts[..i]), clock.reading, start)
      invariant clock.count == start + |Flatten(parts[..i])|
    {
      assert ms[i] in parent.members;
      CollectChanges(target, thingId, featureId, path + [ms[i].0], ms[i].1, clock);
      CollectedOneMore(base, thingId, featureId, parts, i, clock.reading, start);
      i := i + 1;
    }
    assert parts[..|ms|] == parts;
  }
}
