/**
 * The JSON values carried by feature changes, and their conversion to the
 * plain Java objects written to the history store (`getJavaValue`).
 */
module JsonValues {
  import opened Common

  /** A JSON number as written in the payload. */
  datatype Number =
    | IntLiteral(value: int)    // an optionally signed run of decimal digits
    | OtherLiteral(text: string) // with a fraction or an exponent: readable only as a double

  /** A JSON node. Object members keep the object's iteration order. */
  datatype Json =
    | JNull
    | JBool(b: bool)
    | JNumber(n: Number)
    | JString(s: string)
    | JArray(elements: seq<Json>)
    | JObject(members: seq<(string, Json)>)
    | JOther(rendering: string) // a node of no recognised kind, with its string rendering

  /** The Java object a JSON node is stored as. */
  datatype JavaValue =
    | JavaNull
    | JavaInteger(i: int)
    | JavaLong(l: int)
    | JavaDouble(source: Number) // the double parsed from this literal; floating point is not modelled
    | JavaBoolean(b: bool)
    | JavaString(s: string)
    | JavaArray(items: seq<JavaValue>)
    | JavaMap(entries: map<string, JavaValue>)

  predicate FitsInt(x: int) {
    INT_MIN <= x <= INT_MAX
  }

  predicate FitsLong(x: int) {
    LONG_MIN <= x <= LONG_MAX
  }

  /** The keys of the first `n` members of an object. */
  ghost function KeysOf(ms: seq<(string, Json)>, n: nat): set<string>
    requires n <= |ms|
  {
    set i | 0 <= i < n :: ms[i].0
  }

  /** Member `i` is the last one among the first `n` that carries its key. */
  ghost predicate LastWithKey(ms: seq<(string, Json)>, i: nat, n: nat)
    requires i < n <= |ms|
  {
    forall j :: i < j < n ==> ms[j].0 != ms[i].0
  }

  /** How a number is stored: as an int if it fits, else as a long if it fits, else as a double. */
  ghost predicate NumberFits(n: Number, r: JavaValue) {
    match n
    case IntLiteral(x) =>
      if FitsInt(x) then r == JavaInteger(x)
      else if FitsLong(x) then r == JavaLong(x)
      else r == JavaDouble(n)
    case OtherLiteral(_) => r == JavaDouble(n)
  }

  /**
   * `r` is a faithful Java representation of `v`: kinds correspond, arrays keep
   * length and order, an object becomes a map over the same keys in which each
   * key holds the value of its last member.
   */
  ghost predicate Fits(v: Json, r: JavaValue)
    decreases v
  {
    match v
    case JNull => r == JavaNull
    case JBool(b) => r == JavaBoolean(b)
    case JNumber(n) => NumberFits(n, r)
    case JString(s) => r == JavaString(s)
    case JOther(t) => r == JavaString(t)
    case JArray(a) =>
      && r.JavaArray?
      && |r.items| == |a|
      && forall i :: 0 <= i < |a| ==> Fits(a[i], r.items[i])
    case JObject(ms) =>
      && r.JavaMap?
      && r.entries.Keys == KeysOf(ms, |ms|)
      && forall i :: 0 <= i < |ms| && LastWithKey(ms, i, |ms|) ==>
           ms[i].0 in r.entries && Fits(ms[i].1, r.entries[ms[i].0])
  }

  function NumberValue(n: Number): (r: JavaValue)
    ensures NumberFits(n, r)
  {
    match n
    case IntLiteral(x) =>
      if FitsInt(x) then JavaInteger(x)
      else if FitsLong(x) then JavaLong(x)
      else JavaDouble(n)
    case OtherLiteral(_) => JavaDouble(n)
  }

  /** `getJavaValue`: total, structural conversion of a JSON node. */
  function GetJavaValue(v: Json): (r: JavaValue)
    ensures Fits(v, r)
    decreases v, 1
  {
    match v
    case JNull => JavaNull
    case JNumber(n) => NumberValue(n)
    case JBool(b) => JavaBoolean(b)
    case JString(s) => JavaString(s)
    case JArray(a) => JavaArray(seq(|a|, i requires 0 <= i < |a| => GetJavaValue(a[i])))
    case JObject(ms) => JavaMap(FillMap(ms, |ms|, v))
    case JOther(t) => JavaString(t)
  }

  /** The map after putting the first `n` members of object `parent`, in order, into an empty map. */
  function FillMap(ms: seq<(string, Json)>, n: nat, ghost parent: Json): (m: map<string, JavaValue>)
    requires parent == JObject(ms) && n <= |ms|
    ensures m.Keys == KeysOf(ms, n)
    ensures forall i :: 0 <= i < n && LastWithKey(ms, i, n) ==>
              ms[i].0 in m && Fits(ms[i].1, m[ms[i].0])
    decreases parent, 0, n
  {
    if n == 0 then map[]
    else
      assert ms[n - 1] in parent.members;
      var prev := FillMap(ms, n - 1, parent);
      var x := GetJavaValue(ms[n - 1].1);
      FillMapStep(ms, n, prev, x);
      prev[ms[n - 1].0 := x]
  }

  /** Putting member `n - 1` into the map of the first `n - 1` members gives the map of the first `n`. */
  lemma FillMapStep(ms: seq<(string, Json)>, n: nat, prev: map<string, JavaValue>, x: JavaValue)
    requires 0 < n <= |ms|
    requires prev.Keys == KeysOf(ms, n - 1)
    requires forall i :: 0 <= i < n - 1 && LastWithKey(ms, i, n - 1) ==>
               ms[i].0 in prev && Fits(ms[i].1, prev[ms[i].0])
    requires Fits(ms[n - 1].1, x)
    ensures prev[ms[n - 1].0 := x].Keys == KeysOf(ms, n)
    ensures forall i :: 0 <= i < n && LastWithKey(ms, i, n) ==>
              ms[i].0 in prev[ms[n - 1].0 := x] && Fits(ms[i].1, prev[ms[n - 1].0 := x][ms[i].0])
  {
    var m := prev[ms[n - 1].0 := x];
    assert KeysOf(ms, n) == KeysOf(ms, n - 1) + {ms[n - 1].0};
    forall i | 0 <= i < n && LastWithKey(ms, i, n)
      ensures ms[i].0 in m && Fits(ms[i].1, m[ms[i].0])
    {
      if i < n - 1 {
        assert ms[n - 1].0 != ms[i].0;
        assert LastWithKey(ms, i, n - 1);
      }
    }
  }

  /** Some member with key `k` is the last to carry it. */
  lemma {:induction false} LastMemberExists(ms: seq<(string, Json)>, k: string)
    requires k in KeysOf(ms, |ms|)
    ensures exists i :: 0 <= i < |ms| && ms[i].0 == k && LastWithKey(ms, i, |ms|)
  {
    var i :| 0 <= i < |ms| && ms[i].0 == k;
    while exists j :: i < j < |ms| && ms[j].0 == k
      invariant 0 <= i < |ms| && ms[i].0 == k
      decreases |ms| - i
    {
      var j :| i < j < |ms| && ms[j].0 == k;
      i := j;
    }
  }

  /** `Fits` determines the representation: the normalisation is unique. */
  lemma {:induction false} FitsIsFunctional(v: Json, r1: JavaValue, r2: JavaValue)
    requires Fits(v, r1) && Fits(v, r2)
    ensures r1 == r2
    decreases v
  {
    match v
    case JArray(a) =>
      forall i | 0 <= i < |a| ensures r1.items[i] == r2.items[i] {
        FitsIsFunctional(a[i], r1.items[i], r2.items[i]);
      }
    case JObject(ms) =>
      forall k | k in r1.entries.Keys ensures r1.entries[k] == r2.entries[k] {
        LastMemberExists(ms, k);
        var i :| 0 <= i < |ms| && ms[i].0 == k && LastWithKey(ms, i, |ms|);
        assert ms[i] in ms;
        FitsIsFunctional(ms[i].1, r1.entries[k], r2.entries[k]);
      }
    case _ =>
  }

  /** An array keeps its length and is normalised element by element, in order. */
  lemma ArrayNormalised(a: seq<Json>)
    ensures GetJavaValue(JArray(a)).JavaArray?
    ensures |GetJavaValue(JArray(a)).items| == |a|
    ensures forall i :: 0 <= i < |a| ==> GetJavaValue(JArray(a)).items[i] == GetJavaValue(a[i])
  {
    var r := GetJavaValue(JArray(a));
    forall i | 0 <= i < |a| ensures r.items[i] == GetJavaValue(a[i]) {
      FitsIsFunctional(a[i], r.items[i], GetJavaValue(a[i]));
    }
  }

  /** An object becomes a map over the same keys; each key holds its last member's value, normalised. */
  lemma ObjectNormalised(ms: seq<(string, Json)>)
    ensures GetJavaValue(JObject(ms)).JavaMap?
    ensures GetJavaValue(JObject(ms)).entries.Keys == KeysOf(ms, |ms|)
    ensures forall i :: 0 <= i < |ms| && LastWithKey(ms, i, |ms|) ==>
              GetJavaValue(JObject(ms)).entries[ms[i].0] == GetJavaValue(ms[i].1)
  {
    var r := GetJavaValue(JObject(ms));
    forall i | 0 <= i < |ms| && LastWithKey(ms, i, |ms|)
      ensures r.entries[ms[i].0] == GetJavaValue(ms[i].1)
    {
      FitsIsFunctional(ms[i].1, r.entries[ms[i].0], GetJavaValue(ms[i].1));
    }
  }
}
