/** JSON values as the application sees them after parsing: an untyped tree whose
    objects keep their keys in insertion order. */
module JsonValue {

  datatype Option<+T> = None | Some(value: T)

  datatype Json =
    | JNull
    | JBool(b: bool)
    | JNum(n: real)
    | JStr(s: string)
    | JArr(items: seq<Json>)
    | JObj(fields: seq<(string, Json)>)

  /** The keys of an object, or of any association list, in order. */
  function Keys<V>(fields: seq<(string, V)>): (ks: seq<string>)
    ensures |ks| == |fields|
    ensures forall i | 0 <= i < |fields| :: ks[i] == fields[i].0
  {
    if fields == [] then [] else [fields[0].0] + Keys(fields[1..])
  }

  /** The values of an object, in key order. */
  function Values(fields: seq<(string, Json)>): seq<Json>
  {
    seq(|fields|, i requires 0 <= i < |fields| => fields[i].1)
  }

  /** The direct children of a value: array elements, or object values in key order. */
  function Children(j: Json): seq<Json>
  {
    match j
    case JArr(items) => items
    case JObj(fields) => Values(fields)
    case _ => []
  }

  lemma ChildSmaller(j: Json, i: nat)
    requires i < |Children(j)|
    ensures Children(j)[i] < j
  {
    if j.JObj? {
      assert Children(j)[i] == j.fields[i].1;
    }
  }

  /** The `i`-th child, which is smaller than its parent. */
  function Child(j: Json, i: nat): (c: Json)
    requires i < |Children(j)|
    ensures c < j
  {
    ChildSmaller(j, i);
    Children(j)[i]
  }

  /** `typeof v === "object" && v !== null`: arrays and objects. */
  predicate IsContainer(j: Json)
  {
    j.JArr? || j.JObj?
  }

  /** A non-null, non-array object. */
  predicate IsPlainObject(j: Json)
  {
    j.JObj?
  }

  /** JavaScript's `typeof` for a parsed JSON value: `null` reports "object". */
  function TypeOf(j: Json): (t: string)
    ensures t == "object" <==> j.JNull? || IsContainer(j)
  {
    match j
    case JNull => "object"
    case JBool(_) => "boolean"
    case JNum(_) => "number"
    case JStr(_) => "string"
    case JArr(_) => "object"
    case JObj(_) => "object"
  }

  /** JavaScript truthiness: null, false, 0 and "" are falsy; every array and object is truthy. */
  predicate Truthy(j: Json)
  {
    match j
    case JNull => false
    case JBool(b) => b
    case JNum(n) => n != 0.0
    case JStr(s) => s != ""
    case _ => true
  }

  predicate Distinct<T(==)>(s: seq<T>)
  {
    forall i, j | 0 <= i < j < |s| :: s[i] != s[j]
  }

  /** Every object in the tree has pairwise distinct keys, as every parsed JSON object does. */
  predicate WellFormed(j: Json)
    decreases j
  {
    match j
    case JArr(items) => forall i | 0 <= i < |items| :: WellFormed(items[i])
    case JObj(fields) =>
      Distinct(Keys(fields)) && forall i | 0 <= i < |fields| :: WellFormed(fields[i].1)
    case _ => true
  }

  /** The position of key `k` (the last one, if keys repeat), or -1 when it is absent. */
  function KeyIndex(fields: seq<(string, Json)>, k: string): (i: int)
    ensures -1 <= i < |fields|
    ensures i >= 0 ==> fields[i].0 == k
    ensures forall j | i < j < |fields| :: fields[j].0 != k
  {
    if fields == [] then -1
    else if fields[|fields| - 1].0 == k then |fields| - 1
    else KeyIndex(fields[..|fields| - 1], k)
  }

  /** Where keys are distinct, the position of a key is the one position holding it. */
  lemma KeyIndexUnique(fields: seq<(string, Json)>, j: nat)
    requires j < |fields| && Distinct(Keys(fields))
    ensures KeyIndex(fields, fields[j].0) == j
  {
    var k := fields[j].0;
    var i := KeyIndex(fields, k);
    assert j <= i;
    assert Keys(fields)[j] == Keys(fields)[i];
    DistinctAt(Keys(fields), j, i);
  }

  lemma DistinctAt<T>(s: seq<T>, a: nat, b: nat)
    requires Distinct(s) && a < |s| && b < |s| && s[a] == s[b]
    ensures a == b
  {
  }

  /** A key is absent exactly when it is not among the keys. */
  lemma KeyIndexAbsent(fields: seq<(string, Json)>, k: string)
    ensures KeyIndex(fields, k) < 0 <==> k !in Keys(fields)
  {
    if k in Keys(fields) {
      var j :| 0 <= j < |fields| && Keys(fields)[j] == k;
      assert fields[j].0 == k;
    }
  }

  /** The value stored under key `k`, if any (the last one, if keys repeat). */
  function Lookup(fields: seq<(string, Json)>, k: string): (r: Option<Json>)
    ensures r.None? <==> k !in Keys(fields)
  {
    KeyIndexAbsent(fields, k);
    var i := KeyIndex(fields, k);
    if i < 0 then None else Some(fields[i].1)
  }

  lemma LookupAt(fields: seq<(string, Json)>, i: nat)
    requires i < |fields| && Distinct(Keys(fields))
    ensures Lookup(fields, fields[i].0) == Some(fields[i].1)
  {
    KeyIndexUnique(fields, i);
  }
}
