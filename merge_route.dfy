/** The merge endpoint: checking a request, and merging the JSON content of two stored
    files by one of four strategies. */
module MergeRoute {
  import opened JsonValue
  import opened ObjectFields

  // ---------------------------------------------------------------------
  // Deep merge

  /** `deepMerge(obj1, obj2)`: arrays are concatenated, two plain objects are merged key
      by key, and in every other pairing the second value wins. */
  function DeepMergeOf(a: Json, b: Json): Json
    decreases b, 1, 0
  {
    if a.JArr? && b.JArr? then JArr(a.items + b.items)
    else if a.JObj? && b.JObj? then JObj(MergeFields(a.fields, b, |b.fields|))
    else b
  }

  /** The copy of the first object after the `for..in` loop has visited the first `n` keys
      of `b`: a key already present is merged with the new value, a new key is added. */
  function MergeFields(result: Fields, b: Json, n: nat): Fields
    requires b.JObj? && n <= |b.fields|
    decreases b, 0, n
  {
    if n == 0 then result else MergeInto(MergeFields(result, b, n - 1), b.fields[n - 1].0, Child(b, n - 1))
  }

  /** One turn of the loop: `result[key]` becomes the deep merge of its old value with
      `value` when the key is present, and `value` otherwise. */
  function MergeInto(result: Fields, key: string, value: Json): Fields
    decreases value, 2
  {
    var at := KeyIndex(result, key);
    Assign(result, key, if at < 0 then value else DeepMergeOf(result[at].1, value))
  }

  /** `deepMerge(obj1, obj2)`, building the merged object on a copy of the first. */
  method DeepMerge(obj1: Json, obj2: Json) returns (r: Json)
    ensures r == DeepMergeOf(obj1, obj2)
    decreases obj2
  {
    if obj1.JArr? && obj2.JArr? {
      return JArr(obj1.items + obj2.items);
    }
    if obj1.JObj? && obj2.JObj? {
      var result := obj1.fields;
      var i := 0;
      while i < |obj2.fields|
        invariant i <= |obj2.fields|
        invariant result == MergeFields(obj1.fields, obj2, i)
      {
        var key := obj2.fields[i].0;
        var value := Child(obj2, i);
        var at := KeyIndex(result, key);
        if at >= 0 {
          var merged := DeepMerge(result[at].1, value);
          result := result[at := (key, merged)];
        } else {
          result := result + [(key, value)];
        }
        i := i + 1;
      }
      return JObj(result);
    }
    return obj2;
  }

  // ---------------------------------------------------------------------
  // Strategies

  datatype Strategy = Shallow | Deep | Override | Combine

  /** The `case` label the strategy parameter matches, if any: only the four exact
      strings do. */
  function ParseStrategy(strategy: Json): (r: Option<Strategy>)
    ensures r.Some? <==> strategy in [JStr("shallow"), JStr("deep"), JStr("override"), JStr("combine")]
  {
    if strategy == JStr("shallow") then Some(Shallow)
    else if strategy == JStr("deep") then Some(Deep)
    else if strategy == JStr("override") then Some(Override)
    else if strategy == JStr("combine") then Some(Combine)
    else None
  }

  /** The merged data a strategy produces. */
  function ApplyStrategy(kind: Strategy, data1: Json, data2: Json): Json
  {
    match kind
    case Shallow => ShallowMerge(data1, data2)
    case Deep => DeepMergeOf(data1, data2)
    case Override => data2
    case Combine => JObj([("file1", data1), ("file2", data2)])
  }

  /** The `switch` on the strategy. */
  method MergeByStrategy(kind: Strategy, data1: Json, data2: Json) returns (r: Json)
    ensures r == ApplyStrategy(kind, data1, data2)
  {
    match kind
    case Shallow =>
      r := ShallowMerge(data1, data2);
    case Deep =>
      r := DeepMerge(data1, data2);
    case Override =>
      r := data2;
    case Combine =>
      r := JObj([("file1", data1), ("file2", data2)]);
  }

  /** `override` keeps the second file's data, and `combine` builds an object holding the
      keys `file1` and `file2` only, with the two files' data. */
  lemma StrategyFacts(data1: Json, data2: Json)
    ensures ApplyStrategy(Override, data1, data2) == data2
    ensures var m := ApplyStrategy(Combine, data1, data2);
      && m.JObj? && Keys(m.fields) == ["file1", "file2"]
      && Lookup(m.fields, "file1") == Some(data1) && Lookup(m.fields, "file2") == Some(data2)
  {
    var fields := [("file1", data1), ("file2", data2)];
    assert Keys(fields) == ["file1", "file2"];
    assert Distinct(Keys(fields));
    LookupAt(fields, 0);
    LookupAt(fields, 1);
  }

  // ---------------------------------------------------------------------
  // The request

  /** The five parameters of the request body, each as it was parsed (absent ones null). */
  datatype MergeRequest = MergeRequest(
    file1Id: Json, file1StorageType: Json, file2Id: Json, file2StorageType: Json, strategy: Json)

  /** The part of a stored file's record the checks read. */
  datatype StoredFile = StoredFile(extension: string)

  /** The response: the merged data that is written back to the first file, or an error
      status with its message. */
  datatype MergeOutcome = Done(merged: Json) | Failed(status: nat, error: string)

  predicate AllGiven(req: MergeRequest)
  {
    && Truthy(req.file1Id) && Truthy(req.file1StorageType)
    && Truthy(req.file2Id) && Truthy(req.file2StorageType) && Truthy(req.strategy)
  }

  /** `POST /api/files/merge`, given what the two file lookups found and the parsed
      contents of the two files (nothing when reading or parsing throws). */
  function HandleMerge(req: MergeRequest, file1: Option<StoredFile>, file2: Option<StoredFile>,
                       data1: Option<Json>, data2: Option<Json>): MergeOutcome
  {
    if !AllGiven(req) then Failed(400, "All parameters are required")
    else if file1.None? || file2.None? then Failed(404, "One or both files not found")
    else if file1.value.extension != "json" || file2.value.extension != "json" then Failed(400, "Both files must be JSON files")
    else if data1.None? || data2.None? then Failed(500, "Failed to merge files")
    else
      match ParseStrategy(req.strategy)
      case None => Failed(400, "Invalid merge strategy")
      case Some(kind) => Done(ApplyStrategy(kind, data1.value, data2.value))
  }

  /** A request merges exactly when every parameter is truthy, both files exist, both are
      JSON files, both contents parse and the strategy is known; a missing file answers
      404 only once the parameters are all given; bad parameters, a non-JSON file and an
      unknown strategy answer 400, and nothing is written then. */
  lemma HandleMergeIff(req: MergeRequest, file1: Option<StoredFile>, file2: Option<StoredFile>,
                       data1: Option<Json>, data2: Option<Json>)
    ensures var r := HandleMerge(req, file1, file2, data1, data2);
      && (r.Done? <==>
          && AllGiven(req) && file1.Some? && file2.Some?
          && file1.value.extension == "json" && file2.value.extension == "json"
          && data1.Some? && data2.Some? && ParseStrategy(req.strategy).Some?)
      && (r.Done? ==> r.merged == ApplyStrategy(ParseStrategy(req.strategy).value, data1.value, data2.value))
      && (r.Failed? && r.status == 404 <==> AllGiven(req) && (file1.None? || file2.None?))
      && (!AllGiven(req) ==> r == Failed(400, "All parameters are required"))
      && (AllGiven(req) && file1.Some? && file2.Some?
          && (file1.value.extension != "json" || file2.value.extension != "json") ==>
            r == Failed(400, "Both files must be JSON files"))
      && (AllGiven(req) && file1.Some? && file2.Some?
          && file1.value.extension == "json" && file2.value.extension == "json"
          && data1.Some? && data2.Some? && ParseStrategy(req.strategy).None? ==>
            r == Failed(400, "Invalid merge strategy"))
  {
  }
}
