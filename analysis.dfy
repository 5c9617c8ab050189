/** The analysis record the JSON structure analyzer fills in, and what each of its steps
    does to that record, stated as functions. The imperative steps in module JsonAnalyzer
    are proved to compute exactly these. */
module Analysis {
  import opened JsonValue
  import opened TabularMetrics
  import opened TreeMetrics
  import opened NestedArrays

  datatype Storage = Postgres | MongoDB

  /** The messages of `reasoning`, one tag per message the analyzer can give. The text of a
      message, and the figures it prints (which are fields of the same record), are not
      modelled. */
  datatype Reason =
    | HighConsistency | ConsistentStructure | FlatEnhances | TabularFormat | LowVariance
    | FewMissingValues | CleanTabularData | FlatSuits | OptionalFields
    | HighInconsistency | FlexibleSchema | ExtremeVariance | HighVariance
    | VeryLowConsistency | DeepNesting | NestedArraysHandled | SparseData | MixedFieldTypes

  datatype StructureAnalysis = StructureAnalysis(
    nestingDepth: nat,
    schemaConsistency: real,
    fieldVariance: Double,
    dataSparseity: real,
    mixedTypes: bool,
    isTabular: bool,
    isFlat: bool,
    isDeeplyNested: bool,
    hasArrays: bool,
    hasNestedArrays: bool,
    totalFields: nat,
    uniqueFieldNames: nat,
    arrayCount: nat,
    objectCount: nat,
    recommendedStorage: Storage,
    confidence: real,
    reasoning: seq<Reason>)

  /** The record `analyzeJsonStructure` starts from. */
  function Fresh(): StructureAnalysis
  {
    StructureAnalysis(0, 0.0, Finite(0.0), 0.0, false, false, false, false, false, false,
      0, 0, 0, 0, Postgres, 0.0, [])
  }

  /** `x < bound` on a number that may be NaN (every comparison with NaN is false). */
  predicate Below(x: Double, bound: real)
  {
    x.Finite? && x.v < bound
  }

  /** `x > bound` on a number that may be NaN. */
  predicate Above(x: Double, bound: real)
  {
    x.Finite? && x.v > bound
  }

  // ---------------------------------------------------------------------
  // analyzeArray

  /** Every element is a non-null, non-array object. */
  predicate AllObjects(items: seq<Json>)
  {
    forall i | 0 <= i < |items| :: items[i].JObj?
  }

  /** The rows of an array of objects: each element's entries in key order. */
  function Rows(items: seq<Json>): (rows: seq<Row>)
    requires AllObjects(items)
    ensures |rows| == |items| && forall i | 0 <= i < |items| :: rows[i] == items[i].fields
  {
    seq(|items|, i requires 0 <= i < |items| => items[i].fields)
  }

  /** Some element holds a nested array. */
  predicate AnyNested(items: seq<Json>)
  {
    exists i | 0 <= i < |items| :: HasNestedArrays(items[i])
  }

  /** The metrics `analyzeArray` computes for a non-empty array of objects and writes into
      the record, overwriting whatever an earlier array left there. */
  datatype Metrics = Metrics(
    consistency: real, tabular: bool, totalFields: nat, uniqueFieldNames: nat,
    variance: Double, sparseity: real, mixed: bool)

  /** The metrics of a non-empty array of objects. */
  function TableOf(items: seq<Json>): Metrics
    requires items != [] && AllObjects(items)
  {
    var rows := Rows(items);
    var kl := KeyLists(rows);
    var c := Consistency(Schemas(rows));
    Metrics(c, c > 80.0, TotalEntries(kl), |FieldSet(kl)|, FieldVariance(kl), Sparseity(rows),
      AnyMixed(KindList(KindRows(rows))))
  }

  /** The metric fields of the record. */
  function MetricsOf(a: StructureAnalysis): Metrics
  {
    Metrics(a.schemaConsistency, a.isTabular, a.totalFields, a.uniqueFieldNames, a.fieldVariance,
      a.dataSparseity, a.mixedTypes)
  }

  function WithMetrics(a: StructureAnalysis, m: Metrics): StructureAnalysis
  {
    a.(schemaConsistency := m.consistency, isTabular := m.tabular, totalFields := m.totalFields,
       uniqueFieldNames := m.uniqueFieldNames, fieldVariance := m.variance,
       dataSparseity := m.sparseity, mixedTypes := m.mixed)
  }

  /** The metrics written into the record; the nested-array flag is only ever switched on. */
  function ArrayMetrics(a: StructureAnalysis, items: seq<Json>): StructureAnalysis
    requires items != [] && AllObjects(items)
  {
    WithMetrics(a, TableOf(items)).(hasNestedArrays := a.hasNestedArrays || AnyNested(items))
  }

  /** How many elements are arrays or objects. */
  function ContainersIn(items: seq<Json>): nat
  {
    if items == [] then 0
    else ContainersIn(items[..|items| - 1]) + (if IsContainer(items[|items| - 1]) then 1 else 0)
  }

  /** The array nodes (when `arrays` holds) or the object nodes of the elements; none for a
      scalar. */
  function ItemsNodes(items: seq<Json>, arrays: bool): nat
  {
    if items == [] then 0
    else ItemsNodes(items[..|items| - 1], arrays) + Nodes(items[|items| - 1], arrays)
  }

  /** Some arrays and objects added to the counts. */
  function AddNodes(a: StructureAnalysis, arrays: nat, objects: nat): StructureAnalysis
  {
    a.(arrayCount := a.arrayCount + arrays, objectCount := a.objectCount + objects)
  }

  /** Every array and object node of the tree rooted at `j` added to the counts. */
  function AddTree(a: StructureAnalysis, j: Json): StructureAnalysis
  {
    AddNodes(a, Nodes(j, true), Nodes(j, false))
  }

  /** The final loop of `analyzeArray`: each array or object element is counted once more,
      then walked by `countStructures`. */
  function CountItems(a: StructureAnalysis, items: seq<Json>): StructureAnalysis
  {
    AddNodes(a.(objectCount := a.objectCount + ContainersIn(items)),
      ItemsNodes(items, true), ItemsNodes(items, false))
  }

  /** The metrics step of `analyzeArray`: only an array of objects is measured. */
  function Measure(a: StructureAnalysis, items: seq<Json>): StructureAnalysis
    requires items != []
  {
    if AllObjects(items) then ArrayMetrics(a, items) else a
  }

  /** `analyzeArray(items, analysis)`. */
  function AnalyzeArraySpec(items: seq<Json>, a: StructureAnalysis): StructureAnalysis
  {
    var a1 := a.(hasArrays := true, arrayCount := a.arrayCount + 1);
    if items == [] then a1.(isTabular := false) else CountItems(Measure(a1, items), items)
  }

  // ---------------------------------------------------------------------
  // analyzeObject

  /** One iteration of the loop over the root object's values. */
  function ObjectStep(a: StructureAnalysis, v: Json): StructureAnalysis
  {
    if v.JArr? then
      var a1 := a.(hasArrays := true, arrayCount := a.arrayCount + 1);
      if |v.items| > 0 then AnalyzeArraySpec(v.items, a1) else a1
    else if v.JObj? then AddTree(a, v)
    else a
  }

  /** The loop over the root object's entries, in key order. */
  function ObjectFold(a: StructureAnalysis, fields: seq<(string, Json)>): StructureAnalysis
  {
    if fields == [] then a
    else ObjectStep(ObjectFold(a, fields[..|fields| - 1]), fields[|fields| - 1].1)
  }

  /** No value of the object is an array or a (non-null) object. */
  predicate NoNestedValues(fields: seq<(string, Json)>)
  {
    forall i | 0 <= i < |fields| :: !IsContainer(fields[i].1)
  }

  /** `analyzeObject(obj, analysis)`. */
  function AnalyzeObjectSpec(fields: seq<(string, Json)>, a: StructureAnalysis): StructureAnalysis
  {
    var a1 := a.(objectCount := a.objectCount + 1, uniqueFieldNames := |fields|);
    var a2 := ObjectFold(a1, fields);
    if NoNestedValues(fields) then a2.(isFlat := true) else a2
  }

  // ---------------------------------------------------------------------
  // determineRecommendation

  /** `Math.min`. */
  function MinReal(x: real, y: real): real
  {
    if x <= y then x else y
  }

  /** The first rule: high schema consistency. */
  predicate ConsistentRule(a: StructureAnalysis)
  {
    a.schemaConsistency >= 90.0
  }

  /** The second rule: few nulls and moderate field variance. */
  predicate CleanRule(a: StructureAnalysis)
  {
    a.dataSparseity <= 15.0 && Below(a.fieldVariance, 50.0)
  }

  /** `if (c) reasons.push(x)`. */
  function Push(rs: seq<Reason>, c: bool, x: Reason): seq<Reason>
  {
    if c then rs + [x] else rs
  }

  /** The reasons given when the consistency rule decides. */
  function ConsistentReasons(a: StructureAnalysis): seq<Reason>
  {
    var r := Push([HighConsistency, ConsistentStructure], a.isFlat, FlatEnhances);
    var r := Push(r, a.isTabular, TabularFormat);
    Push(r, Below(a.fieldVariance, 20.0), LowVariance)
  }

  /** The reasons given when the clean-data rule decides. */
  function CleanReasons(a: StructureAnalysis): seq<Reason>
  {
    var r := Push([FewMissingValues, CleanTabularData], a.isTabular, TabularFormat);
    var r := Push(r, a.isFlat, FlatSuits);
    Push(r, true, OptionalFields)
  }

  /** The reasons given when neither rule applies; at most one of the two variance reasons. */
  function InconsistentReasons(a: StructureAnalysis): seq<Reason>
  {
    var r := Push([HighInconsistency, FlexibleSchema], Above(a.fieldVariance, 70.0), ExtremeVariance);
    var r := Push(r, !Above(a.fieldVariance, 70.0) && Above(a.fieldVariance, 40.0), HighVariance);
    var r := Push(r, a.schemaConsistency < 30.0, VeryLowConsistency);
    StructureReasons(a, r)
  }

  /** The last four reasons of the inconsistent case, one per structural flag, appended to `r`. */
  function StructureReasons(a: StructureAnalysis, r: seq<Reason>): seq<Reason>
  {
    var r := Push(r, a.isDeeplyNested, DeepNesting);
    var r := Push(r, a.hasNestedArrays, NestedArraysHandled);
    var r := Push(r, a.dataSparseity > 30.0, SparseData);
    Push(r, a.mixedTypes, MixedFieldTypes)
  }

  /** The store the first applicable rule picks. */
  function Decide(a: StructureAnalysis): Storage
  {
    if ConsistentRule(a) || CleanRule(a) then Postgres else MongoDB
  }

  /** The confidence the first applicable rule gives. */
  function Confidence(a: StructureAnalysis): real
  {
    if ConsistentRule(a) then a.schemaConsistency
    else if CleanRule(a) then MinReal(100.0 - a.dataSparseity, 100.0 - a.fieldVariance.v / 2.0)
    else 100.0 - a.schemaConsistency
  }

  /** The reasons the first applicable rule gives. */
  function Reasons(a: StructureAnalysis): seq<Reason>
  {
    if ConsistentRule(a) then ConsistentReasons(a)
    else if CleanRule(a) then CleanReasons(a)
    else InconsistentReasons(a)
  }

  /** `determineRecommendation(analysis)`: the first rule that applies decides. */
  function Recommend(a: StructureAnalysis): StructureAnalysis
  {
    a.(recommendedStorage := Decide(a), confidence := Confidence(a), reasoning := Reasons(a))
  }

  // ---------------------------------------------------------------------
  // analyzeJsonStructure

  /** The record after the depth flags are set, before the structure is analysed. */
  function WithDepth(data: Json): StructureAnalysis
  {
    var d := Depth(data);
    Fresh().(nestingDepth := d, isFlat := d <= 2, isDeeplyNested := d > 3)
  }

  /** The record before the recommendation: the array or object analysis, if any. */
  function Structure(data: Json): StructureAnalysis
  {
    match data
    case JArr(items) => AnalyzeArraySpec(items, WithDepth(data))
    case JObj(fields) => AnalyzeObjectSpec(fields, WithDepth(data))
    case _ => WithDepth(data)
  }

  /** `analyzeJsonStructure(data)`. */
  function Analyze(data: Json): StructureAnalysis
  {
    Recommend(Structure(data))
  }
}
