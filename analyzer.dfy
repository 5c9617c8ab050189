/** The JSON structure analyzer as the program runs it: one record, updated step by step by
    each helper. Each method is proved to leave the record exactly as the function of module
    Analysis that specifies it; what those functions promise is proved in modules
    AnalysisFacts, AnalysisCounts and RecommendFacts. The record is passed in and handed
    back, since every helper of the analyzer only ever updates the one record it is given. */
module JsonAnalyzer {
  import opened JsonValue
  import opened TabularMetrics
  import opened TreeMetrics
  import opened NestedArrays
  import opened Analysis
  import opened AnalysisFacts
  import opened AnalysisCounts
  import opened TabularLoops

  // ---------------------------------------------------------------------
  // calculateDepth

  /** One iteration of the loop of `calculateDepth`: the larger of the two is kept. */
  lemma MaxStep(ds: seq<nat>, i: nat, c: nat, maxDepth: nat, depth: nat)
    requires i < |ds|
    requires maxDepth == if i == 0 then c else c + 1 + MaxOf(ds[..i])
    requires depth == c + 1 + ds[i]
    ensures (if maxDepth >= depth then maxDepth else depth) == c + 1 + MaxOf(ds[..i + 1])
  {
    assert ds[..i + 1][..i] == ds[..i];
  }

  lemma DepthOfChildren(obj: Json, ds: seq<nat>, i: nat)
    requires ds == ChildDepths(obj) && i < |ds|
    ensures |ds| == |Children(obj)| && ds[i] == Depth(Child(obj, i))
  {
  }

  lemma DepthFromChildren(obj: Json, ds: seq<nat>)
    requires ds == ChildDepths(obj)
    ensures |ds| == |Children(obj)|
    ensures Depth(obj) == if |ds| == 0 then 0 else 1 + MaxOf(ds)
  {
  }

  /** `calculateDepth(obj, currentDepth)`: the deepest level reached below `obj`, counting
      `obj` itself at `currentDepth`. */
  method CalculateDepth(obj: Json, currentDepth: nat) returns (d: nat)
    ensures d == currentDepth + Depth(obj)
    decreases obj, 1
  {
    if !IsContainer(obj) {
      assert Children(obj) == [];
      return currentDepth;
    }
    d := DeepestChild(obj, currentDepth);
  }

  /** The two `for` loops of `calculateDepth`, over the elements of an array or the values
      of an object: the largest depth reached below any child, or `currentDepth` if there is
      no child. */
  method DeepestChild(obj: Json, currentDepth: nat) returns (maxDepth: nat)
    ensures maxDepth == currentDepth + Depth(obj)
    decreases obj, 0
  {
    ghost var ds := ChildDepths(obj);
    DepthFromChildren(obj, ds);
    maxDepth := currentDepth;
    var i := 0;
    while i < |Children(obj)|
      invariant 0 <= i <= |ds|
      invariant maxDepth == if i == 0 then currentDepth else currentDepth + 1 + MaxOf(ds[..i])
    {
      var depth := CalculateDepth(Child(obj, i), currentDepth + 1);
      DepthOfChildren(obj, ds, i);
      MaxStep(ds, i, currentDepth, maxDepth, depth);
      maxDepth := if maxDepth >= depth then maxDepth else depth;
      i := i + 1;
    }
    if i > 0 {
      assert ds[..i] == ds;
    }
  }

  // ---------------------------------------------------------------------
  // countStructures

  /** The first step of `countStructures`: the node itself is counted. */
  lemma OwnCounted(a: StructureAnalysis, obj: Json, r: StructureAnalysis)
    requires obj.JArr? ==> r == a.(arrayCount := a.arrayCount + 1)
    requires obj.JObj? ==> r == a.(objectCount := a.objectCount + 1)
    requires !IsContainer(obj) ==> r == a
    ensures r == AddNodes(a, Own(obj, true), Own(obj, false))
  {
  }

  /** The record once the first `i` children of `obj` have been walked. */
  ghost function Counted(a: StructureAnalysis, obj: Json, i: nat): StructureAnalysis
    requires i <= |Children(obj)|
  {
    AddNodes(a, ChildrenNodes(obj, i, true), ChildrenNodes(obj, i, false))
  }

  /** One iteration of the loop of `countStructures`, on the counts it has reached. */
  lemma ChildStep(a: StructureAnalysis, obj: Json, i: nat, before: StructureAnalysis, r: StructureAnalysis)
    requires i < |Children(obj)| && before == Counted(a, obj, i)
    requires r == if IsContainer(Child(obj, i)) then AddTree(before, Child(obj, i)) else before
    ensures r == Counted(a, obj, i + 1)
  {
    if !IsContainer(Child(obj, i)) {
      ScalarNodes(Child(obj, i), true);
      ScalarNodes(Child(obj, i), false);
    }
  }

  lemma ChildrenCounted(a: StructureAnalysis, obj: Json, r0: StructureAnalysis, r: StructureAnalysis)
    requires r0 == AddNodes(a, Own(obj, true), Own(obj, false))
    requires r == Counted(r0, obj, |Children(obj)|)
    ensures r == AddTree(a, obj)
  {
  }

  /** `countStructures(obj, analysis)`: every array and object node of `obj`, `obj`
      included, is added to the counts, and nothing else changes. */
  method CountStructures(obj: Json, a: StructureAnalysis) returns (r: StructureAnalysis)
    ensures r == AddTree(a, obj)
    decreases obj, 2
  {
    r := a;
    if obj.JArr? {
      r := r.(arrayCount := r.arrayCount + 1);
    } else if obj.JObj? {
      r := r.(objectCount := r.objectCount + 1);
    }
    OwnCounted(a, obj, r);
    ghost var r0 := r;
    r := CountChildren(obj, r);
    ChildrenCounted(a, obj, r0, r);
  }

  /** The `forEach` of `countStructures` over the elements of an array or the values of an
      object: each one that is an array or object is walked in turn. */
  method CountChildren(obj: Json, a: StructureAnalysis) returns (r: StructureAnalysis)
    ensures r == Counted(a, obj, |Children(obj)|)
    decreases obj, 1
  {
    r := a;
    var i := 0;
    while i < |Children(obj)|
      invariant 0 <= i <= |Children(obj)| && r == Counted(a, obj, i)
    {
      r := CountChild(obj, i, a, r);
      i := i + 1;
    }
  }

  /** The body of the `forEach` of `countStructures`: the `i`-th child of `obj`, if it is an
      array or object, is walked. */
  method CountChild(obj: Json, i: nat, ghost a: StructureAnalysis, b: StructureAnalysis) returns (r: StructureAnalysis)
    requires i < |Children(obj)| && b == Counted(a, obj, i)
    ensures r == Counted(a, obj, i + 1)
    decreases obj, 0
  {
    var item := Child(obj, i);
    r := b;
    if IsContainer(item) {
      r := CountStructures(item, r);
    }
    ChildStep(a, obj, i, b, r);
  }

  // ---------------------------------------------------------------------
  // analyzeArray

  /** The metrics the loops of `analyzeArray` compute are those of `TableOf`. */
  lemma TableFromLoops(arr: seq<Json>, rows: seq<Row>, c: real, allFields: set<string>, fieldCounts: seq<(string, nat)>,
                       nullCount: nat, totalValues: nat, fieldTypes: seq<(string, set<string>)>, m: Metrics)
    requires arr != [] && AllObjects(arr) && rows == Rows(arr)
    requires c == Consistency(Schemas(rows))
    requires allFields == FieldSet(KeyLists(rows))
    requires fieldCounts == CountList(KeyLists(rows))
    requires nullCount == NullCount(rows) && totalValues == TotalValues(rows)
    requires fieldTypes == KindList(KindRows(rows))
    requires m.consistency == c && m.tabular == (c > 80.0) && m.totalFields == SumValues(fieldCounts)
    requires m.uniqueFieldNames == |allFields|
    requires m.variance == if |allFields| == 0 then NaN else Finite(Percent(CountBelow(fieldCounts, |arr|), |allFields|))
    requires m.sparseity == if totalValues > 0 then Percent(nullCount, totalValues) else 0.0
    requires m.mixed == AnyMixed(fieldTypes)
    ensures TableOf(arr) == m
  {
    CountListSum(KeyLists(rows));
  }

  lemma AnyNestedSnoc(items: seq<Json>, i: nat)
    requires i < |items|
    ensures AnyNested(items[..i + 1]) == (AnyNested(items[..i]) || HasNestedArrays(items[i]))
  {
    var p := items[..i + 1];
    assert p[i] == items[i];
    if AnyNested(items[..i]) {
      var k :| 0 <= k < i && HasNestedArrays(items[..i][k]);
      assert p[k] == items[k];
    }
  }

  /** The metrics part of `analyzeArray`, run on an array of objects: the seven metrics are
      written one field at a time, then the nested-array flag may be switched on. */
  method MeasureTable(arr: seq<Json>, a: StructureAnalysis) returns (r: StructureAnalysis)
    requires arr != [] && AllObjects(arr)
    ensures r == ArrayMetrics(a, arr)
  {
    var m := Tabulate(arr);
    r := a.(schemaConsistency := m.consistency);
    r := r.(isTabular := r.schemaConsistency > 80.0);
    r := r.(totalFields := m.totalFields);
    r := r.(uniqueFieldNames := m.uniqueFieldNames);
    r := r.(fieldVariance := m.variance);
    r := r.(dataSparseity := m.sparseity);
    r := r.(mixedTypes := m.mixed);
    r := FlagNested(arr, r);
  }

  /** The seven metrics of an array of objects, computed by the loops of `analyzeArray`. */
  method Tabulate(arr: seq<Json>) returns (m: Metrics)
    requires arr != [] && AllObjects(arr)
    ensures m == TableOf(arr) && m.tabular == (m.consistency > 80.0)
  {
    var rows := Rows(arr);
    var schemas := Schemas(rows);
    var c := Consistency(schemas);
    var allFields, fieldCounts := TallyFields(rows);
    var inconsistentFields := CountBelow(fieldCounts, |arr|);
    var variance := if |allFields| == 0 then NaN else Finite(Percent(inconsistentFields, |allFields|));
    var nullCount, totalValues := CountNulls(rows);
    var sparseity := if totalValues > 0 then Percent(nullCount, totalValues) else 0.0;
    var fieldTypes := CollectKinds(rows);
    m := Metrics(c, c > 80.0, SumValues(fieldCounts), |allFields|, variance, sparseity, AnyMixed(fieldTypes));
    TableFromLoops(arr, rows, c, allFields, fieldCounts, nullCount, totalValues, fieldTypes, m);
  }

  /** The nested-array flag switched on when `b` holds, and left as it was otherwise. */
  function OrNested(a: StructureAnalysis, b: bool): StructureAnalysis
  {
    a.(hasNestedArrays := a.hasNestedArrays || b)
  }

  /** The loop of `analyzeArray` that switches `hasNestedArrays` on when some element holds
      nested arrays; it never switches it off. */
  method FlagNested(arr: seq<Json>, a: StructureAnalysis) returns (r: StructureAnalysis)
    ensures r == OrNested(a, AnyNested(arr))
  {
    r := a;
    var i := 0;
    while i < |arr|
      invariant 0 <= i <= |arr|
      invariant r == OrNested(a, AnyNested(arr[..i]))
    {
      AnyNestedSnoc(arr, i);
      if HasNestedArrays(arr[i]) {
        r := r.(hasNestedArrays := true);
      }
      i := i + 1;
    }
    assert arr[..i] == arr;
  }

  lemma ContainersSnoc(items: seq<Json>, i: nat)
    requires i < |items|
    ensures ContainersIn(items[..i + 1]) == ContainersIn(items[..i]) + (if IsContainer(items[i]) then 1 else 0)
  {
    assert items[..i + 1][..i] == items[..i];
  }

  lemma ItemsNodesSnoc(items: seq<Json>, i: nat, arrays: bool)
    requires i < |items|
    ensures ItemsNodes(items[..i + 1], arrays) == ItemsNodes(items[..i], arrays) + Nodes(items[i], arrays)
  {
    assert items[..i + 1][..i] == items[..i];
  }

  lemma MeasureWhen(x: StructureAnalysis, arr: seq<Json>)
    requires arr != [] && AllObjects(arr)
    ensures Measure(x, arr) == ArrayMetrics(x, arr)
  {
  }

  lemma MeasureUnless(x: StructureAnalysis, arr: seq<Json>)
    requires arr != [] && !AllObjects(arr)
    ensures Measure(x, arr) == x
  {
  }

  /** One step of the last loop of `analyzeArray`: the element is counted as an object and
      walked when it is an array or object, and skipped otherwise. */
  lemma ElementStep(x: StructureAnalysis, arr: seq<Json>, i: nat, b: StructureAnalysis, r: StructureAnalysis)
    requires i < |arr| && b == CountItems(x, arr[..i])
    requires r == if IsContainer(arr[i]) then AddTree(b.(objectCount := b.objectCount + 1), arr[i]) else b
    ensures r == CountItems(x, arr[..i + 1])
  {
    ContainersSnoc(arr, i);
    ItemsNodesSnoc(arr, i, true);
    ItemsNodesSnoc(arr, i, false);
    if !IsContainer(arr[i]) {
      ScalarNodes(arr[i], true);
      ScalarNodes(arr[i], false);
    }
  }

  /** The last loop of `analyzeArray`: each array or object element is counted as an object
      (whatever it is) and then walked by `countStructures`. */
  method CountElements(arr: seq<Json>, x: StructureAnalysis) returns (r: StructureAnalysis)
    ensures r == CountItems(x, arr)
  {
    r := x;
    var i := 0;
    while i < |arr|
      invariant 0 <= i <= |arr| && r == CountItems(x, arr[..i])
    {
      r := CountElement(arr, i, x, r);
      i := i + 1;
    }
    assert arr[..i] == arr;
  }

  /** One iteration of the last loop of `analyzeArray`: an array or object element is
      counted as an object, then walked by `countStructures`. */
  method CountElement(arr: seq<Json>, i: nat, ghost x: StructureAnalysis, b: StructureAnalysis) returns (r: StructureAnalysis)
    requires i < |arr| && b == CountItems(x, arr[..i])
    ensures r == CountItems(x, arr[..i + 1])
  {
    r := b;
    if IsContainer(arr[i]) {
      r := r.(objectCount := r.objectCount + 1);
      r := CountStructures(arr[i], r);
    }
    ElementStep(x, arr, i, b, r);
  }

  /** `analyzeArray(arr, analysis)`. */
  method AnalyzeArray(arr: seq<Json>, a: StructureAnalysis) returns (r: StructureAnalysis)
    ensures r == AnalyzeArraySpec(arr, a)
  {
    r := a.(hasArrays := true);
    r := r.(arrayCount := r.arrayCount + 1);
    if |arr| == 0 {
      r := r.(isTabular := false);
      return;
    }
    ghost var r0 := r;
    assert r0 == ArrayOpened(a);
    var allObjects := AllObjects(arr);
    if allObjects {
      r := MeasureTable(arr, r);
      MeasureWhen(r0, arr);
    } else {
      MeasureUnless(r0, arr);
    }
    r := CountElements(arr, r);
    ArrayOnItems(arr, a);
  }

  // ---------------------------------------------------------------------
  // analyzeObject

  lemma ObjectOpened(fields: seq<(string, Json)>, a: StructureAnalysis, keys: seq<string>, r: StructureAnalysis)
    requires keys == Keys(fields)
    requires r == a.(objectCount := a.objectCount + 1).(uniqueFieldNames := |keys|)
    ensures r == ObjectStart(fields, a)
  {
  }

  lemma ArrayOpenedWritten(before: StructureAnalysis, r: StructureAnalysis)
    requires r == before.(hasArrays := true).(arrayCount := before.arrayCount + 1)
    ensures r == ArrayOpened(before)
  {
  }

  lemma FoldSnoc(a: StructureAnalysis, fields: seq<(string, Json)>, i: nat)
    requires i < |fields|
    ensures ObjectFold(a, fields[..i + 1]) == ObjectStep(ObjectFold(a, fields[..i]), fields[i].1)
  {
    assert fields[..i + 1][..i] == fields[..i];
    FoldLast(a, fields[..i + 1]);
  }

  /** One iteration of the loop of `analyzeObject`: an array value is counted and, when it
      has elements, analysed; an object value is walked by `countStructures`; any other value
      leaves the record as it is. */
  method AnalyzeEntry(v: Json, a: StructureAnalysis) returns (r: StructureAnalysis)
    ensures r == ObjectStep(a, v)
  {
    r := a;
    if v.JArr? {
      r := r.(hasArrays := true);
      r := r.(arrayCount := r.arrayCount + 1);
      ArrayOpenedWritten(a, r);
      if |v.items| > 0 {
        r := AnalyzeArray(v.items, r);
        StepOnArray(a, v);
      } else {
        StepOnEmptyArray(a, v);
      }
    } else if v.JObj? {
      r := CountStructures(v, r);
      StepOnObject(a, v);
    } else {
      StepOnScalar(a, v);
    }
  }

  /** `analyzeObject(obj, analysis)`, the object's entries in key order. */
  method AnalyzeObject(fields: seq<(string, Json)>, a: StructureAnalysis) returns (r: StructureAnalysis)
    ensures r == AnalyzeObjectSpec(fields, a)
  {
    r := a.(objectCount := a.objectCount + 1);
    var keys := Keys(fields);
    r := r.(uniqueFieldNames := |keys|);
    ObjectOpened(fields, a, keys, r);
    ghost var r1 := r;
    var i := 0;
    while i < |fields|
      invariant 0 <= i <= |fields|
      invariant r == ObjectFold(r1, fields[..i])
    {
      FoldSnoc(r1, fields, i);
      r := AnalyzeEntry(fields[i].1, r);
      i := i + 1;
    }
    assert fields[..i] == fields;
    var hasNestedStructures := exists k | 0 <= k < |fields| :: IsContainer(fields[k].1);
    if !hasNestedStructures {
      r := r.(isFlat := true);
    }
  }

  // ---------------------------------------------------------------------
  // determineRecommendation

  /** The record once the store and the confidence are set, before the reasons are. */
  function Decided(a: StructureAnalysis): StructureAnalysis
  {
    a.(recommendedStorage := Decide(a), confidence := Confidence(a))
  }

  lemma DecidedAs(a: StructureAnalysis, s: Storage, c: real)
    requires Decide(a) == s && Confidence(a) == c
    ensures Decided(a) == a.(recommendedStorage := s).(confidence := c)
  {
  }

  lemma RecommendFrom(a: StructureAnalysis, r: StructureAnalysis, reasons: seq<Reason>)
    requires r == Decided(a)
    requires reasons == Reasons(a)
    ensures r.(reasoning := reasons) == Recommend(a)
  {
  }

  /** The pushes of the first branch. */
  lemma ConsistentChain(a: StructureAnalysis, r1: seq<Reason>, r2: seq<Reason>, rs: seq<Reason>)
    requires r1 == Push([HighConsistency, ConsistentStructure], a.isFlat, FlatEnhances)
    requires r2 == Push(r1, a.isTabular, TabularFormat)
    requires rs == Push(r2, Below(a.fieldVariance, 20.0), LowVariance)
    ensures rs == ConsistentReasons(a)
  {
  }

  /** The pushes of the second branch. */
  lemma CleanChain(a: StructureAnalysis, r2: seq<Reason>, rs: seq<Reason>)
    requires r2 == Push(Push([FewMissingValues, CleanTabularData], a.isTabular, TabularFormat), a.isFlat, FlatSuits)
    requires rs == r2 + [OptionalFields]
    ensures rs == CleanReasons(a)
  {
  }

  /** The pushes of the third branch, one checkpoint at a time. */
  lemma InconsistentChain(a: StructureAnalysis, r1: seq<Reason>, r2: seq<Reason>, rs: seq<Reason>)
    requires r1 == Push(Push([HighInconsistency, FlexibleSchema], Above(a.fieldVariance, 70.0), ExtremeVariance),
      !Above(a.fieldVariance, 70.0) && Above(a.fieldVariance, 40.0), HighVariance)
    requires r2 == Push(r1, a.schemaConsistency < 30.0, VeryLowConsistency)
    requires rs == StructureReasons(a, r2)
    ensures rs == InconsistentReasons(a)
  {
  }

  /** The last four pushes of the inconsistent case, one per structural flag. */
  method PushStructureReasons(a: StructureAnalysis, r0: seq<Reason>) returns (reasons: seq<Reason>)
    ensures reasons == StructureReasons(a, r0)
  {
    reasons := r0;
    if a.isDeeplyNested {
      reasons := reasons + [DeepNesting];
    }
    ghost var r1 := reasons;
    if a.hasNestedArrays {
      reasons := reasons + [NestedArraysHandled];
    }
    ghost var r2 := reasons;
    if a.dataSparseity > 30.0 {
      reasons := reasons + [SparseData];
    }
    ghost var r3 := reasons;
    if a.mixedTypes {
      reasons := reasons + [MixedFieldTypes];
    }
    StructureChain(a, r0, r1, r2, r3, reasons);
  }

  lemma StructureChain(a: StructureAnalysis, r0: seq<Reason>, r1: seq<Reason>, r2: seq<Reason>, r3: seq<Reason>, rs: seq<Reason>)
    requires r1 == Push(r0, a.isDeeplyNested, DeepNesting)
    requires r2 == Push(r1, a.hasNestedArrays, NestedArraysHandled)
    requires r3 == Push(r2, a.dataSparseity > 30.0, SparseData)
    requires rs == Push(r3, a.mixedTypes, MixedFieldTypes)
    ensures rs == StructureReasons(a, r0)
  {
  }

  /** The first branch of `determineRecommendation`: PostgreSQL, as confident as the schema is consistent. */
  method ConsistentBranch(a: StructureAnalysis) returns (r: StructureAnalysis, reasons: seq<Reason>)
    requires ConsistentRule(a)
    ensures r == Decided(a) && reasons == ConsistentReasons(a)
  {
    reasons := [];
    r := a;
    r := r.(recommendedStorage := Postgres);
    r := r.(confidence := a.schemaConsistency);
    reasons := reasons + [HighConsistency];
    reasons := reasons + [ConsistentStructure];
    ghost var r0 := reasons;
    if a.isFlat {
      reasons := reasons + [FlatEnhances];
    }
    assert reasons == Push(r0, a.isFlat, FlatEnhances);
    ghost var r1 := reasons;
    if a.isTabular {
      reasons := reasons + [TabularFormat];
    }
    assert reasons == Push(r1, a.isTabular, TabularFormat);
    ghost var r2 := reasons;
    if Below(a.fieldVariance, 20.0) {
      reasons := reasons + [LowVariance];
    }
    assert reasons == Push(r2, Below(a.fieldVariance, 20.0), LowVariance);
    ConsistentChain(a, r1, r2, reasons);
    DecidedAs(a, Postgres, a.schemaConsistency);
  }

  /** The second branch: PostgreSQL for clean data with moderate field variance. */
  method CleanBranch(a: StructureAnalysis) returns (r: StructureAnalysis, reasons: seq<Reason>)
    requires !ConsistentRule(a) && CleanRule(a)
    ensures r == Decided(a) && reasons == CleanReasons(a)
  {
    reasons := [];
    r := a;
    r := r.(recommendedStorage := Postgres);
    r := r.(confidence := MinReal(100.0 - a.dataSparseity, 100.0 - a.fieldVariance.v / 2.0));
    reasons := reasons + [FewMissingValues];
    reasons := reasons + [CleanTabularData];
    ghost var r0 := reasons;
    if a.isTabular {
      reasons := reasons + [TabularFormat];
    }
    assert reasons == Push(r0, a.isTabular, TabularFormat);
    ghost var r1 := reasons;
    if a.isFlat {
      reasons := reasons + [FlatSuits];
    }
    assert reasons == Push(r1, a.isFlat, FlatSuits);
    ghost var r2 := reasons;
    reasons := reasons + [OptionalFields];
    CleanChain(a, r2, reasons);
    DecidedAs(a, Postgres, MinReal(100.0 - a.dataSparseity, 100.0 - a.fieldVariance.v / 2.0));
  }

  /** The last branch: MongoDB, as confident as the schema is inconsistent. */
  method InconsistentBranch(a: StructureAnalysis) returns (r: StructureAnalysis, reasons: seq<Reason>)
    requires !ConsistentRule(a) && !CleanRule(a)
    ensures r == Decided(a) && reasons == InconsistentReasons(a)
  {
    reasons := [];
    r := a;
    r := r.(recommendedStorage := MongoDB);
    r := r.(confidence := 100.0 - a.schemaConsistency);
    reasons := reasons + [HighInconsistency];
    reasons := reasons + [FlexibleSchema];
    ghost var r0 := reasons;
    if Above(a.fieldVariance, 70.0) {
      reasons := reasons + [ExtremeVariance];
    } else if Above(a.fieldVariance, 40.0) {
      reasons := reasons + [HighVariance];
    }
    assert reasons == Push(Push(r0, Above(a.fieldVariance, 70.0), ExtremeVariance),
      !Above(a.fieldVariance, 70.0) && Above(a.fieldVariance, 40.0), HighVariance);
    ghost var r1 := reasons;
    if a.schemaConsistency < 30.0 {
      reasons := reasons + [VeryLowConsistency];
    }
    assert reasons == Push(r1, a.schemaConsistency < 30.0, VeryLowConsistency);
    ghost var r2 := reasons;
    reasons := PushStructureReasons(a, reasons);
    InconsistentChain(a, r1, r2, reasons);
    DecidedAs(a, MongoDB, 100.0 - a.schemaConsistency);
  }

  /** `determineRecommendation(analysis)`: the first rule that applies sets the store and
      the confidence, and `reasons` collects the messages as they are pushed. */
  method DetermineRecommendation(a: StructureAnalysis) returns (r: StructureAnalysis)
    ensures r == Recommend(a)
  {
    var reasons: seq<Reason>;
    if a.schemaConsistency >= 90.0 {
      r, reasons := ConsistentBranch(a);
    } else if a.dataSparseity <= 15.0 && Below(a.fieldVariance, 50.0) {
      r, reasons := CleanBranch(a);
    } else {
      r, reasons := InconsistentBranch(a);
    }
    RecommendFrom(a, r, reasons);
    r := r.(reasoning := reasons);
  }

  // ---------------------------------------------------------------------
  // analyzeJsonStructure

  /** `analyzeJsonStructure(data)`. */
  method AnalyzeJsonStructure(data: Json) returns (r: StructureAnalysis)
    ensures r == Analyze(data)
  {
    r := Fresh();
    var depth := CalculateDepth(data, 0);
    r := r.(nestingDepth := depth);
    r := r.(isFlat := r.nestingDepth <= 2);
    r := r.(isDeeplyNested := r.nestingDepth > 3);
    assert r == WithDepth(data);
    match data {
      case JArr(items) =>
        r := AnalyzeArray(items, r);
      case JObj(fields) =>
        r := AnalyzeObject(fields, r);
      case _ =>
    }
    assert r == Structure(data);
    r := DetermineRecommendation(r);
  }
}
