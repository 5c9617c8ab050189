/** What the analysis record holds once the analyzer has run: the metrics are percentages
    that agree with one another, the depth flags agree with the depth, and the metrics come
    from the last array the analyzer measured. */
module AnalysisFacts {
  import opened JsonValue
  import opened TabularMetrics
  import opened TreeMetrics
  import opened Analysis

  // ---------------------------------------------------------------------
  // The metrics are consistent percentages

  /** Consistency and sparseity are percentages, variance is a percentage or NaN (and NaN
      only alongside full consistency), and the tabular flag is set exactly above 80%. */
  predicate MetricsValid(m: Metrics)
  {
    && 0.0 <= m.consistency <= 100.0
    && 0.0 <= m.sparseity <= 100.0
    && (m.variance.Finite? ==> 0.0 <= m.variance.v <= 100.0)
    && (m.variance.NaN? ==> m.consistency == 100.0)
    && (m.tabular <==> m.consistency > 80.0)
  }

  /** Every element is a parsed JSON value, so no object repeats a key. */
  predicate AllWellFormed(items: seq<Json>)
  {
    forall i | 0 <= i < |items| :: WellFormed(items[i])
  }

  /** The metrics of any non-empty array of parsed objects are valid. */
  lemma TableValid(items: seq<Json>)
    requires items != [] && AllObjects(items) && AllWellFormed(items)
    ensures MetricsValid(TableOf(items))
  {
    var rows := Rows(items);
    var kl := KeyLists(rows);
    ConsistencyRange(Schemas(rows));
    SparseityRange(rows);
    forall i | 0 <= i < |kl| ensures Distinct(kl[i]) {
      assert WellFormed(items[i]);
    }
    VarianceMeaning(kl);
    if FieldVariance(kl).NaN? {
      NoFieldsFullConsistency(rows);
    }
  }

  /** The record after `analyzeArray`'s first two lines (and after the array test in `analyzeObject`'s loop). */
  function ArrayOpened(a: StructureAnalysis): StructureAnalysis
  {
    a.(hasArrays := true, arrayCount := a.arrayCount + 1)
  }

  lemma ArrayOnItems(items: seq<Json>, a: StructureAnalysis)
    requires items != []
    ensures AnalyzeArraySpec(items, a) == CountItems(Measure(ArrayOpened(a), items), items)
  {
  }

  lemma CountsKeepMetrics(x: StructureAnalysis, items: seq<Json>)
    ensures MetricsOf(CountItems(x, items)) == MetricsOf(x)
  {
  }

  lemma MeasureMetrics(x: StructureAnalysis, items: seq<Json>)
    requires items != []
    ensures MetricsOf(Measure(x, items)) == if AllObjects(items) then TableOf(items) else MetricsOf(x)
  {
    if AllObjects(items) {
      var m := TableOf(items);
      assert ArrayMetrics(x, items) == WithMetrics(x, m).(hasNestedArrays := x.hasNestedArrays || AnyNested(items));
    }
  }

  /** `analyzeArray` on an empty array only clears the tabular flag among the metrics. */
  lemma ArrayEmptyMetrics(a: StructureAnalysis)
    ensures MetricsOf(AnalyzeArraySpec([], a)) == MetricsOf(a).(tabular := false)
  {
  }

  /** `analyzeArray` on a non-empty array of objects overwrites every metric with the
      array's own. */
  lemma ArrayMeasuredMetrics(items: seq<Json>, a: StructureAnalysis)
    requires items != [] && AllObjects(items)
    ensures MetricsOf(AnalyzeArraySpec(items, a)) == TableOf(items)
  {
    var a1 := ArrayOpened(a);
    ArrayOnItems(items, a);
    CountsKeepMetrics(Measure(a1, items), items);
    MeasureMetrics(a1, items);
  }

  /** `analyzeArray` on a non-empty array holding a non-object leaves the metrics alone. */
  lemma ArrayUnmeasuredMetrics(items: seq<Json>, a: StructureAnalysis)
    requires items != [] && !AllObjects(items)
    ensures MetricsOf(AnalyzeArraySpec(items, a)) == MetricsOf(a)
  {
    var a1 := ArrayOpened(a);
    ArrayOnItems(items, a);
    CountsKeepMetrics(Measure(a1, items), items);
    MeasureMetrics(a1, items);
  }

  /** `analyzeArray` keeps the metrics valid; an empty array clears the tabular flag, which
      agrees with the old consistency only when that was at most 80. */
  lemma ArrayKeepsValid(items: seq<Json>, a: StructureAnalysis)
    requires MetricsValid(MetricsOf(a)) && AllWellFormed(items)
    requires items == [] ==> a.schemaConsistency <= 80.0
    ensures MetricsValid(MetricsOf(AnalyzeArraySpec(items, a)))
  {
    if items == [] {
      ArrayEmptyMetrics(a);
    } else if AllObjects(items) {
      ArrayMeasuredMetrics(items, a);
      TableValid(items);
    } else {
      ArrayUnmeasuredMetrics(items, a);
    }
  }

  /** An array `analyzeArray` measures: non-empty, every element a plain object. */
  predicate Measured(v: Json)
  {
    v.JArr? && v.items != [] && AllObjects(v.items)
  }

  lemma StepOnArray(a: StructureAnalysis, v: Json)
    requires v.JArr? && v.items != []
    ensures ObjectStep(a, v) == AnalyzeArraySpec(v.items, ArrayOpened(a))
  {
  }

  lemma StepOnEmptyArray(a: StructureAnalysis, v: Json)
    requires v.JArr? && v.items == []
    ensures ObjectStep(a, v) == ArrayOpened(a)
  {
  }

  lemma StepOnObject(a: StructureAnalysis, v: Json)
    requires v.JObj?
    ensures ObjectStep(a, v) == AddTree(a, v)
  {
  }

  lemma StepOnScalar(a: StructureAnalysis, v: Json)
    requires !IsContainer(v)
    ensures ObjectStep(a, v) == a
  {
  }

  /** A step of the object loop on a measured array overwrites the metrics with its own. */
  lemma StepMeasured(a: StructureAnalysis, v: Json)
    requires Measured(v)
    ensures MetricsOf(ObjectStep(a, v)) == TableOf(v.items)
  {
    StepOnArray(a, v);
    ArrayMeasuredMetrics(v.items, ArrayOpened(a));
  }

  /** A step of the object loop on any other value leaves the metrics alone. */
  lemma StepUnmeasured(a: StructureAnalysis, v: Json)
    requires !Measured(v)
    ensures MetricsOf(ObjectStep(a, v)) == MetricsOf(a)
  {
    if v.JArr? && v.items != [] {
      StepOnArray(a, v);
      ArrayUnmeasuredMetrics(v.items, ArrayOpened(a));
    } else if v.JArr? {
      StepOnEmptyArray(a, v);
    } else if v.JObj? {
      StepOnObject(a, v);
    } else {
      StepOnScalar(a, v);
    }
  }

  /** The record `analyzeObject` starts its loop from. */
  function ObjectStart(fields: seq<(string, Json)>, a: StructureAnalysis): StructureAnalysis
  {
    a.(objectCount := a.objectCount + 1, uniqueFieldNames := |fields|)
  }

  lemma ObjectSpecMetrics(fields: seq<(string, Json)>, a: StructureAnalysis)
    ensures MetricsOf(AnalyzeObjectSpec(fields, a)) == MetricsOf(ObjectFold(ObjectStart(fields, a), fields))
  {
  }

  lemma {:induction false} FoldKeepsValid(a: StructureAnalysis, fields: seq<(string, Json)>)
    requires MetricsValid(MetricsOf(a))
    requires forall i | 0 <= i < |fields| :: WellFormed(fields[i].1)
    ensures MetricsValid(MetricsOf(ObjectFold(a, fields)))
  {
    if fields != [] {
      var init := fields[..|fields| - 1];
      var v := fields[|fields| - 1].1;
      FoldKeepsValid(a, init);
      if Measured(v) {
        StepMeasured(ObjectFold(a, init), v);
        TableValid(v.items);
      } else {
        StepUnmeasured(ObjectFold(a, init), v);
      }
    }
  }

  lemma StructureOfArray(items: seq<Json>)
    ensures Structure(JArr(items)) == AnalyzeArraySpec(items, WithDepth(JArr(items)))
  {
  }

  lemma StructureOfObject(fields: seq<(string, Json)>)
    ensures Structure(JObj(fields)) == AnalyzeObjectSpec(fields, WithDepth(JObj(fields)))
  {
  }

  /** The metrics of the record before the recommendation are valid for every parsed value. */
  lemma StructureValid(data: Json)
    requires WellFormed(data)
    ensures MetricsValid(MetricsOf(Structure(data)))
  {
    match data
    case JArr(items) =>
      StructureOfArray(items);
      ArrayKeepsValid(items, WithDepth(data));
    case JObj(fields) =>
      StructureOfObject(fields);
      ObjectSpecMetrics(fields, WithDepth(data));
      FoldKeepsValid(ObjectStart(fields, WithDepth(data)), fields);
    case _ =>
  }

  // ---------------------------------------------------------------------
  // The last measured array wins

  /** With no measured array among the values, the loop leaves the metrics alone. */
  lemma {:induction false} FoldUnmeasured(a: StructureAnalysis, fields: seq<(string, Json)>)
    requires forall k | 0 <= k < |fields| :: !Measured(fields[k].1)
    ensures MetricsOf(ObjectFold(a, fields)) == MetricsOf(a)
  {
    if fields != [] {
      var init := fields[..|fields| - 1];
      FoldUnmeasured(a, init);
      StepUnmeasured(ObjectFold(a, init), fields[|fields| - 1].1);
    }
  }

  /** The loop leaves the metrics of the last measured array, in key order. */
  lemma {:induction false} FoldLastWins(a: StructureAnalysis, fields: seq<(string, Json)>, i: nat)
    requires i < |fields| && Measured(fields[i].1)
    requires forall k | i < k < |fields| :: !Measured(fields[k].1)
    ensures MetricsOf(ObjectFold(a, fields)) == TableOf(fields[i].1.items)
  {
    var init := fields[..|fields| - 1];
    var v := fields[|fields| - 1].1;
    if i < |fields| - 1 {
      FoldLastWins(a, init, i);
      StepUnmeasured(ObjectFold(a, init), v);
    } else {
      StepMeasured(ObjectFold(a, init), v);
    }
  }

  /** For a root object, the metrics are those of its last measured array value. */
  lemma ObjectLastWins(fields: seq<(string, Json)>, i: nat)
    requires i < |fields| && Measured(fields[i].1)
    requires forall k | i < k < |fields| :: !Measured(fields[k].1)
    ensures MetricsOf(Structure(JObj(fields))) == TableOf(fields[i].1.items)
  {
    StructureOfObject(fields);
    ObjectSpecMetrics(fields, WithDepth(JObj(fields)));
    FoldLastWins(ObjectStart(fields, WithDepth(JObj(fields))), fields, i);
  }

  /** A value with no measured array at the root or directly under a root object. */
  predicate Unmeasured(data: Json)
  {
    && !Measured(data)
    && (data.JObj? ==> forall k | 0 <= k < |data.fields| :: !Measured(data.fields[k].1))
  }

  /** Without a measured array, every metric the rules read keeps its starting value. */
  lemma UnmeasuredMetrics(data: Json)
    requires Unmeasured(data)
    ensures var s := Structure(data);
      && s.schemaConsistency == 0.0 && s.fieldVariance == Finite(0.0) && s.dataSparseity == 0.0
      && !s.isTabular && !s.mixedTypes
  {
    match data
    case JArr(items) =>
      StructureOfArray(items);
      if items == [] {
        ArrayEmptyMetrics(WithDepth(data));
      } else {
        ArrayUnmeasuredMetrics(items, WithDepth(data));
      }
    case JObj(fields) =>
      StructureOfObject(fields);
      ObjectSpecMetrics(fields, WithDepth(data));
      FoldUnmeasured(ObjectStart(fields, WithDepth(data)), fields);
    case _ =>
  }

  // ---------------------------------------------------------------------
  // Depth flags

  /** The depth fields of the record. */
  function DepthFields(a: StructureAnalysis): (nat, bool, bool)
  {
    (a.nestingDepth, a.isFlat, a.isDeeplyNested)
  }

  lemma MeasureKeepsDepth(x: StructureAnalysis, items: seq<Json>)
    requires items != []
    ensures DepthFields(Measure(x, items)) == DepthFields(x)
  {
  }

  lemma CountsKeepDepth(x: StructureAnalysis, items: seq<Json>)
    ensures DepthFields(CountItems(x, items)) == DepthFields(x)
  {
  }

  lemma ArrayKeepsDepth(items: seq<Json>, a: StructureAnalysis)
    ensures DepthFields(AnalyzeArraySpec(items, a)) == DepthFields(a)
  {
    if items != [] {
      var a1 := ArrayOpened(a);
      ArrayOnItems(items, a);
      MeasureKeepsDepth(a1, items);
      CountsKeepDepth(Measure(a1, items), items);
    }
  }

  lemma StepKeepsDepth(a: StructureAnalysis, v: Json)
    ensures DepthFields(ObjectStep(a, v)) == DepthFields(a)
  {
    if v.JArr? && v.items != [] {
      StepOnArray(a, v);
      ArrayKeepsDepth(v.items, ArrayOpened(a));
    } else if v.JArr? {
      StepOnEmptyArray(a, v);
    } else if v.JObj? {
      StepOnObject(a, v);
    } else {
      StepOnScalar(a, v);
    }
  }

  lemma {:induction false} FoldKeepsDepth(a: StructureAnalysis, fields: seq<(string, Json)>)
    ensures DepthFields(ObjectFold(a, fields)) == DepthFields(a)
  {
    if fields != [] {
      var init := fields[..|fields| - 1];
      FoldKeepsDepth(a, init);
      StepKeepsDepth(ObjectFold(a, init), fields[|fields| - 1].1);
    }
  }

  /** `nestingDepth` is the depth, `isFlat` holds exactly at depth 2 or less and
      `isDeeplyNested` exactly above 3: the later switch to flat for an object without
      nested values only fires at depth 1 or less. */
  lemma DepthFlags(data: Json)
    ensures var s := Structure(data);
      && s.nestingDepth == Depth(data)
      && (s.isFlat <==> Depth(data) <= 2)
      && (s.isDeeplyNested <==> Depth(data) > 3)
  {
    if data.JArr? {
      StructureOfArray(data.items);
      ArrayKeepsDepth(data.items, WithDepth(data));
    } else if data.JObj? {
      var fields := data.fields;
      StructureOfObject(fields);
      FoldKeepsDepth(ObjectStart(fields, WithDepth(data)), fields);
      if NoNestedValues(fields) {
        forall k | 0 <= k < |Children(data)| ensures !IsContainer(Child(data, k)) {
          assert Child(data, k) == fields[k].1;
        }
        ShallowDepth(data);
      }
    }
  }
}
