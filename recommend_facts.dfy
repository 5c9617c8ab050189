/** What `determineRecommendation` promises: the first of three rules that applies decides
    the store, the confidence is a percentage, and each optional reason is given exactly
    when its condition holds. */
module RecommendFacts {
  import opened JsonValue
  import opened TabularMetrics
  import opened Analysis
  import opened AnalysisFacts

  /** The store is PostgreSQL exactly when the consistency rule or the clean-data rule
      applies; the first rule that applies sets the confidence and the leading reason, and
      there are always at least two reasons. */
  lemma RecommendRules(a: StructureAnalysis)
    ensures Decide(a) == Postgres <==> ConsistentRule(a) || CleanRule(a)
    ensures |Reasons(a)| >= 2
    ensures ConsistentRule(a) ==> Confidence(a) == a.schemaConsistency && Reasons(a)[0] == HighConsistency
    ensures !ConsistentRule(a) && CleanRule(a) ==>
      && Confidence(a) == MinReal(100.0 - a.dataSparseity, 100.0 - a.fieldVariance.v / 2.0)
      && Reasons(a)[0] == FewMissingValues
    ensures !ConsistentRule(a) && !CleanRule(a) ==>
      Confidence(a) == 100.0 - a.schemaConsistency && Reasons(a)[0] == HighInconsistency
  {
    var r := Push([HighConsistency, ConsistentStructure], a.isFlat, FlatEnhances);
    PushKeepsHead(r, a.isTabular, TabularFormat);
    PushKeepsHead(Push(r, a.isTabular, TabularFormat), Below(a.fieldVariance, 20.0), LowVariance);
    var c := Push([FewMissingValues, CleanTabularData], a.isTabular, TabularFormat);
    PushKeepsHead(c, a.isFlat, FlatSuits);
    PushKeepsHead(Push(c, a.isFlat, FlatSuits), true, OptionalFields);
    InconsistentHead(a);
  }

  lemma PushKeepsHead(rs: seq<Reason>, c: bool, x: Reason)
    requires |rs| >= 2
    ensures |Push(rs, c, x)| >= 2 && Push(rs, c, x)[0] == rs[0]
  {
  }

  lemma InconsistentHead(a: StructureAnalysis)
    ensures |InconsistentReasons(a)| >= 2 && InconsistentReasons(a)[0] == HighInconsistency
  {
    var r := [HighInconsistency, FlexibleSchema];
    var c1 := Above(a.fieldVariance, 70.0);
    var c2 := !Above(a.fieldVariance, 70.0) && Above(a.fieldVariance, 40.0);
    var r1 := Push(r, c1, ExtremeVariance);
    PushKeepsHead(r, c1, ExtremeVariance);
    var r2 := Push(r1, c2, HighVariance);
    PushKeepsHead(r1, c2, HighVariance);
    var r3 := Push(r2, a.schemaConsistency < 30.0, VeryLowConsistency);
    PushKeepsHead(r2, a.schemaConsistency < 30.0, VeryLowConsistency);
    var r4 := Push(r3, a.isDeeplyNested, DeepNesting);
    PushKeepsHead(r3, a.isDeeplyNested, DeepNesting);
    var r5 := Push(r4, a.hasNestedArrays, NestedArraysHandled);
    PushKeepsHead(r4, a.hasNestedArrays, NestedArraysHandled);
    var r6 := Push(r5, a.dataSparseity > 30.0, SparseData);
    PushKeepsHead(r5, a.dataSparseity > 30.0, SparseData);
    PushKeepsHead(r6, a.mixedTypes, MixedFieldTypes);
  }

  lemma MinRange(s: real, v: real)
    requires 0.0 <= s <= 15.0 && 0.0 <= v < 50.0
    ensures 75.0 < MinReal(100.0 - s, 100.0 - v / 2.0) <= 100.0
  {
  }

  /** With valid metrics the confidence is a percentage: at least 90 under the first rule,
      above 75 under the second. */
  lemma ConfidenceRange(a: StructureAnalysis)
    requires MetricsValid(MetricsOf(a))
    ensures 0.0 <= Confidence(a) <= 100.0
    ensures ConsistentRule(a) ==> Confidence(a) >= 90.0
    ensures !ConsistentRule(a) && CleanRule(a) ==> Confidence(a) > 75.0
  {
    if !ConsistentRule(a) && CleanRule(a) {
      MinRange(a.dataSparseity, a.fieldVariance.v);
    }
  }

  // ---------------------------------------------------------------------
  // Which reasons are given

  lemma PushIn(rs: seq<Reason>, c: bool, x: Reason, y: Reason)
    ensures y in Push(rs, c, x) <==> y in rs || (c && y == x)
  {
  }

  /** Under the consistency rule the reasons are the two fixed ones and each optional one
      whose condition holds. */
  lemma ConsistentReasonsIff(a: StructureAnalysis, x: Reason)
    ensures x in ConsistentReasons(a) <==>
      || x == HighConsistency || x == ConsistentStructure
      || (a.isFlat && x == FlatEnhances) || (a.isTabular && x == TabularFormat)
      || (Below(a.fieldVariance, 20.0) && x == LowVariance)
  {
    var r0 := [HighConsistency, ConsistentStructure];
    var r1 := Push(r0, a.isFlat, FlatEnhances);
    PushIn(r0, a.isFlat, FlatEnhances, x);
    var r2 := Push(r1, a.isTabular, TabularFormat);
    PushIn(r1, a.isTabular, TabularFormat, x);
    PushIn(r2, Below(a.fieldVariance, 20.0), LowVariance, x);
  }

  /** Under the clean-data rule the reasons are the two fixed ones, each optional one whose
      condition holds, and the closing note on optional fields. */
  lemma CleanReasonsIff(a: StructureAnalysis, x: Reason)
    ensures x in CleanReasons(a) <==>
      || x == FewMissingValues || x == CleanTabularData
      || (a.isTabular && x == TabularFormat) || (a.isFlat && x == FlatSuits) || x == OptionalFields
  {
    var r0 := [FewMissingValues, CleanTabularData];
    var r1 := Push(r0, a.isTabular, TabularFormat);
    PushIn(r0, a.isTabular, TabularFormat, x);
    var r2 := Push(r1, a.isFlat, FlatSuits);
    PushIn(r1, a.isFlat, FlatSuits, x);
    PushIn(r2, true, OptionalFields, x);
  }

  /** Otherwise the reasons are the two fixed ones and each optional one whose condition
      holds; the two variance reasons exclude each other. */
  lemma InconsistentReasonsIff(a: StructureAnalysis, x: Reason)
    ensures x in InconsistentReasons(a) <==>
      || x == HighInconsistency || x == FlexibleSchema
      || (Above(a.fieldVariance, 70.0) && x == ExtremeVariance)
      || (!Above(a.fieldVariance, 70.0) && Above(a.fieldVariance, 40.0) && x == HighVariance)
      || (a.schemaConsistency < 30.0 && x == VeryLowConsistency)
      || (a.isDeeplyNested && x == DeepNesting)
      || (a.hasNestedArrays && x == NestedArraysHandled)
      || (a.dataSparseity > 30.0 && x == SparseData)
      || (a.mixedTypes && x == MixedFieldTypes)
  {
    var c1 := Above(a.fieldVariance, 70.0);
    var c2 := !Above(a.fieldVariance, 70.0) && Above(a.fieldVariance, 40.0);
    var r0 := [HighInconsistency, FlexibleSchema];
    var r1 := Push(r0, c1, ExtremeVariance);
    PushIn(r0, c1, ExtremeVariance, x);
    var r2 := Push(r1, c2, HighVariance);
    PushIn(r1, c2, HighVariance, x);
    var r3 := Push(r2, a.schemaConsistency < 30.0, VeryLowConsistency);
    PushIn(r2, a.schemaConsistency < 30.0, VeryLowConsistency, x);
    var r4 := Push(r3, a.isDeeplyNested, DeepNesting);
    PushIn(r3, a.isDeeplyNested, DeepNesting, x);
    var r5 := Push(r4, a.hasNestedArrays, NestedArraysHandled);
    PushIn(r4, a.hasNestedArrays, NestedArraysHandled, x);
    var r6 := Push(r5, a.dataSparseity > 30.0, SparseData);
    PushIn(r5, a.dataSparseity > 30.0, SparseData, x);
    PushIn(r6, a.mixedTypes, MixedFieldTypes, x);
  }

  lemma ReasonsBranch(a: StructureAnalysis, x: Reason)
    ensures x in Reasons(a) <==>
      if ConsistentRule(a) then x in ConsistentReasons(a)
      else if CleanRule(a) then x in CleanReasons(a)
      else x in InconsistentReasons(a)
  {
  }

  /** The reasons particular to a PostgreSQL decision appear exactly when their conditions
      hold; the tabular reason is shared by both PostgreSQL rules. */
  lemma PostgresReasons(a: StructureAnalysis)
    ensures TabularFormat in Reasons(a) <==> Decide(a) == Postgres && a.isTabular
    ensures OptionalFields in Reasons(a) <==> !ConsistentRule(a) && CleanRule(a)
    ensures FlatEnhances in Reasons(a) <==> ConsistentRule(a) && a.isFlat
    ensures FlatSuits in Reasons(a) <==> !ConsistentRule(a) && CleanRule(a) && a.isFlat
    ensures LowVariance in Reasons(a) <==> ConsistentRule(a) && Below(a.fieldVariance, 20.0)
  {
    Given(a, TabularFormat);
    Given(a, OptionalFields);
    Given(a, FlatEnhances);
    Given(a, FlatSuits);
    Given(a, LowVariance);
  }

  lemma Given(a: StructureAnalysis, x: Reason)
    ensures x in Reasons(a) <==>
      if ConsistentRule(a) then
        || x == HighConsistency || x == ConsistentStructure
        || (a.isFlat && x == FlatEnhances) || (a.isTabular && x == TabularFormat)
        || (Below(a.fieldVariance, 20.0) && x == LowVariance)
      else if CleanRule(a) then
        || x == FewMissingValues || x == CleanTabularData
        || (a.isTabular && x == TabularFormat) || (a.isFlat && x == FlatSuits) || x == OptionalFields
      else
        || x == HighInconsistency || x == FlexibleSchema
        || (Above(a.fieldVariance, 70.0) && x == ExtremeVariance)
        || (!Above(a.fieldVariance, 70.0) && Above(a.fieldVariance, 40.0) && x == HighVariance)
        || (a.schemaConsistency < 30.0 && x == VeryLowConsistency)
        || (a.isDeeplyNested && x == DeepNesting)
        || (a.hasNestedArrays && x == NestedArraysHandled)
        || (a.dataSparseity > 30.0 && x == SparseData)
        || (a.mixedTypes && x == MixedFieldTypes)
  {
    ReasonsBranch(a, x);
    if ConsistentRule(a) {
      ConsistentReasonsIff(a, x);
    } else if CleanRule(a) {
      CleanReasonsIff(a, x);
    } else {
      InconsistentReasonsIff(a, x);
    }
  }

  /** The reasons particular to a MongoDB decision appear exactly when their conditions
      hold: the fixed one always, and at most one of the two variance reasons. */
  lemma MongoReasons(a: StructureAnalysis)
    ensures FlexibleSchema in Reasons(a) <==> Decide(a) == MongoDB
    ensures ExtremeVariance in Reasons(a) <==> Decide(a) == MongoDB && Above(a.fieldVariance, 70.0)
    ensures HighVariance in Reasons(a) <==>
      Decide(a) == MongoDB && !Above(a.fieldVariance, 70.0) && Above(a.fieldVariance, 40.0)
    ensures VeryLowConsistency in Reasons(a) <==> Decide(a) == MongoDB && a.schemaConsistency < 30.0
  {
    Given(a, FlexibleSchema);
    Given(a, ExtremeVariance);
    Given(a, HighVariance);
    Given(a, VeryLowConsistency);
  }

  /** The remaining MongoDB reasons each follow one flag or threshold of the record. */
  lemma MongoFlagReasons(a: StructureAnalysis)
    ensures DeepNesting in Reasons(a) <==> Decide(a) == MongoDB && a.isDeeplyNested
    ensures NestedArraysHandled in Reasons(a) <==> Decide(a) == MongoDB && a.hasNestedArrays
    ensures SparseData in Reasons(a) <==> Decide(a) == MongoDB && a.dataSparseity > 30.0
    ensures MixedFieldTypes in Reasons(a) <==> Decide(a) == MongoDB && a.mixedTypes
  {
    Given(a, DeepNesting);
    Given(a, NestedArraysHandled);
    Given(a, SparseData);
    Given(a, MixedFieldTypes);
  }

  // ---------------------------------------------------------------------
  // Whole analyses

  /** A record whose metrics are all 0 passes the clean-data rule with full confidence. */
  lemma ZeroMetricsPostgres(a: StructureAnalysis)
    requires a.schemaConsistency == 0.0 && a.fieldVariance == Finite(0.0) && a.dataSparseity == 0.0
    ensures !ConsistentRule(a) && CleanRule(a)
    ensures Decide(a) == Postgres && Confidence(a) == 100.0
  {
  }

  /** Input with no measured array (a scalar, `null`, `[]`, `{}`, an array holding a
      non-object, an object without a non-empty array of objects) keeps every metric at 0,
      passes the clean-data rule, and goes to PostgreSQL with full confidence. */
  lemma UnmeasuredGoesToPostgres(data: Json)
    requires Unmeasured(data)
    ensures !ConsistentRule(Structure(data)) && CleanRule(Structure(data))
    ensures Analyze(data).recommendedStorage == Postgres && Analyze(data).confidence == 100.0
  {
    UnmeasuredMetrics(data);
    ZeroMetricsPostgres(Structure(data));
  }

  /** In particular `[]` and `{}` go to PostgreSQL. */
  lemma EmptyGoesToPostgres()
    ensures Analyze(JArr([])).recommendedStorage == Postgres
    ensures Analyze(JObj([])).recommendedStorage == Postgres
  {
    UnmeasuredGoesToPostgres(JArr([]));
    UnmeasuredGoesToPostgres(JObj([]));
  }

  /** For every parsed value the confidence is a percentage and at least two reasons are given. */
  lemma AnalyzeConfidence(data: Json)
    requires WellFormed(data)
    ensures 0.0 <= Analyze(data).confidence <= 100.0
    ensures |Analyze(data).reasoning| >= 2
  {
    StructureValid(data);
    ConfidenceRange(Structure(data));
    RecommendRules(Structure(data));
  }
}
