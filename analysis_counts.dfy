/** How the analyzer's `arrayCount`, `objectCount` and `hasNestedArrays` relate to the tree:
    every array and object node is counted once, and some are counted a second time. */
module AnalysisCounts {
  import opened JsonValue
  import opened TreeMetrics
  import opened NestedArrays
  import opened Analysis
  import opened AnalysisFacts

  /** One of the two counters of the record: `arrayCount` when `arrays` holds, `objectCount`
      otherwise. */
  function Count(a: StructureAnalysis, arrays: bool): nat
  {
    if arrays then a.arrayCount else a.objectCount
  }

  /** The objects (never the arrays) the final loop of `analyzeArray` counts a second time:
      its array and object elements. */
  function Recounted(items: seq<Json>, arrays: bool): nat
  {
    if arrays then 0 else ContainersIn(items)
  }

  /** The first `n` elements of an array are its first `n` children. */
  lemma {:induction false} ItemsAsChildren(items: seq<Json>, n: nat, arrays: bool)
    requires n <= |items|
    ensures ChildrenNodes(JArr(items), n, arrays) == ItemsNodes(items[..n], arrays)
  {
    if n > 0 {
      ItemsAsChildren(items, n - 1, arrays);
      assert items[..n][..n - 1] == items[..n - 1];
    }
  }

  /** An array node is one array plus the nodes of its elements. */
  lemma ArrayNodes(items: seq<Json>, arrays: bool)
    ensures Nodes(JArr(items), arrays) == Own(JArr(items), arrays) + ItemsNodes(items, arrays)
  {
    ItemsAsChildren(items, |items|, arrays);
    assert items[..|items|] == items;
  }

  lemma MeasureKeepsCounts(x: StructureAnalysis, items: seq<Json>)
    requires items != []
    ensures Measure(x, items).arrayCount == x.arrayCount && Measure(x, items).objectCount == x.objectCount
    ensures Measure(x, items).hasNestedArrays == (x.hasNestedArrays || (AllObjects(items) && AnyNested(items)))
  {
  }

  /** `analyzeArray` counts every node of the array once and each array or object element
      once more. */
  lemma ArrayCounts(items: seq<Json>, a: StructureAnalysis, arrays: bool)
    ensures Count(AnalyzeArraySpec(items, a), arrays) == Count(a, arrays) + Nodes(JArr(items), arrays) + Recounted(items, arrays)
  {
    ArrayNodes(items, arrays);
    if items != [] {
      ArrayOnItems(items, a);
      MeasureKeepsCounts(ArrayOpened(a), items);
    }
  }

  /** What one value of a root object adds beyond its own nodes: a non-empty array is
      counted once more as an array, and each of its array or object elements once more as
      an object. */
  function Extra(v: Json, arrays: bool): nat
  {
    match v
    case JArr(items) => if items == [] then 0 else if arrays then 1 else ContainersIn(items)
    case _ => 0
  }

  lemma StepCounts(a: StructureAnalysis, v: Json, arrays: bool)
    ensures Count(ObjectStep(a, v), arrays) == Count(a, arrays) + Nodes(v, arrays) + Extra(v, arrays)
  {
    if v.JArr? && v.items != [] {
      StepCountsArray(a, v, arrays);
    } else if v.JArr? {
      EmptyArrayNodes(v, arrays);
      StepOnEmptyArray(a, v);
    } else if v.JObj? {
      StepOnObject(a, v);
    } else {
      ScalarNodes(v, arrays);
      StepOnScalar(a, v);
    }
  }

  lemma StepCountsArray(a: StructureAnalysis, v: Json, arrays: bool)
    requires v.JArr? && v.items != []
    ensures Count(ObjectStep(a, v), arrays) == Count(a, arrays) + Nodes(v, arrays) + Extra(v, arrays)
  {
    StepOnArray(a, v);
    ArrayCounts(v.items, ArrayOpened(a), arrays);
  }

  lemma ScalarNodes(v: Json, arrays: bool)
    requires !IsContainer(v)
    ensures Nodes(v, arrays) == 0
  {
  }

  lemma EmptyArrayNodes(v: Json, arrays: bool)
    requires v.JArr? && v.items == []
    ensures Nodes(v, arrays) == if arrays then 1 else 0
  {
  }

  /** The array nodes (when `arrays` holds) or the object nodes of the values of an object. */
  function ValuesNodes(fields: seq<(string, Json)>, arrays: bool): nat
  {
    if fields == [] then 0
    else ValuesNodes(fields[..|fields| - 1], arrays) + Nodes(fields[|fields| - 1].1, arrays)
  }

  /** What the values of a root object add beyond their own nodes. */
  function Extras(fields: seq<(string, Json)>, arrays: bool): nat
  {
    if fields == [] then 0
    else Extras(fields[..|fields| - 1], arrays) + Extra(fields[|fields| - 1].1, arrays)
  }

  lemma {:induction false} FoldCounts(a: StructureAnalysis, fields: seq<(string, Json)>, arrays: bool)
    ensures Count(ObjectFold(a, fields), arrays) == Count(a, arrays) + ValuesNodes(fields, arrays) + Extras(fields, arrays)
  {
    if fields != [] {
      var init := fields[..|fields| - 1];
      FoldCounts(a, init, arrays);
      FoldLast(a, fields);
      StepCounts(ObjectFold(a, init), fields[|fields| - 1].1, arrays);
    }
  }

  lemma FoldLast(a: StructureAnalysis, fields: seq<(string, Json)>)
    requires fields != []
    ensures ObjectFold(a, fields) == ObjectStep(ObjectFold(a, fields[..|fields| - 1]), fields[|fields| - 1].1)
  {
  }

  /** The first `n` values of an object are its first `n` children. */
  lemma {:induction false} ValuesAsChildren(fields: seq<(string, Json)>, n: nat, arrays: bool)
    requires n <= |fields|
    ensures ChildrenNodes(JObj(fields), n, arrays) == ValuesNodes(fields[..n], arrays)
  {
    if n > 0 {
      ValuesAsChildren(fields, n - 1, arrays);
      assert fields[..n][..n - 1] == fields[..n - 1];
      assert Child(JObj(fields), n - 1) == fields[n - 1].1;
    }
  }

  /** An object node is one object plus the nodes of its values. */
  lemma ObjectNodes(fields: seq<(string, Json)>, arrays: bool)
    ensures Nodes(JObj(fields), arrays) == Own(JObj(fields), arrays) + ValuesNodes(fields, arrays)
  {
    ValuesAsChildren(fields, |fields|, arrays);
    assert fields[..|fields|] == fields;
  }

  /** Under a root array, every array and object node is counted once and each array or
      object element of the root once more, as an object. */
  lemma RootArrayCounts(items: seq<Json>, arrays: bool)
    ensures Count(Structure(JArr(items)), arrays) == Nodes(JArr(items), arrays) + Recounted(items, arrays)
  {
    StructureOfArray(items);
    ArrayCounts(items, WithDepth(JArr(items)), arrays);
  }

  /** Under a root object, every array and object node is counted once, and each non-empty
      array value once more as an array, with each of its array or object elements once more
      as an object. */
  lemma RootObjectCounts(fields: seq<(string, Json)>, arrays: bool)
    ensures Count(Structure(JObj(fields)), arrays) == Nodes(JObj(fields), arrays) + Extras(fields, arrays)
  {
    var j := JObj(fields);
    StructureOfObject(fields);
    ObjectSpecCounts(fields, WithDepth(j), arrays);
    FoldCounts(ObjectStart(fields, WithDepth(j)), fields, arrays);
    ObjectNodes(fields, arrays);
  }

  lemma ObjectSpecCounts(fields: seq<(string, Json)>, a: StructureAnalysis, arrays: bool)
    ensures Count(AnalyzeObjectSpec(fields, a), arrays) == Count(ObjectFold(ObjectStart(fields, a), fields), arrays)
  {
  }

  // ---------------------------------------------------------------------
  // Nested arrays

  /** Under a root array, `hasNestedArrays` holds exactly when the array is measured and
      one of its elements holds an array that directly holds an array; a root array of
      arrays leaves it false. */
  lemma RootArrayNested(items: seq<Json>)
    ensures Structure(JArr(items)).hasNestedArrays <==> Measured(JArr(items)) && AnyNested(items)
  {
    StructureOfArray(items);
    if items != [] {
      ArrayOnItems(items, WithDepth(JArr(items)));
      MeasureKeepsCounts(ArrayOpened(WithDepth(JArr(items))), items);
    }
  }

  /** A measured array value with nested arrays. */
  predicate NestedValue(v: Json)
  {
    Measured(v) && AnyNested(v.items)
  }

  lemma StepNested(a: StructureAnalysis, v: Json)
    ensures ObjectStep(a, v).hasNestedArrays == (a.hasNestedArrays || NestedValue(v))
  {
    if v.JArr? && v.items != [] {
      StepNestedArray(a, v);
    } else if v.JArr? {
      StepOnEmptyArray(a, v);
    } else if v.JObj? {
      StepOnObject(a, v);
    } else {
      StepOnScalar(a, v);
    }
  }

  lemma StepNestedArray(a: StructureAnalysis, v: Json)
    requires v.JArr? && v.items != []
    ensures ObjectStep(a, v).hasNestedArrays == (a.hasNestedArrays || NestedValue(v))
  {
    StepOnArray(a, v);
    ArrayOnItems(v.items, ArrayOpened(a));
    MeasureKeepsCounts(ArrayOpened(a), v.items);
  }

  /** Some value of the object is a measured array with nested arrays. */
  predicate NestedIn(fields: seq<(string, Json)>)
  {
    exists i | 0 <= i < |fields| :: NestedValue(fields[i].1)
  }

  lemma NestedInLast(fields: seq<(string, Json)>)
    requires fields != []
    ensures NestedIn(fields) <==> NestedIn(fields[..|fields| - 1]) || NestedValue(fields[|fields| - 1].1)
  {
    var init := fields[..|fields| - 1];
    if NestedIn(init) {
      var i :| 0 <= i < |init| && NestedValue(init[i].1);
      assert fields[i] == init[i];
    }
    if NestedIn(fields) {
      var i :| 0 <= i < |fields| && NestedValue(fields[i].1);
      if i < |init| {
        assert init[i] == fields[i];
      }
    }
  }

  lemma {:induction false} FoldNested(a: StructureAnalysis, fields: seq<(string, Json)>)
    ensures ObjectFold(a, fields).hasNestedArrays <==> a.hasNestedArrays || NestedIn(fields)
  {
    if fields != [] {
      var init := fields[..|fields| - 1];
      FoldNested(a, init);
      FoldLast(a, fields);
      StepNested(ObjectFold(a, init), fields[|fields| - 1].1);
      NestedInLast(fields);
    }
  }

  /** Under a root object, `hasNestedArrays` holds exactly when some value is a measured
      array one of whose elements holds nested arrays. */
  lemma RootObjectNested(fields: seq<(string, Json)>)
    ensures Structure(JObj(fields)).hasNestedArrays <==> NestedIn(fields)
  {
    StructureOfObject(fields);
    var a1 := ObjectStart(fields, WithDepth(JObj(fields)));
    FoldNested(a1, fields);
  }
}
