/** Measures the analyzer takes over a whole JSON tree: nesting depth and the number of
    array and object nodes. */
module TreeMetrics {
  import opened JsonValue

  // ---------------------------------------------------------------------
  // Nesting depth

  /** The greatest of some depths, 0 for none. */
  function MaxOf(ds: seq<nat>): nat
  {
    if ds == [] then 0
    else
      var m := MaxOf(ds[..|ds| - 1]);
      if ds[|ds| - 1] > m then ds[|ds| - 1] else m
  }

  lemma {:induction false} MaxOfBounds(ds: seq<nat>, k: nat)
    requires k < |ds|
    ensures ds[k] <= MaxOf(ds)
  {
    if k < |ds| - 1 {
      MaxOfBounds(ds[..|ds| - 1], k);
    }
  }

  lemma {:induction false} MaxOfAttained(ds: seq<nat>) returns (k: nat)
    requires ds != []
    ensures k < |ds| && ds[k] == MaxOf(ds)
  {
    if |ds| == 1 || ds[|ds| - 1] > MaxOf(ds[..|ds| - 1]) {
      k := |ds| - 1;
    } else {
      k := MaxOfAttained(ds[..|ds| - 1]);
    }
  }

  /** The depths of the children of `j`, in order. */
  function ChildDepths(j: Json): (ds: seq<nat>)
    decreases j, 0
  {
    seq(|Children(j)|, i requires 0 <= i < |Children(j)| => Depth(Child(j, i)))
  }

  /** The depth `calculateDepth(j)` reports: 0 for a scalar, null or empty container, and
      otherwise one more than the deepest child. */
  function Depth(j: Json): nat
    decreases j, 1
  {
    if |Children(j)| == 0 then 0 else 1 + MaxOf(ChildDepths(j))
  }

  /** A value is deeper than each of its children, and exactly one deeper than its deepest
      child; scalars and empty containers have depth 0. */
  lemma DepthIsMax(j: Json)
    ensures Children(j) == [] ==> Depth(j) == 0
    ensures forall k | 0 <= k < |Children(j)| :: Depth(Child(j, k)) < Depth(j)
    ensures Children(j) != [] ==> exists k | 0 <= k < |Children(j)| :: Depth(j) == 1 + Depth(Child(j, k))
  {
    if Children(j) != [] {
      var ds := ChildDepths(j);
      forall k | 0 <= k < |Children(j)| ensures Depth(Child(j, k)) < Depth(j) {
        MaxOfBounds(ds, k);
      }
      var k := MaxOfAttained(ds);
      assert Depth(j) == 1 + Depth(Child(j, k));
    }
  }

  lemma {:induction false} MaxOfZero(ds: seq<nat>)
    requires forall k | 0 <= k < |ds| :: ds[k] == 0
    ensures MaxOf(ds) == 0
  {
    if ds != [] {
      MaxOfZero(ds[..|ds| - 1]);
    }
  }

  /** An object or array none of whose children is a container has depth at most 1. */
  lemma ShallowDepth(j: Json)
    requires forall k | 0 <= k < |Children(j)| :: !IsContainer(Child(j, k))
    ensures Depth(j) <= 1
  {
    var ds := ChildDepths(j);
    forall k | 0 <= k < |ds| ensures ds[k] == 0 {
      assert Children(Child(j, k)) == [];
    }
    MaxOfZero(ds);
  }

  // ---------------------------------------------------------------------
  // Subtrees

  /** `x` is `j` itself or a value somewhere inside it. */
  ghost predicate Within(x: Json, j: Json)
    decreases j
  {
    || x == j
    || (j.JArr? && exists i | 0 <= i < |j.items| :: Within(x, j.items[i]))
    || (j.JObj? && exists i | 0 <= i < |j.fields| :: Within(x, j.fields[i].1))
  }

  /** An array one of whose elements is itself an array. */
  ghost predicate ArrayOfArrays(x: Json)
  {
    x.JArr? && exists i | 0 <= i < |x.items| :: x.items[i].JArr?
  }

  // ---------------------------------------------------------------------
  // Array and object nodes

  /** Whether `j` is a node of the kind counted: an array when `arrays` holds, a (non-null)
      object otherwise. */
  predicate OfKind(j: Json, arrays: bool)
  {
    if arrays then j.JArr? else j.JObj?
  }

  /** The node itself: one if it is of the kind counted, none otherwise. */
  function Own(j: Json, arrays: bool): nat
  {
    if OfKind(j, arrays) then 1 else 0
  }

  /** The array nodes (when `arrays` holds) or the object nodes of the trees rooted at the
      first `n` children of `j`. */
  function ChildrenNodes(j: Json, n: nat, arrays: bool): nat
    requires n <= |Children(j)|
    decreases j, n
  {
    if n == 0 then 0 else ChildrenNodes(j, n - 1, arrays) + Nodes(Child(j, n - 1), arrays)
  }

  /** The array nodes (when `arrays` holds) or the object nodes of the tree rooted at `j`,
      `j` included. */
  function Nodes(j: Json, arrays: bool): nat
    decreases j, |Children(j)| + 1
  {
    Own(j, arrays) + ChildrenNodes(j, |Children(j)|, arrays)
  }

  lemma {:induction false} ChildrenCover(j: Json, n: nat, k: nat, arrays: bool)
    requires k < n <= |Children(j)|
    ensures Nodes(Child(j, k), arrays) <= ChildrenNodes(j, n, arrays)
  {
    if k < n - 1 {
      ChildrenCover(j, n - 1, k, arrays);
    }
  }

  lemma ChildCounted(j: Json, k: nat, arrays: bool)
    requires k < |Children(j)|
    ensures Nodes(Child(j, k), arrays) <= Nodes(j, arrays)
  {
    ChildrenCover(j, |Children(j)|, k, arrays);
  }

  /** Every array and object node of a subtree is counted in the tree that holds it. */
  lemma {:induction false} NodesWithin(j: Json, x: Json, arrays: bool)
    requires Within(x, j)
    ensures Nodes(x, arrays) <= Nodes(j, arrays)
    decreases j
  {
    if x != j {
      var k := WithinChild(j, x);
      NodesWithin(Child(j, k), x, arrays);
      ChildCounted(j, k, arrays);
    }
  }

  lemma WithinChild(j: Json, x: Json) returns (k: nat)
    requires Within(x, j) && x != j
    ensures k < |Children(j)| && Within(x, Child(j, k))
  {
    if j.JObj? {
      var i :| 0 <= i < |j.fields| && Within(x, j.fields[i].1);
      assert Children(j)[i] == j.fields[i].1;
      k := i;
    } else {
      var i :| 0 <= i < |j.items| && Within(x, j.items[i]);
      k := i;
    }
  }

  lemma ChildWithin(j: Json, k: nat, x: Json)
    requires k < |Children(j)| && Within(x, Child(j, k))
    ensures Within(x, j)
  {
    if j.JObj? {
      assert Children(j)[k] == j.fields[k].1;
    }
  }
}

/** Arrays that directly hold arrays, as the analyzer looks for them. */
module NestedArrays {
  import opened JsonValue
  import opened TreeMetrics

  // ---------------------------------------------------------------------
  // Nested arrays

  /** `hasNestedArrays(j)`. */
  predicate HasNestedArrays(j: Json)
    decreases j
  {
    match j
    case JArr(items) =>
      exists i | 0 <= i < |items| :: items[i].JArr? || (IsContainer(items[i]) && HasNestedArrays(items[i]))
    case JObj(fields) => exists i | 0 <= i < |fields| :: HasNestedArrays(fields[i].1)
    case _ => false
  }

  /** `hasNestedArrays` holds exactly when some array inside the value (or the value itself)
      has an array as a direct element; an array inside an object is not enough. */
  lemma {:induction false} NestedArraysIff(j: Json)
    ensures HasNestedArrays(j) <==> exists x :: Within(x, j) && ArrayOfArrays(x)
  {
    if HasNestedArrays(j) {
      NestedArraysFound(j);
    }
    if exists x :: Within(x, j) && ArrayOfArrays(x) {
      var x :| Within(x, j) && ArrayOfArrays(x);
      NestedArraysFrom(j, x);
    }
  }

  lemma {:induction false} NestedArraysFound(j: Json)
    requires HasNestedArrays(j)
    ensures exists x :: Within(x, j) && ArrayOfArrays(x)
    decreases j
  {
    match j
    case JArr(items) =>
      var i :| 0 <= i < |items| && (items[i].JArr? || (IsContainer(items[i]) && HasNestedArrays(items[i])));
      if items[i].JArr? {
        assert Within(j, j) && ArrayOfArrays(j);
      } else {
        NestedArraysFound(items[i]);
        var x :| Within(x, items[i]) && ArrayOfArrays(x);
        assert Within(x, j);
      }
    case JObj(fields) =>
      var i :| 0 <= i < |fields| && HasNestedArrays(fields[i].1);
      NestedArraysFound(fields[i].1);
      var x :| Within(x, fields[i].1) && ArrayOfArrays(x);
      assert Within(x, j);
  }

  lemma {:induction false} NestedArraysFrom(j: Json, x: Json)
    requires Within(x, j) && ArrayOfArrays(x)
    ensures HasNestedArrays(j)
    decreases j
  {
    if x == j {
      var i :| 0 <= i < |j.items| && j.items[i].JArr?;
    } else if j.JArr? {
      var i :| 0 <= i < |j.items| && Within(x, j.items[i]);
      NestedArraysFrom(j.items[i], x);
    } else if j.JObj? {
      var i :| 0 <= i < |j.fields| && Within(x, j.fields[i].1);
      NestedArraysFrom(j.fields[i].1, x);
    }
  }

}
