/** The metrics the analyzer computes for an array whose elements are all plain objects
    (a "tabular" array): one row per element, a row being the element's entries in key order.

    JavaScript `Map`s, which iterate in insertion order, are modelled as association lists
    `seq<(string, V)>` with pairwise distinct keys; `Set`s are modelled as `set`. */
module TabularMetrics {
  import opened JsonValue
  import opened Text

  type Row = seq<(string, Json)>

  /** A JavaScript number that may be NaN. */
  datatype Double = Finite(v: real) | NaN

  // ---------------------------------------------------------------------
  // The rows seen as plain strings: schemas, key lists and (key, kind) pairs

  /** `Object.keys(item).sort().join(",")`. */
  function Signature(row: Row): string
  {
    Join(SortStrings(Keys(row)), ',')
  }

  /** `arr.map((item) => Object.keys(item).sort().join(","))`. */
  function Schemas(rows: seq<Row>): (s: seq<string>)
    ensures |s| == |rows| && forall i | 0 <= i < |rows| :: s[i] == Signature(rows[i])
  {
    seq(|rows|, i requires 0 <= i < |rows| => Signature(rows[i]))
  }

  /** The keys of each row, in order. */
  function KeyLists(rows: seq<Row>): (ks: seq<seq<string>>)
    ensures |ks| == |rows| && forall i | 0 <= i < |rows| :: ks[i] == Keys(rows[i])
  {
    seq(|rows|, i requires 0 <= i < |rows| => Keys(rows[i]))
  }

  /** `Array.isArray(value) ? "array" : typeof value`: null reports "object". */
  function Kind(v: Json): (k: string)
    ensures k == "array" <==> v.JArr?
    ensures v.JNull? ==> k == "object"
  {
    if v.JArr? then "array" else TypeOf(v)
  }

  /** Each entry of a row as its key and the kind of its value. */
  function KindPairs(row: Row): (kp: seq<(string, string)>)
    ensures |kp| == |row| && forall p | 0 <= p < |row| :: kp[p] == (row[p].0, Kind(row[p].1))
  {
    seq(|row|, p requires 0 <= p < |row| => (row[p].0, Kind(row[p].1)))
  }

  function KindRows(rows: seq<Row>): (kr: seq<seq<(string, string)>>)
    ensures |kr| == |rows| && forall i | 0 <= i < |rows| :: kr[i] == KindPairs(rows[i])
  {
    seq(|rows|, i requires 0 <= i < |rows| => KindPairs(rows[i]))
  }

  // ---------------------------------------------------------------------
  // Schema consistency

  /** `new Set(xs)`. */
  function SetOf(xs: seq<string>): set<string>
  {
    if xs == [] then {} else SetOf(xs[..|xs| - 1]) + {xs[|xs| - 1]}
  }

  /** The set holds every element and nothing else, so it has between one member and one
      per element. */
  lemma {:induction false} SetOfFacts(xs: seq<string>)
    ensures |SetOf(xs)| <= |xs|
    ensures xs != [] ==> |SetOf(xs)| >= 1
    ensures forall x :: x in SetOf(xs) <==> x in xs
  {
    if xs != [] {
      SetOfFacts(xs[..|xs| - 1]);
      assert xs == xs[..|xs| - 1] + [xs[|xs| - 1]];
    }
  }

  /** `n / d * 100` for a count `n` out of `d`. */
  function Percent(n: nat, d: nat): real
    requires d > 0
  {
    (n as real / d as real) * 100.0
  }

  lemma PercentRange(n: nat, d: nat)
    requires 0 < d && n <= d
    ensures 0.0 <= Percent(n, d) <= 100.0
    ensures Percent(n, d) == 0.0 <==> n == 0
    ensures Percent(n, d) == 100.0 <==> n == d
  {
    var x := n as real;
    var y := d as real;
    var q := x / y;
    assert q * y == x;
    if q == 1.0 { assert x == y; }
    if q == 0.0 { assert x == 0.0; }
  }

  /** `((arr.length - uniqueSchemas.size + 1) / arr.length) * 100` over the schemas. */
  function Consistency(schemas: seq<string>): real
    requires schemas != []
  {
    SetOfFacts(schemas);
    Percent(|schemas| - |SetOf(schemas)| + 1, |schemas|)
  }

  /** Schema consistency lies in (0, 100], and it is 100 exactly when every row has the
      same schema. */
  lemma ConsistencyRange(schemas: seq<string>)
    requires schemas != []
    ensures 0.0 < Consistency(schemas) <= 100.0
    ensures Consistency(schemas) == 100.0 <==>
      forall i, j | 0 <= i < |schemas| && 0 <= j < |schemas| :: schemas[i] == schemas[j]
  {
    SetOfFacts(schemas);
    var u := |SetOf(schemas)|;
    var c := Percent(|schemas| - u + 1, |schemas|);
    assert Consistency(schemas) == c;
    PercentRange(|schemas| - u + 1, |schemas|);
    AllSameIffOne(schemas);
  }

  /** The elements make a one-member set exactly when they are all equal. */
  lemma AllSameIffOne(xs: seq<string>)
    requires xs != []
    ensures |SetOf(xs)| == 1 <==> forall i, j | 0 <= i < |xs| && 0 <= j < |xs| :: xs[i] == xs[j]
  {
    SetOfFacts(xs);
    if forall i, j | 0 <= i < |xs| && 0 <= j < |xs| :: xs[i] == xs[j] {
      assert SetOf(xs) == {xs[0]};
    } else {
      var i, j :| 0 <= i < |xs| && 0 <= j < |xs| && xs[i] != xs[j];
      TwoMembers(SetOf(xs), xs[i], xs[j]);
    }
  }

  lemma TwoMembers(s: set<string>, a: string, b: string)
    requires a in s && b in s && a != b
    ensures |s| >= 2
  {
    var rest := s - {a, b};
    assert s == {a, b} + rest;
    assert |{a, b}| == 2;
  }

  /** Two rows with the same keys, in any order, have the same signature. */
  lemma SameKeysSameSignature(r1: Row, r2: Row)
    requires multiset(Keys(r1)) == multiset(Keys(r2))
    ensures Signature(r1) == Signature(r2)
  {
    SortStringsCanonical(Keys(r1), Keys(r2));
  }

  /** Keys are joined with "," without escaping, so different key sets can share a
      signature: `{"a,b": …}` and `{"a": …, "b": …}` count as one schema. */
  lemma SignaturesCanCollide()
    ensures Signature([("a,b", JNull)]) == Signature([("a", JNull), ("b", JNull)])
  {
    assert Keys([("a", JNull), ("b", JNull)]) == ["a", "b"];
    assert Keys([("a,b", JNull)]) == ["a,b"];
    SortTwo();
    JoinTwo();
    assert SortStrings(["a,b"]) == ["a,b"];
  }

  lemma SortTwo()
    ensures SortStrings(["a", "b"]) == ["a", "b"]
  {
    assert StrLe("a", "b");
    assert ["a", "b"][1..] == ["b"];
    assert SortStrings(["b"]) == ["b"];
  }

  lemma JoinTwo()
    ensures Join(["a", "b"], ',') == "a,b"
  {
    assert ["a", "b"][1..] == ["b"];
  }

  // ---------------------------------------------------------------------
  // Field presence: `allFields` (a Set) and `fieldCounts` (a Map)

  lemma DistinctSnoc(ks: seq<string>, k: string)
    requires Distinct(ks) && k !in ks
    ensures Distinct(ks + [k])
  {
  }

  /** `m.get(k) || 0` on a count map. */
  function CountOf(m: seq<(string, nat)>, k: string): nat
  {
    if m == [] then 0 else if m[0].0 == k then m[0].1 else CountOf(m[1..], k)
  }

  /** `m.set(k, (m.get(k) || 0) + 1)`: bump an existing entry in place, or append a new one. */
  function Bump(m: seq<(string, nat)>, k: string): seq<(string, nat)>
  {
    if m == [] then [(k, 1)]
    else if m[0].0 == k then [(k, m[0].1 + 1)] + m[1..]
    else [m[0]] + Bump(m[1..], k)
  }

  /** A key already present keeps its place; a new key goes last. */
  lemma {:induction false} BumpKeys(m: seq<(string, nat)>, k: string)
    ensures k in Keys(m) ==> Keys(Bump(m, k)) == Keys(m)
    ensures k !in Keys(m) ==> Keys(Bump(m, k)) == Keys(m) + [k]
  {
    if m != [] {
      assert Keys(m) == [m[0].0] + Keys(m[1..]);
      if m[0].0 != k {
        BumpKeys(m[1..], k);
        assert Keys(Bump(m, k)) == [m[0].0] + Keys(Bump(m[1..], k));
      } else {
        assert Keys(Bump(m, k)) == [k] + Keys(m[1..]);
      }
    }
  }

  lemma {:induction false} BumpCount(m: seq<(string, nat)>, k: string, x: string)
    ensures CountOf(Bump(m, k), x) == CountOf(m, x) + (if x == k then 1 else 0)
  {
    if m != [] && m[0].0 != k {
      BumpCount(m[1..], k, x);
    }
  }

  function SumValues(m: seq<(string, nat)>): nat
  {
    if m == [] then 0 else SumValues(m[..|m| - 1]) + m[|m| - 1].1
  }

  lemma {:induction false} SumValuesCons(x: (string, nat), m: seq<(string, nat)>)
    ensures SumValues([x] + m) == x.1 + SumValues(m)
  {
    if m != [] {
      assert ([x] + m)[..|m|] == [x] + m[..|m| - 1];
      SumValuesCons(x, m[..|m| - 1]);
    }
  }

  lemma {:induction false} BumpSum(m: seq<(string, nat)>, k: string)
    ensures SumValues(Bump(m, k)) == SumValues(m) + 1
  {
    if m != [] {
      assert m == [m[0]] + m[1..];
      SumValuesCons(m[0], m[1..]);
      if m[0].0 == k {
        SumValuesCons((k, m[0].1 + 1), m[1..]);
      } else {
        BumpSum(m[1..], k);
        SumValuesCons(m[0], Bump(m[1..], k));
      }
    }
  }

  /** Bumping every key of one row, in order. */
  function BumpAll(m: seq<(string, nat)>, ks: seq<string>): seq<(string, nat)>
  {
    if ks == [] then m else Bump(BumpAll(m, ks[..|ks| - 1]), ks[|ks| - 1])
  }

  function Occurrences(ks: seq<string>, k: string): nat
  {
    if ks == [] then 0 else Occurrences(ks[..|ks| - 1], k) + (if ks[|ks| - 1] == k then 1 else 0)
  }

  lemma {:induction false} BumpAllKeys(m: seq<(string, nat)>, ks: seq<string>)
    ensures forall x :: x in Keys(BumpAll(m, ks)) <==> x in Keys(m) || x in ks
    ensures Distinct(Keys(m)) ==> Distinct(Keys(BumpAll(m, ks)))
  {
    if ks != [] {
      var before := BumpAll(m, ks[..|ks| - 1]);
      BumpAllKeys(m, ks[..|ks| - 1]);
      BumpKeys(before, ks[|ks| - 1]);
      KeysAfterAdd(Keys(before), Keys(Bump(before, ks[|ks| - 1])), ks[|ks| - 1]);
      SnocIn(ks);
    }
  }

  /** Adding a key to a key list either leaves it as it is or appends the key. */
  lemma KeysAfterAdd(ks: seq<string>, after: seq<string>, k: string)
    requires k in ks ==> after == ks
    requires k !in ks ==> after == ks + [k]
    ensures forall x :: x in after <==> x in ks || x == k
    ensures Distinct(ks) ==> Distinct(after)
  {
    if k !in ks && Distinct(ks) {
      DistinctSnoc(ks, k);
    }
  }

  lemma SnocIn(ks: seq<string>)
    requires ks != []
    ensures forall x :: x in ks <==> x in ks[..|ks| - 1] || x == ks[|ks| - 1]
  {
    assert ks == ks[..|ks| - 1] + [ks[|ks| - 1]];
  }

  lemma {:induction false} BumpAllCount(m: seq<(string, nat)>, ks: seq<string>, x: string)
    ensures CountOf(BumpAll(m, ks), x) == CountOf(m, x) + Occurrences(ks, x)
  {
    if ks != [] {
      BumpAllCount(m, ks[..|ks| - 1], x);
      BumpCount(BumpAll(m, ks[..|ks| - 1]), ks[|ks| - 1], x);
    }
  }

  lemma {:induction false} BumpAllSum(m: seq<(string, nat)>, ks: seq<string>)
    ensures SumValues(BumpAll(m, ks)) == SumValues(m) + |ks|
  {
    if ks != [] {
      BumpAllSum(m, ks[..|ks| - 1]);
      BumpSum(BumpAll(m, ks[..|ks| - 1]), ks[|ks| - 1]);
    }
  }

  /** The `fieldCounts` map after the loop over the rows. */
  function CountList(kl: seq<seq<string>>): seq<(string, nat)>
  {
    if kl == [] then [] else BumpAll(CountList(kl[..|kl| - 1]), kl[|kl| - 1])
  }

  /** The `allFields` set after the loop over the rows. */
  function FieldSet(kl: seq<seq<string>>): set<string>
  {
    if kl == [] then {} else FieldSet(kl[..|kl| - 1]) + SetOf(kl[|kl| - 1])
  }

  /** How many times key `k` occurs over all kl. */
  function Occ(kl: seq<seq<string>>, k: string): nat
  {
    if kl == [] then 0 else Occ(kl[..|kl| - 1], k) + Occurrences(kl[|kl| - 1], k)
  }

  /** How many entries the kl hold in all. */
  function TotalEntries(kl: seq<seq<string>>): nat
  {
    if kl == [] then 0 else TotalEntries(kl[..|kl| - 1]) + |kl[|kl| - 1]|
  }

  /** The count map holds exactly the keys that occur, once each. */
  lemma {:induction false} CountListKeys(kl: seq<seq<string>>)
    ensures forall x :: x in Keys(CountList(kl)) <==> x in FieldSet(kl)
    ensures Distinct(Keys(CountList(kl)))
  {
    if kl != [] {
      CountListKeys(kl[..|kl| - 1]);
      BumpAllKeys(CountList(kl[..|kl| - 1]), kl[|kl| - 1]);
      SetOfFacts(kl[|kl| - 1]);
    }
  }

  /** Each key's count is the number of times it occurs. */
  lemma {:induction false} CountListCount(kl: seq<seq<string>>, x: string)
    ensures CountOf(CountList(kl), x) == Occ(kl, x)
  {
    if kl != [] {
      CountListCount(kl[..|kl| - 1], x);
      BumpAllCount(CountList(kl[..|kl| - 1]), kl[|kl| - 1], x);
    }
  }

  /** The counts add up to the number of entries (`totalFields`). */
  lemma {:induction false} CountListSum(kl: seq<seq<string>>)
    ensures SumValues(CountList(kl)) == TotalEntries(kl)
  {
    if kl != [] {
      CountListSum(kl[..|kl| - 1]);
      BumpAllSum(CountList(kl[..|kl| - 1]), kl[|kl| - 1]);
    }
  }

  /** `Array.from(m.values()).filter((count) => count < n).length`. */
  function CountBelow(m: seq<(string, nat)>, n: nat): (c: nat)
    ensures c <= |m|
  {
    if m == [] then 0 else CountBelow(m[..|m| - 1], n) + (if m[|m| - 1].1 < n then 1 else 0)
  }

  lemma {:induction false} CountOfSnoc(m: seq<(string, nat)>, x: (string, nat), k: string)
    requires x.0 !in Keys(m)
    ensures CountOf(m + [x], k) == if k == x.0 then x.1 else CountOf(m, k)
  {
    if m != [] {
      assert (m + [x])[1..] == m[1..] + [x];
      assert Keys(m) == [m[0].0] + Keys(m[1..]);
      CountOfSnoc(m[1..], x, k);
    }
  }

  /** For a list with distinct keys, counting the values below n counts the keys in any
      set `good` that holds exactly the keys whose value is below n. */
  lemma {:induction false} CountBelowIsSetSize(m: seq<(string, nat)>, n: nat, good: set<string>)
    requires Distinct(Keys(m))
    requires forall i | 0 <= i < |m| :: m[i].1 < n <==> m[i].0 in good
    ensures CountBelow(m, n) == |SetOf(Keys(m)) * good|
  {
    if m != [] {
      var init := m[..|m| - 1];
      var last := m[|m| - 1];
      PrefixKeys(m);
      forall i | 0 <= i < |init| ensures init[i] == m[i] { }
      CountBelowIsSetSize(init, n, good);
      SetOfFacts(Keys(init));
      IntersectSnoc(SetOf(Keys(init)), last.0, good);
    }
  }

  lemma PrefixKeys(m: seq<(string, nat)>)
    requires m != [] && Distinct(Keys(m))
    ensures Distinct(Keys(m[..|m| - 1]))
    ensures m[|m| - 1].0 !in Keys(m[..|m| - 1])
    ensures SetOf(Keys(m)) == SetOf(Keys(m[..|m| - 1])) + {m[|m| - 1].0}
  {
    ListKeysPrefix(m);
    DistinctPrefix(Keys(m));
  }

  lemma ListKeysPrefix<V>(m: seq<(string, V)>)
    requires m != []
    ensures Keys(m[..|m| - 1]) == Keys(m)[..|m| - 1]
  {
  }

  lemma DistinctPrefix(ks: seq<string>)
    requires ks != [] && Distinct(ks)
    ensures Distinct(ks[..|ks| - 1]) && ks[|ks| - 1] !in ks[..|ks| - 1]
  {
  }

  lemma IntersectSnoc(a: set<string>, x: string, good: set<string>)
    requires x !in a
    ensures |(a + {x}) * good| == |a * good| + (if x in good then 1 else 0)
  {
    if x in good {
      assert (a + {x}) * good == (a * good) + {x};
    } else {
      assert (a + {x}) * good == a * good;
    }
  }
  /** Distinct keys make a set of the same size. */
  lemma {:induction false} DistinctCard(ks: seq<string>)
    requires Distinct(ks)
    ensures |SetOf(ks)| == |ks|
  {
    if ks != [] {
      var init := ks[..|ks| - 1];
      DistinctCard(init);
      SetOfFacts(init);
      assert ks[|ks| - 1] !in init;
    }
  }

  lemma {:induction false} CountOfAt(m: seq<(string, nat)>, i: nat)
    requires i < |m| && Distinct(Keys(m))
    ensures CountOf(m, m[i].0) == m[i].1
  {
    if i > 0 {
      assert Keys(m)[0] != Keys(m)[i];
      assert Keys(m[1..]) == Keys(m)[1..];
      CountOfAt(m[1..], i - 1);
    }
  }

  /** Within one row whose keys are distinct, a key occurs once if present and never otherwise. */
  lemma {:induction false} OccurrencesDistinct(ks: seq<string>, k: string)
    requires Distinct(ks)
    ensures Occurrences(ks, k) == if k in ks then 1 else 0
  {
    if ks != [] {
      var init := ks[..|ks| - 1];
      OccurrencesDistinct(init, k);
      assert ks == init + [ks[|ks| - 1]];
    }
  }

  predicate KeysDistinct(kl: seq<seq<string>>)
  {
    forall i | 0 <= i < |kl| :: Distinct(kl[i])
  }

  ghost predicate MissingSomewhere(kl: seq<seq<string>>, k: string)
  {
    exists i | 0 <= i < |kl| :: k !in kl[i]
  }

  /** When no row repeats a key (as in every parsed JSON object), a key counts as
      inconsistent exactly when some row lacks it. */
  lemma {:induction false} OccBelowIffMissing(kl: seq<seq<string>>, k: string)
    requires KeysDistinct(kl)
    ensures Occ(kl, k) <= |kl|
    ensures Occ(kl, k) < |kl| <==> MissingSomewhere(kl, k)
  {
    if kl != [] {
      var init := kl[..|kl| - 1];
      var last := kl[|kl| - 1];
      forall i | 0 <= i < |init| ensures init[i] == kl[i] { }
      OccBelowIffMissing(init, k);
      OccurrencesDistinct(last, k);
      if MissingSomewhere(init, k) {
        var i :| 0 <= i < |init| && k !in init[i];
        assert k !in kl[i];
      }
      if MissingSomewhere(kl, k) && k in last {
        var i :| 0 <= i < |kl| && k !in kl[i];
        assert k !in init[i];
      }
    }
  }

  /** `(inconsistentFields / allFields.size) * 100`, which is 0/0, not a number, when no row
      has any key. */
  function FieldVariance(kl: seq<seq<string>>): Double
  {
    if |FieldSet(kl)| == 0 then NaN
    else Finite(Percent(CountBelow(CountList(kl), |kl|), |FieldSet(kl)|))
  }

  lemma {:induction false} FieldSetHas(kl: seq<seq<string>>, i: nat)
    requires i < |kl|
    ensures SetOf(kl[i]) <= FieldSet(kl)
  {
    if i < |kl| - 1 {
      FieldSetHas(kl[..|kl| - 1], i);
    }
  }

  /** When no row has a key (the case where field variance is NaN), every row has the
      empty schema and consistency is 100. */
  lemma NoFieldsFullConsistency(rows: seq<Row>)
    requires rows != [] && FieldSet(KeyLists(rows)) == {}
    ensures Consistency(Schemas(rows)) == 100.0
  {
    var kl := KeyLists(rows);
    var s := Schemas(rows);
    forall i | 0 <= i < |rows| ensures s[i] == "" {
      FieldSetHas(kl, i);
      SetOfFacts(kl[i]);
      assert Keys(rows[i]) == [];
    }
    ConsistencyRange(s);
  }

  /** The keys that some row lacks. */
  ghost function MissingKeys(kl: seq<seq<string>>): set<string>
  {
    set k | k in FieldSet(kl) && MissingSomewhere(kl, k)
  }

  /** Field variance is the share of the distinct keys that some row lacks; it is a
      percentage, and NaN exactly when no row has a key. */
  lemma VarianceMeaning(kl: seq<seq<string>>)
    requires KeysDistinct(kl)
    ensures FieldVariance(kl).NaN? <==> FieldSet(kl) == {}
    ensures FieldVariance(kl).Finite? ==>
      && FieldVariance(kl).v == Percent(|MissingKeys(kl)|, |FieldSet(kl)|)
      && 0.0 <= FieldVariance(kl).v <= 100.0
  {
    if FieldSet(kl) != {} {
      var m := CountList(kl);
      InconsistentCount(kl);
      assert |MissingKeys(kl)| <= |FieldSet(kl)| by {
        assert MissingKeys(kl) <= FieldSet(kl);
        SubsetCard(MissingKeys(kl), FieldSet(kl));
      }
      PercentRange(CountBelow(m, |kl|), |FieldSet(kl)|);
    }
  }

  lemma SubsetCard(a: set<string>, b: set<string>)
    requires a <= b
    ensures |a| <= |b|
  {
    assert b == a + (b - a);
  }

  /** The number of counts below the row count is the number of keys some row lacks. */
  lemma InconsistentCount(kl: seq<seq<string>>)
    requires KeysDistinct(kl)
    ensures CountBelow(CountList(kl), |kl|) == |MissingKeys(kl)|
  {
    var m := CountList(kl);
    var good := MissingKeys(kl);
    forall i | 0 <= i < |m| ensures m[i].1 < |kl| <==> m[i].0 in good {
      CountMeansMissing(kl, i);
    }
    CountListKeys(kl);
    CountBelowIsSetSize(m, |kl|, good);
    SetOfFacts(Keys(m));
    assert SetOf(Keys(m)) * good == good;
  }

  lemma CountMeansMissing(kl: seq<seq<string>>, i: nat)
    requires KeysDistinct(kl) && i < |CountList(kl)|
    ensures CountList(kl)[i].1 < |kl| <==> CountList(kl)[i].0 in MissingKeys(kl)
  {
    var m := CountList(kl);
    var k := m[i].0;
    CountListKeys(kl);
    assert k in Keys(m);
    CountOfAt(m, i);
    CountListCount(kl, k);
    OccBelowIffMissing(kl, k);
  }

  // ---------------------------------------------------------------------
  // Sparseity: `null` values among the entries that are present

  function NullsIn(row: Row): (c: nat)
    ensures c <= |row|
  {
    if row == [] then 0 else NullsIn(row[..|row| - 1]) + (if row[|row| - 1].1.JNull? then 1 else 0)
  }

  /** `totalValues`: the number of values present over all rows. */
  function TotalValues(rows: seq<Row>): nat
  {
    if rows == [] then 0 else TotalValues(rows[..|rows| - 1]) + |rows[|rows| - 1]|
  }

  function NullCount(rows: seq<Row>): (c: nat)
    ensures c <= TotalValues(rows)
  {
    if rows == [] then 0 else NullCount(rows[..|rows| - 1]) + NullsIn(rows[|rows| - 1])
  }

  /** `totalValues > 0 ? (nullCount / totalValues) * 100 : 0`. */
  function Sparseity(rows: seq<Row>): real
  {
    if TotalValues(rows) > 0 then Percent(NullCount(rows), TotalValues(rows)) else 0.0
  }

  /** Sparseity is a percentage of the entries present; it is 0 when no entry is null
      (in particular when there are no entries) and 100 when every entry is null. */
  lemma SparseityRange(rows: seq<Row>)
    ensures 0.0 <= Sparseity(rows) <= 100.0
    ensures Sparseity(rows) == 0.0 <==> NullCount(rows) == 0
    ensures Sparseity(rows) == 100.0 <==> TotalValues(rows) > 0 && NullCount(rows) == TotalValues(rows)
  {
    if TotalValues(rows) > 0 {
      PercentRange(NullCount(rows), TotalValues(rows));
    }
  }

  // ---------------------------------------------------------------------
  // Value kinds per field: `fieldTypes` (a Map from field to a Set of kinds)

  function KindsOf(m: seq<(string, set<string>)>, k: string): set<string>
  {
    if m == [] then {} else if m[0].0 == k then m[0].1 else KindsOf(m[1..], k)
  }

  /** Add `kind` to the set of field `k`, creating the set the first time `k` is seen. */
  function AddKind(m: seq<(string, set<string>)>, k: string, kind: string): seq<(string, set<string>)>
  {
    if m == [] then [(k, {kind})]
    else if m[0].0 == k then [(k, m[0].1 + {kind})] + m[1..]
    else [m[0]] + AddKind(m[1..], k, kind)
  }

  lemma {:induction false} AddKindKeys(m: seq<(string, set<string>)>, k: string, kind: string)
    ensures k in Keys(m) ==> Keys(AddKind(m, k, kind)) == Keys(m)
    ensures k !in Keys(m) ==> Keys(AddKind(m, k, kind)) == Keys(m) + [k]
  {
    if m != [] {
      assert Keys(m) == [m[0].0] + Keys(m[1..]);
      if m[0].0 != k {
        AddKindKeys(m[1..], k, kind);
        assert Keys(AddKind(m, k, kind)) == [m[0].0] + Keys(AddKind(m[1..], k, kind));
      } else {
        assert Keys(AddKind(m, k, kind)) == [k] + Keys(m[1..]);
      }
    }
  }

  lemma {:induction false} AddKindKinds(m: seq<(string, set<string>)>, k: string, kind: string, x: string)
    ensures KindsOf(AddKind(m, k, kind), x) == KindsOf(m, x) + (if x == k then {kind} else {})
  {
    if m != [] && m[0].0 != k {
      AddKindKinds(m[1..], k, kind, x);
    }
  }

  function AddRowKinds(m: seq<(string, set<string>)>, row: seq<(string, string)>): seq<(string, set<string>)>
  {
    if row == [] then m
    else AddKind(AddRowKinds(m, row[..|row| - 1]), row[|row| - 1].0, row[|row| - 1].1)
  }

  /** The `fieldTypes` map after the loop over the rows. */
  function KindList(kr: seq<seq<(string, string)>>): seq<(string, set<string>)>
  {
    if kr == [] then [] else AddRowKinds(KindList(kr[..|kr| - 1]), kr[|kr| - 1])
  }

  /** `Array.from(fieldTypes.values()).some((types) => types.size > 1)`. */
  predicate AnyMixed(m: seq<(string, set<string>)>)
  {
    exists i | 0 <= i < |m| :: |m[i].1| > 1
  }

  /** The kinds of the values stored under `x` in one row. */
  function RowKinds(row: seq<(string, string)>, x: string): set<string>
  {
    if row == [] then {}
    else RowKinds(row[..|row| - 1], x) + (if row[|row| - 1].0 == x then {row[|row| - 1].1} else {})
  }

  /** The kinds seen for field `x` over all rows. */
  function KindsSeen(kr: seq<seq<(string, string)>>, x: string): set<string>
  {
    if kr == [] then {} else KindsSeen(kr[..|kr| - 1], x) + RowKinds(kr[|kr| - 1], x)
  }

  lemma {:induction false} AddRowKindsKeys(m: seq<(string, set<string>)>, row: seq<(string, string)>)
    requires Distinct(Keys(m))
    ensures Distinct(Keys(AddRowKinds(m, row)))
  {
    if row != [] {
      var before := AddRowKinds(m, row[..|row| - 1]);
      var last := row[|row| - 1];
      AddRowKindsKeys(m, row[..|row| - 1]);
      AddKindKeys(before, last.0, last.1);
      KeysAfterAdd(Keys(before), Keys(AddKind(before, last.0, last.1)), last.0);
    }
  }

  lemma {:induction false} AddRowKindsKinds(m: seq<(string, set<string>)>, row: seq<(string, string)>, x: string)
    ensures KindsOf(AddRowKinds(m, row), x) == KindsOf(m, x) + RowKinds(row, x)
  {
    if row != [] {
      AddRowKindsKinds(m, row[..|row| - 1], x);
      AddKindKinds(AddRowKinds(m, row[..|row| - 1]), row[|row| - 1].0, row[|row| - 1].1, x);
    }
  }

  /** The `fieldTypes` map holds each key that occurs, once. */
  lemma {:induction false} KindListKeys(kr: seq<seq<(string, string)>>)
    ensures Distinct(Keys(KindList(kr)))
  {
    if kr != [] {
      KindListKeys(kr[..|kr| - 1]);
      AddRowKindsKeys(KindList(kr[..|kr| - 1]), kr[|kr| - 1]);
    }
  }

  /** Each key's entry holds exactly the kinds seen for it. */
  lemma {:induction false} KindListKinds(kr: seq<seq<(string, string)>>, x: string)
    ensures KindsOf(KindList(kr), x) == KindsSeen(kr, x)
  {
    if kr != [] {
      KindListKinds(kr[..|kr| - 1], x);
      AddRowKindsKinds(KindList(kr[..|kr| - 1]), kr[|kr| - 1], x);
    }
  }

  lemma {:induction false} RowKindsHas(row: seq<(string, string)>, p: nat)
    requires p < |row|
    ensures row[p].1 in RowKinds(row, row[p].0)
  {
    if p < |row| - 1 {
      RowKindsHas(row[..|row| - 1], p);
    }
  }

  lemma {:induction false} RowKindsFrom(row: seq<(string, string)>, x: string, y: string)
    requires y in RowKinds(row, x)
    ensures exists p | 0 <= p < |row| :: row[p].0 == x && row[p].1 == y
  {
    var init := row[..|row| - 1];
    if y in RowKinds(init, x) {
      RowKindsFrom(init, x, y);
      var p :| 0 <= p < |init| && init[p].0 == x && init[p].1 == y;
      assert row[p] == init[p];
    } else {
      assert row[|row| - 1].0 == x && row[|row| - 1].1 == y;
    }
  }

  lemma {:induction false} KindsSeenHas(kr: seq<seq<(string, string)>>, i: nat, p: nat)
    requires i < |kr| && p < |kr[i]|
    ensures kr[i][p].1 in KindsSeen(kr, kr[i][p].0)
  {
    if i < |kr| - 1 {
      KindsSeenHas(kr[..|kr| - 1], i, p);
    } else {
      RowKindsHas(kr[i], p);
    }
  }

  lemma {:induction false} KindsSeenFrom(kr: seq<seq<(string, string)>>, x: string, y: string)
    requires y in KindsSeen(kr, x)
    ensures exists i, p | 0 <= i < |kr| && 0 <= p < |kr[i]| :: kr[i][p].0 == x && kr[i][p].1 == y
  {
    var init := kr[..|kr| - 1];
    if y in KindsSeen(init, x) {
      KindsSeenFrom(init, x, y);
      var i, p :| 0 <= i < |init| && 0 <= p < |init[i]| && init[i][p].0 == x && init[i][p].1 == y;
      assert kr[i] == init[i];
    } else {
      RowKindsFrom(kr[|kr| - 1], x, y);
      var p :| 0 <= p < |kr[|kr| - 1]| && kr[|kr| - 1][p].0 == x && kr[|kr| - 1][p].1 == y;
    }
  }

  lemma {:induction false} KindsOfAt(m: seq<(string, set<string>)>, i: nat)
    requires i < |m| && Distinct(Keys(m))
    ensures KindsOf(m, m[i].0) == m[i].1
  {
    if i > 0 {
      assert Keys(m)[0] != Keys(m)[i];
      assert Keys(m[1..]) == Keys(m)[1..];
      KindsOfAt(m[1..], i - 1);
    }
  }

  lemma {:induction false} KindsOfAbsent(m: seq<(string, set<string>)>, k: string)
    requires k !in Keys(m)
    ensures KindsOf(m, k) == {}
  {
    if m != [] {
      assert Keys(m) == [m[0].0] + Keys(m[1..]);
      KindsOfAbsent(m[1..], k);
    }
  }

  /** Some field is seen with two different kinds of value. */
  ghost predicate MixedSpec(kr: seq<seq<(string, string)>>)
  {
    exists i1, p1, i2, p2 |
      0 <= i1 < |kr| && 0 <= p1 < |kr[i1]| && 0 <= i2 < |kr| && 0 <= p2 < |kr[i2]| ::
      kr[i1][p1].0 == kr[i2][p2].0 && kr[i1][p1].1 != kr[i2][p2].1
  }

  lemma PickTwo(s: set<string>) returns (a: string, b: string)
    requires |s| > 1
    ensures a in s && b in s && a != b
  {
    a :| a in s;
    assert |s - {a}| == |s| - 1;
    b :| b in s - {a};
  }

  /** The mixed-types flag is set exactly when some field is seen with two kinds of value;
      null and objects share the kind "object". */
  lemma MixedTypesIff(kr: seq<seq<(string, string)>>)
    ensures AnyMixed(KindList(kr)) <==> MixedSpec(kr)
  {
    if AnyMixed(KindList(kr)) {
      MixedSound(kr);
    }
    if MixedSpec(kr) {
      var i1, p1, i2, p2 :|
        0 <= i1 < |kr| && 0 <= p1 < |kr[i1]| && 0 <= i2 < |kr| && 0 <= p2 < |kr[i2]| &&
        kr[i1][p1].0 == kr[i2][p2].0 && kr[i1][p1].1 != kr[i2][p2].1;
      MixedComplete(kr, i1, p1, i2, p2);
    }
  }

  lemma MixedSound(kr: seq<seq<(string, string)>>)
    requires AnyMixed(KindList(kr))
    ensures MixedSpec(kr)
  {
    var m := KindList(kr);
    KindListKeys(kr);
    var i :| 0 <= i < |m| && |m[i].1| > 1;
    var k := m[i].0;
    KindsOfAt(m, i);
    KindListKinds(kr, k);
    var a, b := PickTwo(m[i].1);
    KindsSeenFrom(kr, k, a);
    KindsSeenFrom(kr, k, b);
  }

  lemma MixedComplete(kr: seq<seq<(string, string)>>, i1: nat, p1: nat, i2: nat, p2: nat)
    requires i1 < |kr| && p1 < |kr[i1]| && i2 < |kr| && p2 < |kr[i2]|
    requires kr[i1][p1].0 == kr[i2][p2].0 && kr[i1][p1].1 != kr[i2][p2].1
    ensures AnyMixed(KindList(kr))
  {
    var m := KindList(kr);
    var k := kr[i1][p1].0;
    KindListKeys(kr);
    KindsSeenHas(kr, i1, p1);
    KindsSeenHas(kr, i2, p2);
    KindListKinds(kr, k);
    TwoMembers(KindsOf(m, k), kr[i1][p1].1, kr[i2][p2].1);
    if k !in Keys(m) {
      KindsOfAbsent(m, k);
    }
    var i :| 0 <= i < |m| && Keys(m)[i] == k;
    KindsOfAt(m, i);
  }
}
