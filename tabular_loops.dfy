/** The three `forEach` loops `analyzeArray` runs over the rows of an array of objects,
    each proved to compute the function of module TabularMetrics that specifies it. */
module TabularLoops {
  import opened JsonValue
  import opened TabularMetrics

  /** Growing a prefix by one element. */
  lemma PrefixSnoc<T>(s: seq<T>, i: nat)
    requires i < |s|
    ensures s[..i + 1][..i] == s[..i] && s[..i + 1][i] == s[i]
  {
  }

  /** The loop that fills `allFields` and `fieldCounts`: every key of every row is added to
      the set and bumped in the count map, rows in order and keys in order. */
  method TallyFields(rows: seq<Row>) returns (allFields: set<string>, fieldCounts: seq<(string, nat)>)
    ensures allFields == FieldSet(KeyLists(rows))
    ensures fieldCounts == CountList(KeyLists(rows))
  {
    ghost var kl := KeyLists(rows);
    allFields := {};
    fieldCounts := [];
    var i := 0;
    while i < |rows|
      invariant 0 <= i <= |rows|
      invariant allFields == FieldSet(kl[..i])
      invariant fieldCounts == CountList(kl[..i])
    {
      var keys := Keys(rows[i]);
      var p := 0;
      while p < |keys|
        invariant 0 <= p <= |keys|
        invariant allFields == FieldSet(kl[..i]) + SetOf(keys[..p])
        invariant fieldCounts == BumpAll(CountList(kl[..i]), keys[..p])
      {
        PrefixSnoc(keys, p);
        allFields := allFields + {keys[p]};
        fieldCounts := Bump(fieldCounts, keys[p]);
        p := p + 1;
      }
      assert keys[..p] == keys == kl[i];
      PrefixSnoc(kl, i);
      i := i + 1;
    }
    assert kl[..i] == kl;
  }

  /** The loop that counts the values present and the null ones among them. */
  method CountNulls(rows: seq<Row>) returns (nullCount: nat, totalValues: nat)
    ensures nullCount == NullCount(rows)
    ensures totalValues == TotalValues(rows)
  {
    nullCount := 0;
    totalValues := 0;
    var i := 0;
    while i < |rows|
      invariant 0 <= i <= |rows|
      invariant nullCount == NullCount(rows[..i])
      invariant totalValues == TotalValues(rows[..i])
    {
      var row := rows[i];
      var p := 0;
      while p < |row|
        invariant 0 <= p <= |row|
        invariant nullCount == NullCount(rows[..i]) + NullsIn(row[..p])
        invariant totalValues == TotalValues(rows[..i]) + p
      {
        PrefixSnoc(row, p);
        totalValues := totalValues + 1;
        if row[p].1.JNull? {
          nullCount := nullCount + 1;
        }
        p := p + 1;
      }
      assert row[..p] == row;
      PrefixSnoc(rows, i);
      i := i + 1;
    }
    assert rows[..i] == rows;
  }

  /** The loop that fills `fieldTypes`: the kind of every value is added to the set of its
      field, a field's set being created the first time the field is seen. */
  method CollectKinds(rows: seq<Row>) returns (fieldTypes: seq<(string, set<string>)>)
    ensures fieldTypes == KindList(KindRows(rows))
  {
    ghost var kr := KindRows(rows);
    fieldTypes := [];
    var i := 0;
    while i < |rows|
      invariant 0 <= i <= |rows|
      invariant fieldTypes == KindList(kr[..i])
    {
      var row := rows[i];
      ghost var pairs := kr[i];
      var p := 0;
      while p < |row|
        invariant 0 <= p <= |row|
        invariant fieldTypes == AddRowKinds(KindList(kr[..i]), pairs[..p])
      {
        PrefixSnoc(pairs, p);
        fieldTypes := AddKind(fieldTypes, row[p].0, Kind(row[p].1));
        p := p + 1;
      }
      assert pairs[..p] == pairs;
      PrefixSnoc(kr, i);
      i := i + 1;
    }
    assert kr[..i] == kr;
  }
}
