/** The schema preview shown before a JSON upload: a flattened, pre-order list of the
    document's keys with their types and paths, and the entries of its top level. */
module SchemaPreview {
  import opened JsonValue
  import opened Text

  /** The `type` column: `Array[n]`, `"null"`, or what `typeof` reports. */
  datatype Shape = ArrayOf(length: nat) | NullValue | TypeofName(name: string)

  /** One row of the schema. */
  datatype Entry = Entry(key: string, shape: Shape, path: string)

  /** The type of an object's value. */
  function ShapeOf(v: Json): Shape
  {
    if v.JArr? then ArrayOf(|v.items|) else if v.JNull? then NullValue else TypeofName(TypeOf(v))
  }

  /** `path || "root"`. */
  function OrRoot(path: string): string
  {
    if path != "" then path else "root"
  }

  /** `path ? `${path}.${key}` : key`. */
  function KeyPath(path: string, key: string): string
  {
    if path != "" then path + "." + key else key
  }

  /** `analyzeSchema(obj, path)`: an array gives one row for itself and then the rows of
      its first element only; an object gives, for each key in order, a row for the key
      followed by the rows of its value when that is an array or object; anything else
      gives no row. */
  function SchemaOf(j: Json, path: string): seq<Entry>
    decreases j, 1
  {
    match j
    case JArr(items) =>
      [Entry(OrRoot(path), ArrayOf(|items|), OrRoot(path))]
      + (if items == [] then [] else SchemaOf(Child(j, 0), path + "[0]"))
    case JObj(fields) => FieldsSchema(j, path, |fields|)
    case _ => []
  }

  /** The rows of the first `n` keys of an object. */
  function FieldsSchema(j: Json, path: string, n: nat): seq<Entry>
    requires j.JObj? && n <= |j.fields|
    decreases j, 0, n
  {
    if n == 0 then []
    else FieldsSchema(j, path, n - 1) + FieldSchema(j, path, n - 1)
  }

  /** The rows of the `i`-th key of an object. */
  function FieldSchema(j: Json, path: string, i: nat): seq<Entry>
    requires j.JObj? && i < |j.fields|
    decreases j, 0, i
  {
    var key := j.fields[i].0;
    var value := Child(j, i);
    var current := KeyPath(path, key);
    [Entry(key, ShapeOf(value), current)] + (if IsContainer(value) then SchemaOf(value, current) else [])
  }

  /** `analyzeSchema`, pushing rows into a local list as it walks the value. */
  method AnalyzeSchema(obj: Json, path: string) returns (schema: seq<Entry>)
    ensures schema == SchemaOf(obj, path)
    decreases obj
  {
    schema := [];
    if obj.JNull? {
      return;
    }
    if obj.JArr? {
      schema := schema + [Entry(OrRoot(path), ArrayOf(|obj.items|), OrRoot(path))];
      if |obj.items| > 0 {
        var sample := AnalyzeSchema(Child(obj, 0), path + "[0]");
        schema := schema + sample;
      }
    } else if obj.JObj? {
      var i := 0;
      while i < |obj.fields|
        invariant i <= |obj.fields|
        invariant schema == FieldsSchema(obj, path, i)
      {
        var key := obj.fields[i].0;
        var value := Child(obj, i);
        var currentPath := KeyPath(path, key);
        schema := schema + [Entry(key, ShapeOf(value), currentPath)];
        if IsContainer(value) {
          var nested := AnalyzeSchema(value, currentPath);
          schema := schema + nested;
        }
        i := i + 1;
      }
    }
  }

  // ---------------------------------------------------------------------
  // Paths

  /** `path` is `p` itself or goes on from `p` with a `.` or a `[`. */
  predicate Below(p: string, path: string)
  {
    && |p| <= |path| && path[..|p|] == p
    && (|path| == |p| || path[|p|] == '.' || path[|p|] == '[')
  }

  lemma BelowLonger(p: string, q: string, path: string)
    requires |p| < |q| && q[..|p|] == p && (q[|p|] == '.' || q[|p|] == '[')
    requires Below(q, path)
    ensures Below(p, path) && |path| > |p|
  {
    assert path[..|q|][..|p|] == path[..|p|];
  }

  /** Under a non-empty path, every row's path goes on from it; only an array's own row
      keeps the path itself, and it is the first row. */
  lemma {:induction false} SchemaPaths(j: Json, p: string)
    requires p != ""
    ensures forall i | 0 <= i < |SchemaOf(j, p)| ::
      Below(p, SchemaOf(j, p)[i].path) && (|SchemaOf(j, p)[i].path| == |p| ==> i == 0 && j.JArr?)
    decreases j, 1
  {
    var s := SchemaOf(j, p);
    if j.JArr? && j.items != [] {
      var q := p + "[0]";
      SchemaPaths(Child(j, 0), q);
      var rest := SchemaOf(Child(j, 0), q);
      assert s == [s[0]] + rest;
      assert q[..|p|] == p && q[|p|] == '[';
      forall i | 1 <= i < |s| ensures Below(p, s[i].path) && |s[i].path| > |p| {
        assert s[i] == rest[i - 1];
        assert Below(q, rest[i - 1].path);
        BelowLonger(p, q, s[i].path);
      }
    } else if j.JObj? {
      FieldsPaths(j, p, |j.fields|);
    }
  }

  /** Under a non-empty path, every row of an object's keys goes on from it with a `.`. */
  lemma {:induction false} FieldsPaths(j: Json, p: string, n: nat)
    requires p != "" && j.JObj? && n <= |j.fields|
    ensures forall i | 0 <= i < |FieldsSchema(j, p, n)| ::
      Below(p, FieldsSchema(j, p, n)[i].path) && |FieldsSchema(j, p, n)[i].path| > |p|
    decreases j, 0, n
  {
    if n > 0 {
      FieldsPaths(j, p, n - 1);
      var prev := FieldsSchema(j, p, n - 1);
      var here := FieldSchema(j, p, n - 1);
      var value := Child(j, n - 1);
      var q := KeyPath(p, j.fields[n - 1].0);
      assert q == p + "." + j.fields[n - 1].0;
      assert q[..|p|] == p && q[|p|] == '.';
      var s := prev + here;
      forall i | 0 <= i < |s| ensures Below(p, s[i].path) && |s[i].path| > |p| {
        if i < |prev| {
          assert s[i] == prev[i];
        } else {
          var k := i - |prev|;
          assert s[i] == here[k];
          if k > 0 {
            SchemaPaths(value, q);
            assert here[k] == SchemaOf(value, q)[k - 1];
            assert Below(q, SchemaOf(value, q)[k - 1].path);
            BelowLonger(p, q, s[i].path);
          }
        }
      }
    }
  }

  // ---------------------------------------------------------------------
  // Root keys

  /** A path with neither `.` nor `[`. */
  predicate AtRoot(path: string)
  {
    '.' !in path && '[' !in path
  }

  /** `schema.filter(s => !s.path.includes(".") && !s.path.includes("["))`. */
  function RootKeys(schema: seq<Entry>): (r: seq<Entry>)
    ensures |r| <= |schema|
  {
    if schema == [] then []
    else
      var last := schema[|schema| - 1];
      RootKeys(schema[..|schema| - 1]) + (if AtRoot(last.path) then [last] else [])
  }

  lemma {:induction false} RootKeysAppend(a: seq<Entry>, b: seq<Entry>)
    ensures RootKeys(a + b) == RootKeys(a) + RootKeys(b)
  {
    if b != [] {
      assert (a + b)[..|a + b| - 1] == a + b[..|b| - 1];
      RootKeysAppend(a, b[..|b| - 1]);
    } else {
      assert a + b == a;
    }
  }

  /** Filtering keeps exactly the rows with a root path, in order. */
  lemma {:induction false} RootKeysSpec(schema: seq<Entry>)
    ensures forall e | e in RootKeys(schema) :: e in schema && AtRoot(e.path)
    ensures forall e | e in schema && AtRoot(e.path) :: e in RootKeys(schema)
  {
    if schema != [] {
      RootKeysSpec(schema[..|schema| - 1]);
      assert schema == schema[..|schema| - 1] + [schema[|schema| - 1]];
    }
  }

  /** No row passes the filter. */
  lemma {:induction false} RootKeysNone(schema: seq<Entry>)
    requires forall i | 0 <= i < |schema| :: !AtRoot(schema[i].path)
    ensures RootKeys(schema) == []
  {
    if schema != [] {
      RootKeysNone(schema[..|schema| - 1]);
    }
  }

  /** A path that goes on from `p` with a `.` or a `[` is not a root path. */
  lemma NotAtRoot(p: string, path: string)
    requires Below(p, path) && |path| > |p|
    ensures !AtRoot(path)
  {
    assert path[|p|] in path;
  }

  /** The rows of a value under a root key `k`: only an array's own row is a root row. */
  lemma NestedRootKeys(v: Json, k: string)
    requires k != "" && AtRoot(k)
    ensures RootKeys(SchemaOf(v, k)) == if v.JArr? then [Entry(k, ArrayOf(|v.items|), k)] else []
  {
    var s := SchemaOf(v, k);
    SchemaPaths(v, k);
    if v.JArr? {
      var rest := s[1..];
      forall i | 0 <= i < |rest| ensures !AtRoot(rest[i].path) {
        assert rest[i] == s[i + 1];
        assert Below(k, s[i + 1].path) && (|s[i + 1].path| == |k| ==> i + 1 == 0);
        NotAtRoot(k, s[i + 1].path);
      }
      RootKeysNone(rest);
      assert s == [s[0]] + rest;
      RootKeysAppend([s[0]], rest);
      assert s[0].path == k;
      assert RootKeys([s[0]]) == [s[0]];
    } else {
      forall i | 0 <= i < |s| ensures !AtRoot(s[i].path) {
        assert Below(k, s[i].path) && (|s[i].path| == |k| ==> v.JArr?);
        NotAtRoot(k, s[i].path);
      }
      RootKeysNone(s);
    }
  }

  /** The root rows of one top-level key: the key itself, and a second time when its value
      is an array. */
  function KeyRows(k: string, v: Json): seq<Entry>
  {
    [Entry(k, ShapeOf(v), k)] + (if v.JArr? then [Entry(k, ArrayOf(|v.items|), k)] else [])
  }

  /** The keys of a root object are non-empty and hold neither `.` nor `[`. */
  predicate PlainKeys(j: Json)
  {
    j.JObj? && forall i | 0 <= i < |j.fields| :: j.fields[i].0 != "" && AtRoot(j.fields[i].0)
  }

  /** The root rows of the first `n` keys of such an object: each key in order, twice
      when its value is an array. */
  function TopLevel(j: Json, n: nat): seq<Entry>
    requires j.JObj? && n <= |j.fields|
  {
    if n == 0 then [] else TopLevel(j, n - 1) + KeyRows(j.fields[n - 1].0, j.fields[n - 1].1)
  }

  lemma FieldRootKeys(j: Json, i: nat)
    requires PlainKeys(j) && i < |j.fields|
    ensures RootKeys(FieldSchema(j, "", i)) == KeyRows(j.fields[i].0, j.fields[i].1)
  {
    var k := j.fields[i].0;
    var v := Child(j, i);
    assert v == j.fields[i].1;
    var nested := if IsContainer(v) then SchemaOf(v, k) else [];
    var head := [Entry(k, ShapeOf(v), k)];
    assert FieldSchema(j, "", i) == head + nested;
    RootKeysAppend(head, nested);
    assert RootKeys(head) == head;
    if IsContainer(v) {
      NestedRootKeys(v, k);
    }
  }

  /** The root rows of the first `n` keys of an object with plain keys. */
  lemma {:induction false} RootKeysOfObject(j: Json, n: nat)
    requires PlainKeys(j) && n <= |j.fields|
    ensures RootKeys(FieldsSchema(j, "", n)) == TopLevel(j, n)
  {
    if n > 0 {
      RootKeysOfObject(j, n - 1);
      FieldRootKeys(j, n - 1);
      RootKeysAppend(FieldsSchema(j, "", n - 1), FieldSchema(j, "", n - 1));
    }
  }

  /** A root array gives the single root row `root`: its first element's rows all sit
      under `[0]`. */
  lemma RootKeysOfArray(items: seq<Json>)
    ensures RootKeys(SchemaOf(JArr(items), "")) == [Entry("root", ArrayOf(|items|), "root")]
  {
    var j := JArr(items);
    var head := Entry("root", ArrayOf(|items|), "root");
    assert RootKeys([head]) == [head];
    if items == [] {
      assert SchemaOf(j, "") == [head];
    } else {
      var q: string := "[0]";
      assert "" + "[0]" == q;
      var rest := SchemaOf(Child(j, 0), q);
      assert SchemaOf(j, "") == [head] + rest;
      SchemaPaths(Child(j, 0), q);
      forall i | 0 <= i < |rest| ensures !AtRoot(rest[i].path) {
        assert Below(q, rest[i].path);
        assert rest[i].path[0] == q[0] == '[';
      }
      RootKeysNone(rest);
      RootKeysAppend([head], rest);
    }
  }

  /** The preview's root keys: scalars and null give none; an array gives the single row
      `root`; an object whose keys are non-empty and hold neither `.` nor `[` gives its
      keys in order, each with its type and itself as path, and an array value's key a
      second time. */
  lemma RootKeysOfDocument(j: Json)
    ensures !IsContainer(j) ==> RootKeys(SchemaOf(j, "")) == []
    ensures j.JArr? ==> RootKeys(SchemaOf(j, "")) == [Entry("root", ArrayOf(|j.items|), "root")]
    ensures PlainKeys(j) ==> RootKeys(SchemaOf(j, "")) == TopLevel(j, |j.fields|)
  {
    if j.JArr? {
      RootKeysOfArray(j.items);
    } else if PlainKeys(j) {
      RootKeysOfObject(j, |j.fields|);
    }
  }

  /** A top-level key holding a `.` is filtered out of the root keys with the nested ones. */
  lemma DottedKeyDropped()
    ensures SchemaOf(JObj([("a.b", JNum(1.0))]), "") == [Entry("a.b", TypeofName("number"), "a.b")]
    ensures RootKeys(SchemaOf(JObj([("a.b", JNum(1.0))]), "")) == []
  {
    var j := JObj([("a.b", JNum(1.0))]);
    assert Child(j, 0) == JNum(1.0);
    assert FieldSchema(j, "", 0) == [Entry("a.b", TypeofName("number"), "a.b")];
    assert SchemaOf(j, "") == FieldsSchema(j, "", 0) + FieldSchema(j, "", 0);
    assert "a.b"[1] == '.';
    RootKeysNone(SchemaOf(j, ""));
  }

  /** A key whose value is an array gives two rows with the same path (unless that path
      is empty, when the second row says `root`): its own, and the array's, which carries
      the same `Array[n]` type. */
  lemma ArrayKeyTwice(j: Json, p: string, i: nat)
    requires j.JObj? && i < |j.fields| && j.fields[i].1.JArr?
    ensures var rows := FieldSchema(j, p, i);
      && |rows| >= 2
      && rows[0].path == KeyPath(p, j.fields[i].0)
      && rows[1].path == OrRoot(rows[0].path)
      && rows[0].shape == rows[1].shape == ArrayOf(|j.fields[i].1.items|)
  {
    var v := j.fields[i].1;
    assert Child(j, i) == v;
    var current := KeyPath(p, j.fields[i].0);
    assert SchemaOf(v, current)[0] == Entry(OrRoot(current), ArrayOf(|v.items|), OrRoot(current));
  }

  /** Only the first element of an array is described: arrays of the same length with the
      same first element give the same rows. */
  lemma FirstElementOnly(a: seq<Json>, b: seq<Json>, p: string)
    requires |a| == |b| && (a != [] ==> a[0] == b[0])
    ensures SchemaOf(JArr(a), p) == SchemaOf(JArr(b), p)
  {
    if a != [] {
      assert Child(JArr(a), 0) == a[0] && Child(JArr(b), 0) == b[0];
    }
  }
}
