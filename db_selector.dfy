/** The storage router: which database an uploaded file, or a batch of files, goes to. */
module DbSelector {
  import opened JsonValue
  import opened TreeMetrics
  import opened Analysis
  import opened FileUtils
  import opened JsonAnalyzer

  /** What the router is told about one file; `content` is the parsed metadata, if any. */
  datatype FileInfo = FileInfo(filename: string, size: nat, mimeType: string, content: Option<Json>)

  /** `1024 * 1024`: above this many bytes a JSON-typed file goes to MongoDB. */
  const LargeFile: nat := 1048576

  /** The categories whose files always go to PostgreSQL. */
  const MediaCategories: seq<string> := ["Images", "Videos", "Audio"]

  // ---------------------------------------------------------------------
  // Substrings

  /** `t` occurs in `s` starting at position `i`. */
  predicate OccursAt(s: string, t: string, i: nat)
  {
    i + |t| <= |s| && s[i..i + |t|] == t
  }

  /** `s.includes(t)`. */
  predicate Includes(s: string, t: string)
  {
    exists i: nat | i <= |s| :: OccursAt(s, t, i)
  }

  // ---------------------------------------------------------------------
  // Object depth

  /** The greater of two depths, as `Math.max` picks it. */
  function Max(a: nat, b: nat): nat
  {
    if a >= b then a else b
  }

  /** The greatest object depth among the first `n` children of `j`, 0 for none. */
  function DeepestOf(j: Json, n: nat): nat
    requires n <= |Children(j)|
    decreases j, n
  {
    if n == 0 then 0 else Max(DeepestOf(j, n - 1), ObjectDepth(Child(j, n - 1)))
  }

  /** The depth `getObjectDepth` reports: 0 for anything but an array or object (null
      included), and otherwise one more than its deepest child, so 1 for an empty one. */
  function ObjectDepth(j: Json): nat
    decreases j, |Children(j)| + 1
  {
    if IsContainer(j) then DeepestOf(j, |Children(j)|) + 1 else 0
  }

  /** `getObjectDepth(obj)`: the `for..in` loop keeps the deepest child seen so far. */
  method GetObjectDepth(obj: Json) returns (d: nat)
    ensures d == ObjectDepth(obj)
    decreases obj
  {
    if !IsContainer(obj) {
      return 0;
    }
    var children := Children(obj);
    var maxDepth := 0;
    var i := 0;
    while i < |children|
      invariant i <= |children|
      invariant maxDepth == DeepestOf(obj, i)
    {
      var depth := GetObjectDepth(Child(obj, i));
      maxDepth := Max(maxDepth, depth);
      i := i + 1;
    }
    d := maxDepth + 1;
  }

  lemma {:induction false} DeepestBounds(j: Json, n: nat, k: nat)
    requires k < n <= |Children(j)|
    ensures ObjectDepth(Child(j, k)) <= DeepestOf(j, n)
  {
    if k < n - 1 {
      DeepestBounds(j, n - 1, k);
    }
  }

  lemma {:induction false} DeepestAttained(j: Json, n: nat) returns (k: nat)
    requires 0 < n <= |Children(j)|
    ensures k < n && DeepestOf(j, n) == ObjectDepth(Child(j, k))
  {
    if n == 1 || ObjectDepth(Child(j, n - 1)) >= DeepestOf(j, n - 1) {
      k := n - 1;
    } else {
      k := DeepestAttained(j, n - 1);
    }
  }

  /** Only arrays and objects have a positive depth; an empty one has depth 1, and any
      other is deeper than each child and exactly one deeper than its deepest child. */
  lemma ObjectDepthIsMax(j: Json)
    ensures ObjectDepth(j) == 0 <==> !IsContainer(j)
    ensures IsContainer(j) && Children(j) == [] ==> ObjectDepth(j) == 1
    ensures forall k | 0 <= k < |Children(j)| :: ObjectDepth(Child(j, k)) < ObjectDepth(j)
    ensures Children(j) != [] ==> exists k | 0 <= k < |Children(j)| :: ObjectDepth(j) == 1 + ObjectDepth(Child(j, k))
  {
    var n := |Children(j)|;
    if n > 0 {
      forall k | 0 <= k < n ensures ObjectDepth(Child(j, k)) < ObjectDepth(j) {
        DeepestBounds(j, n, k);
      }
      var k := DeepestAttained(j, n);
      assert ObjectDepth(j) == 1 + ObjectDepth(Child(j, k));
    }
  }

  /** Among the first `n` children, the deepest object depth lies between the deepest
      analyzer depth and one more. */
  lemma {:induction false} DeepestVsMax(j: Json, n: nat)
    requires n <= |Children(j)|
    requires forall k | 0 <= k < n :: Depth(Child(j, k)) <= ObjectDepth(Child(j, k)) <= Depth(Child(j, k)) + 1
    ensures MaxOf(ChildDepths(j)[..n]) <= DeepestOf(j, n) <= MaxOf(ChildDepths(j)[..n]) + 1
  {
    if n > 0 {
      DeepestVsMax(j, n - 1);
      assert ChildDepths(j)[..n][..n - 1] == ChildDepths(j)[..n - 1];
    }
  }

  /** `getObjectDepth` counts the empty array or object at the bottom of a branch as one
      more level, which `calculateDepth` does not: the two depths differ by at most one,
      and both are 0 exactly on scalars and null. */
  lemma {:induction false} ObjectDepthVsDepth(j: Json)
    ensures Depth(j) <= ObjectDepth(j) <= Depth(j) + 1
    decreases j
  {
    var n := |Children(j)|;
    if n > 0 {
      forall k | 0 <= k < n
        ensures Depth(Child(j, k)) <= ObjectDepth(Child(j, k)) <= Depth(Child(j, k)) + 1
      {
        ObjectDepthVsDepth(Child(j, k));
      }
      DeepestVsMax(j, n);
      assert ChildDepths(j)[..n] == ChildDepths(j);
    }
  }

  // ---------------------------------------------------------------------
  // One file

  /** `file.content` is present and truthy. */
  predicate HasContent(file: FileInfo)
  {
    file.content.Some? && Truthy(file.content.value)
  }

  /** `selectDatabase(file)`: the first rule that applies decides. */
  function Select(file: FileInfo): Storage
  {
    var extension := GetFileExtension(file.filename);
    var category := GetFileCategory(extension);
    if extension == "json" && HasContent(file) then Analyze(file.content.value).recommendedStorage
    else if Includes(file.mimeType, "json") && file.size > LargeFile then MongoDB
    else if HasContent(file) && IsContainer(file.content.value) && ObjectDepth(file.content.value) > 3 then MongoDB
    else if category == "Data" then MongoDB
    else if category in MediaCategories then Postgres
    else Postgres
  }

  /** `selectDatabase(file)`, running the analyzer and the depth walk only where a rule
      needs them. */
  method SelectDatabase(file: FileInfo) returns (r: Storage)
    ensures r == Select(file)
  {
    var extension := GetFileExtension(file.filename);
    var category := GetFileCategory(extension);
    if extension == "json" && HasContent(file) {
      var analysis := AnalyzeJsonStructure(file.content.value);
      return analysis.recommendedStorage;
    }
    if Includes(file.mimeType, "json") && file.size > LargeFile {
      return MongoDB;
    }
    if HasContent(file) && IsContainer(file.content.value) {
      var depth := GetObjectDepth(file.content.value);
      if depth > 3 {
        return MongoDB;
      }
    }
    if category == "Data" {
      return MongoDB;
    }
    if category in MediaCategories {
      return Postgres;
    }
    return Postgres;
  }

  /** `getFileCategory("json")` is "Data": the seventh list is the first to hold it. */
  lemma JsonIsData()
    ensures GetFileCategory("json") == "Data"
  {
    assert CategoryTable[6].1[0] == "json";
    assert "json" !in CategoryTable[0].1;
    assert "json" !in CategoryTable[1].1;
    assert "json" !in CategoryTable[2].1;
    assert "json" !in CategoryTable[3].1;
    assert "json" !in CategoryTable[4].1;
    assert "json" !in CategoryTable[5].1;
    CategoryIff("json", 6);
  }

  /** A file named `*.json` follows the analyzer's recommendation when its content is
      truthy, and otherwise goes to MongoDB: its category is Data, whatever else holds. */
  lemma JsonFileRoute(file: FileInfo)
    requires GetFileExtension(file.filename) == "json"
    ensures Select(file) == if HasContent(file) then Analyze(file.content.value).recommendedStorage else MongoDB
  {
    JsonIsData();
  }

  /** Only the analyzer, a large JSON-typed file, content nested more than three levels, or
      the Data category send a file to MongoDB. */
  lemma MongoIff(file: FileInfo)
    ensures var extension := GetFileExtension(file.filename);
      Select(file) == MongoDB <==>
        if extension == "json" && HasContent(file) then Analyze(file.content.value).recommendedStorage == MongoDB
        else
          || (Includes(file.mimeType, "json") && file.size > LargeFile)
          || (HasContent(file) && ObjectDepth(file.content.value) > 3)
          || GetFileCategory(extension) == "Data"
  {
    if HasContent(file) {
      ObjectDepthIsMax(file.content.value);
    }
  }

  /** Content whose analyzer depth exceeds 3 sends a file that is not analyzed as JSON to
      MongoDB; content of analyzer depth 2 or less never triggers the depth rule. */
  lemma DeepContentRoute(file: FileInfo)
    requires GetFileExtension(file.filename) != "json" && HasContent(file)
    ensures Depth(file.content.value) > 3 ==> Select(file) == MongoDB
    ensures (&& Depth(file.content.value) <= 2 && !Includes(file.mimeType, "json")
             && GetFileCategory(GetFileExtension(file.filename)) != "Data") ==> Select(file) == Postgres
  {
    ObjectDepthVsDepth(file.content.value);
    ObjectDepthIsMax(file.content.value);
  }

  /** Images, videos and audio go to PostgreSQL unless the type says JSON and the file is
      large, or the content is nested more than three levels. */
  lemma MediaRoute(file: FileInfo)
    requires GetFileCategory(GetFileExtension(file.filename)) in MediaCategories
    requires !(Includes(file.mimeType, "json") && file.size > LargeFile)
    requires !HasContent(file) || ObjectDepth(file.content.value) <= 3
    ensures Select(file) == Postgres
  {
    var extension := GetFileExtension(file.filename);
    if extension == "json" {
      JsonIsData();
    }
  }

  /** The upload route passes `{}` as the content of every file that is not JSON: such a
      file goes to MongoDB exactly when it is a large JSON-typed file or a Data file. */
  lemma UploadedFileRoute(filename: string, size: nat, mimeType: string)
    requires GetFileExtension(filename) != "json"
    ensures var r := Select(FileInfo(filename, size, mimeType, Some(JObj([]))));
      r == MongoDB <==> (Includes(mimeType, "json") && size > LargeFile) || GetFileCategory(GetFileExtension(filename)) == "Data"
  {
    ObjectDepthIsMax(JObj([]));
  }

  // ---------------------------------------------------------------------
  // A batch

  /** How many of the categories are "Data". */
  function DataCount(categories: seq<string>): nat
  {
    if categories == [] then 0
    else DataCount(categories[..|categories| - 1]) + (if categories[|categories| - 1] == "Data" then 1 else 0)
  }

  /** The categories of the files of a batch, in order. */
  function Categories(files: seq<FileInfo>): (cs: seq<string>)
    ensures |cs| == |files|
    ensures forall i | 0 <= i < |files| :: cs[i] == GetFileCategory(GetFileExtension(files[i].filename))
  {
    seq(|files|, i requires 0 <= i < |files| => GetFileCategory(GetFileExtension(files[i].filename)))
  }

  /** The set of the categories. */
  function CategorySet(categories: seq<string>): set<string>
  {
    set i | 0 <= i < |categories| :: categories[i]
  }

  /** `selectDatabaseForBatch(files)`: `dataFilesCount > files.length / 2` divides exactly,
      so it compares twice the count with the length. */
  function SelectForBatch(files: seq<FileInfo>): Storage
  {
    var categories := Categories(files);
    if 2 * DataCount(categories) > |files| then MongoDB
    else
      var unique := CategorySet(categories);
      if |unique| == 1 && categories[0] in MediaCategories then Postgres
      else Postgres
  }

  lemma {:induction false} DataCountBound(categories: seq<string>)
    ensures DataCount(categories) <= |categories|
    ensures DataCount(categories) == |categories| <==> forall i | 0 <= i < |categories| :: categories[i] == "Data"
  {
    if categories != [] {
      var init := categories[..|categories| - 1];
      DataCountBound(init);
      if forall i | 0 <= i < |categories| :: categories[i] == "Data" {
        assert forall i | 0 <= i < |init| :: init[i] == categories[i];
      }
      if DataCount(categories) == |categories| {
        forall i | 0 <= i < |categories| ensures categories[i] == "Data" {
          if i < |init| {
            assert init[i] == categories[i];
          }
        }
      }
    }
  }

  /** A batch goes to MongoDB exactly when strictly more than half of its files are Data
      files: never when empty, always when every file is a Data file. */
  lemma BatchIff(files: seq<FileInfo>)
    ensures SelectForBatch(files) == MongoDB <==> 2 * DataCount(Categories(files)) > |files|
    ensures files == [] ==> SelectForBatch(files) == Postgres
    ensures files != [] && (forall i | 0 <= i < |files| :: GetFileCategory(GetFileExtension(files[i].filename)) == "Data")
      ==> SelectForBatch(files) == MongoDB
  {
    DataCountBound(Categories(files));
  }
}
