/** The upload dialog: its list of picked files, and its search for stored JSON files whose
    top-level keys resemble those of a document about to be uploaded. */
module UploadModal {
  import opened JsonValue
  import opened Text
  import ObjectFields
  import TagManager

  // ---------------------------------------------------------------------
  // The list of picked files

  /** A picked file and the name it will be uploaded under; `F` stands for the browser's
      file object, which the dialog never looks into here. */
  datatype FileWithName<F> = FileWithName(file: F, customName: string)

  /** `removeFile(index)`. */
  function RemoveFile<F>(list: seq<FileWithName<F>>, index: int): seq<FileWithName<F>>
  {
    TagManager.WithoutIndex(list, index, |list|)
  }

  /** Removing drops exactly the entry at `index` and keeps the others in order; an index
      outside the list changes nothing. */
  lemma RemoveFileSpec<F>(list: seq<FileWithName<F>>, index: int)
    ensures 0 <= index < |list| ==> RemoveFile(list, index) == list[..index] + list[index + 1..]
    ensures !(0 <= index < |list|) ==> RemoveFile(list, index) == list
  {
    TagManager.WithoutIndexSpec(list, index, |list|);
    assert list[..|list|] == list;
  }

  /** `renameFile(index, newName)`: the entry at `index` takes the new name. */
  function RenameFile<F>(list: seq<FileWithName<F>>, index: int, newName: string): seq<FileWithName<F>>
  {
    if 0 <= index < |list| then list[index := list[index].(customName := newName)] else list
  }

  /** Renaming keeps every file and every position, and changes the name at `index` only. */
  lemma RenameFileSpec<F>(list: seq<FileWithName<F>>, index: int, newName: string, i: nat)
    requires i < |list|
    ensures |RenameFile(list, index, newName)| == |list|
    ensures RenameFile(list, index, newName)[i].file == list[i].file
    ensures RenameFile(list, index, newName)[i].customName == if i == index then newName else list[i].customName
  {
  }

  /** The last rename of an entry is the one that counts, and renaming an entry that is then
      removed leaves no trace. */
  lemma RenameThenEdit<F>(list: seq<FileWithName<F>>, index: int, first: string, second: string)
    ensures RenameFile(RenameFile(list, index, first), index, second) == RenameFile(list, index, second)
    ensures RemoveFile(RenameFile(list, index, first), index) == RemoveFile(list, index)
  {
    var renamed := RenameFile(list, index, first);
    RemoveFileSpec(list, index);
    RemoveFileSpec(renamed, index);
    if 0 <= index < |list| {
      assert renamed[..index] == list[..index];
      assert renamed[index + 1..] == list[index + 1..];
    }
  }

  // ---------------------------------------------------------------------
  // Key similarity

  /** `Object.keys(v)`: an object's keys, an array's or a string's indices, none for a
      number or a boolean; `null` makes it throw. */
  function ObjectKeys(v: Json): Option<seq<string>>
  {
    if v.JNull? then None else Some(Keys(ObjectFields.Spread(v)))
  }

  function SetOf(s: seq<string>): set<string>
  {
    set x | x in s
  }

  /** `currentKeys.filter(k => fileKeys.includes(k)).length`. */
  function SharedCount(current: seq<string>, other: seq<string>): (n: nat)
    ensures n <= |current|
  {
    if current == [] then 0
    else SharedCount(current[..|current| - 1], other) + (if current[|current| - 1] in other then 1 else 0)
  }

  /** `new Set([...currentKeys, ...fileKeys]).size`. */
  function UnionSize(current: seq<string>, other: seq<string>): nat
  {
    |SetOf(current) + SetOf(other)|
  }

  /** `(shared / union) * 100`. */
  function Percent(shared: nat, union: nat): real
    requires union > 0
  {
    shared as real / union as real * 100.0
  }

  /** `(intersection.length / union.size) * 100`; nothing when both key lists are empty,
      where the division gives `NaN`. */
  function Similarity(current: seq<string>, other: seq<string>): Option<real>
  {
    var union := UnionSize(current, other);
    if union == 0 then None else Some(Percent(SharedCount(current, other), union))
  }

  /** `similarity >= 60`, which `NaN` fails. */
  predicate Similar(current: seq<string>, other: seq<string>)
  {
    Similarity(current, other).Some? && Similarity(current, other).value >= 60.0
  }

  lemma RatioFacts(shared: real, union: real)
    requires 0.0 <= shared && 0.0 < union
    ensures 0.0 <= shared / union
    ensures shared <= union ==> shared / union <= 1.0
    ensures shared == union ==> shared / union == 1.0
    ensures shared / union >= 0.6 <==> shared >= 0.6 * union
  {
    var ratio := shared / union;
    assert ratio * union == shared;
    assert (ratio - 0.6) * union == shared - 0.6 * union;
    PositiveFactor(ratio - 0.6, union);
  }

  lemma PositiveFactor(a: real, b: real)
    requires 0.0 < b
    ensures 0.0 <= a <==> 0.0 <= a * b
  {
    if a < 0.0 {
      assert a * b < 0.0;
    }
  }

  /** The score lies between 0 and 100 when no more keys are shared than the union has, is
      100 when all are, and reaches 60 exactly when three keys in five are shared. */
  lemma PercentRange(shared: nat, union: nat)
    requires 0 < union
    ensures 0.0 <= Percent(shared, union)
    ensures shared <= union ==> Percent(shared, union) <= 100.0
    ensures shared == union ==> Percent(shared, union) == 100.0
    ensures Percent(shared, union) >= 60.0 <==> 5 * shared >= 3 * union
  {
    RatioFacts(shared as real, union as real);
  }

  lemma SetOfSnoc(s: seq<string>)
    requires s != []
    ensures SetOf(s) == SetOf(s[..|s| - 1]) + {s[|s| - 1]}
  {
    assert s == s[..|s| - 1] + [s[|s| - 1]];
  }

  lemma {:induction false} DistinctCard(s: seq<string>)
    requires Distinct(s)
    ensures |SetOf(s)| == |s|
  {
    if s != [] {
      var init := s[..|s| - 1];
      DistinctCard(init);
      SetOfSnoc(s);
      assert s[|s| - 1] !in SetOf(init);
    }
  }

  lemma IntersectAdd(a: set<string>, b: set<string>, x: string)
    requires x !in a
    ensures x in b ==> (a + {x}) * b == a * b + {x} && x !in a * b
    ensures x !in b ==> (a + {x}) * b == a * b
  {
  }

  lemma SubsetCard(a: set<string>, b: set<string>)
    requires a <= b
    ensures |a| <= |b|
    decreases a
  {
    if a != {} {
      var x :| x in a;
      SubsetCard(a - {x}, b - {x});
    }
  }

  /** For keys without repeats the count of shared keys is the size of the intersection of
      the two key sets. */
  lemma {:induction false} SharedIsIntersection(current: seq<string>, other: seq<string>)
    requires Distinct(current)
    ensures SharedCount(current, other) == |SetOf(current) * SetOf(other)|
  {
    if current != [] {
      var init := current[..|current| - 1];
      var last := current[|current| - 1];
      SharedIsIntersection(init, other);
      SetOfSnoc(current);
      assert last !in SetOf(init);
      assert last in other <==> last in SetOf(other);
      IntersectAdd(SetOf(init), SetOf(other), last);
    }
  }

  /** For keys without repeats the similarity is a percentage, it is missing exactly when
      both lists are empty, and identical key lists score 100. */
  lemma SimilarityRange(current: seq<string>, other: seq<string>)
    requires Distinct(current)
    ensures Similarity(current, other).None? <==> current == [] && other == []
    ensures Similarity(current, other).Some? ==>
      0.0 <= Similarity(current, other).value <= 100.0
    ensures current != [] ==> Similarity(current, current) == Some(100.0)
  {
    if current != [] {
      assert current[0] in SetOf(current);
    } else if other != [] {
      assert other[0] in SetOf(other);
    }
    DistinctCard(current);
    SubsetCard(SetOf(current), SetOf(current) + SetOf(other));
    if UnionSize(current, other) > 0 {
      PercentRange(SharedCount(current, other), UnionSize(current, other));
    }
    if current != [] {
      assert SetOf(current) + SetOf(current) == SetOf(current);
      SharedIsIntersection(current, current);
      assert SetOf(current) * SetOf(current) == SetOf(current);
      PercentRange(|current|, |current|);
    }
  }

  /** The score does not depend on which of the two key lists is the uploaded one. */
  lemma SimilaritySymmetric(current: seq<string>, other: seq<string>)
    requires Distinct(current) && Distinct(other)
    ensures Similarity(current, other) == Similarity(other, current)
  {
    SharedIsIntersection(current, other);
    SharedIsIntersection(other, current);
    assert SetOf(current) * SetOf(other) == SetOf(other) * SetOf(current);
    assert SetOf(current) + SetOf(other) == SetOf(other) + SetOf(current);
  }

  /** The threshold in whole numbers: at least three shared keys for every five keys of the
      union. In particular two empty key lists are never similar. */
  lemma SimilarThreshold(current: seq<string>, other: seq<string>)
    ensures Similar(current, other) <==>
      UnionSize(current, other) > 0 && 5 * SharedCount(current, other) >= 3 * UnionSize(current, other)
    ensures current == [] && other == [] ==> !Similar(current, other)
  {
    if UnionSize(current, other) > 0 {
      PercentRange(SharedCount(current, other), UnionSize(current, other));
    }
    if current == [] && other == [] {
      assert SetOf(current) + SetOf(other) == {};
    }
  }

  // ---------------------------------------------------------------------
  // Looking for stored files with similar keys

  /** A stored file as the listing answers with it: its original name, its id and its
      metadata, when it has any. */
  datatype StoredFile = StoredFile(originalName: string, id: string, metadata: Option<Json>)

  /** What the lookup of stored JSON data files gave: a non-OK status, a throw while
      fetching or reading the body, or the listed files (`data.files || []`). */
  datatype Listing = NotOk | Threw | Listed(files: seq<StoredFile>)

  /** One entry of the answer. */
  datatype Match = Match(fileName: string, similarity: real, id: string)

  /** `file.metadata && typeof file.metadata === "object"`. */
  predicate Comparable(f: StoredFile)
  {
    f.metadata.Some? && Truthy(f.metadata.value) && TypeOf(f.metadata.value) == "object"
  }

  /** Only metadata that is an object or an array is compared. */
  lemma ComparableSpec(f: StoredFile)
    ensures Comparable(f) <==> f.metadata.Some? && IsContainer(f.metadata.value)
  {
  }

  /** `Object.keys(file.metadata).sort()`. */
  function FileKeys(f: StoredFile): seq<string>
    requires Comparable(f)
  {
    SortStrings(Keys(ObjectFields.Spread(f.metadata.value)))
  }

  /** What one pass of the loop pushes for a file, if anything. */
  function Outcome(current: seq<string>, f: StoredFile): Option<Match>
  {
    if Comparable(f) && Similar(current, FileKeys(f)) then
      Some(Match(f.originalName, Similarity(current, FileKeys(f)).value, f.id))
    else None
  }

  /** The outcomes of all files, in the order listed. */
  function Outcomes(current: seq<string>, files: seq<StoredFile>): (outs: seq<Option<Match>>)
    ensures |outs| == |files|
  {
    seq(|files|, i requires 0 <= i < |files| => Outcome(current, files[i]))
  }

  /** The entries pushed, in order. */
  function Collected(outs: seq<Option<Match>>): seq<Match>
  {
    if outs == [] then []
    else Collected(outs[..|outs| - 1]) + (if outs[|outs| - 1].Some? then [outs[|outs| - 1].value] else [])
  }

  /** `checkSimilarSchemas(jsonContent)`: nothing on a non-OK status or a throw (`null`
      content makes `Object.keys` throw), otherwise the comparable stored files whose keys
      are similar to the content's, in the order listed. */
  function CheckSimilar(content: Json, listing: Listing): seq<Match>
  {
    if !listing.Listed? || ObjectKeys(content).None? then []
    else Collected(Outcomes(SortStrings(ObjectKeys(content).value), listing.files))
  }

  /** `checkSimilarSchemas`, pushing matches into a local list as it walks the files. */
  method CheckSimilarSchemas(content: Json, listing: Listing) returns (similar: seq<Match>)
    ensures similar == CheckSimilar(content, listing)
  {
    if !listing.Listed? {
      return [];
    }
    var keys := ObjectKeys(content);
    if keys.None? {
      return [];
    }
    var currentKeys := SortStrings(keys.value);
    similar := SimilarFiles(currentKeys, listing.files);
  }

  /** The `for` loop of `checkSimilarSchemas` over the listed files. */
  method SimilarFiles(currentKeys: seq<string>, files: seq<StoredFile>) returns (similar: seq<Match>)
    ensures similar == Collected(Outcomes(currentKeys, files))
  {
    ghost var outs := Outcomes(currentKeys, files);
    similar := [];
    var i := 0;
    while i < |files|
      invariant i <= |files|
      invariant similar == Collected(outs[..i])
    {
      CollectedStep(outs, i);
      similar := Consider(similar, currentKeys, files[i]);
      i := i + 1;
    }
    assert outs[..i] == outs;
  }

  /** One pass of the loop: a comparable file whose keys are similar enough is pushed. */
  method Consider(similar: seq<Match>, currentKeys: seq<string>, file: StoredFile) returns (pushed: seq<Match>)
    ensures var out := Outcome(currentKeys, file);
      pushed == similar + (if out.Some? then [out.value] else [])
  {
    pushed := similar;
    if Comparable(file) {
      var fileKeys := FileKeys(file);
      var similarity := Similarity(currentKeys, fileKeys);
      if similarity.Some? && similarity.value >= 60.0 {
        pushed := pushed + [Match(file.originalName, similarity.value, file.id)];
      }
    }
  }

  lemma CollectedStep(outs: seq<Option<Match>>, i: nat)
    requires i < |outs|
    ensures Collected(outs[..i + 1]) == Collected(outs[..i]) + (if outs[i].Some? then [outs[i].value] else [])
  {
    assert outs[..i + 1][..i] == outs[..i];
  }

  /** A failed lookup, and content whose keys cannot be taken, give no match. */
  lemma CheckSimilarFailures(content: Json, listing: Listing)
    ensures listing.NotOk? || listing.Threw? || content.JNull? ==> CheckSimilar(content, listing) == []
  {
  }

  /** The positions of the entries that push something. */
  function Positions(outs: seq<Option<Match>>): seq<nat>
  {
    if outs == [] then []
    else Positions(outs[..|outs| - 1]) + (if outs[|outs| - 1].Some? then [|outs| - 1] else [])
  }

  /** The positions are exactly those that push something, in increasing order, and the
      `i`-th entry collected is what the `i`-th of them pushed. */
  lemma {:induction false} PositionsSpec(outs: seq<Option<Match>>, j: nat)
    ensures forall p | p in Positions(outs) :: p < |outs|
    ensures j < |outs| ==> (j in Positions(outs) <==> outs[j].Some?)
    ensures forall a, b | 0 <= a < b < |Positions(outs)| :: Positions(outs)[a] < Positions(outs)[b]
    ensures |Collected(outs)| == |Positions(outs)|
    ensures forall i | 0 <= i < |Positions(outs)| ::
      Positions(outs)[i] < |outs| && outs[Positions(outs)[i]] == Some(Collected(outs)[i])
  {
    if outs != [] {
      var init := outs[..|outs| - 1];
      PositionsSpec(init, j);
      PositionsSpec(init, 0);
      forall i | 0 <= i < |Positions(init)| ensures outs[Positions(init)[i]] == init[Positions(init)[i]] {
      }
    }
  }

  /** The search keeps a listed file exactly when its metadata is an object or an array
      whose keys are similar to the uploaded content's; the matches come in the order the
      files are listed, each with its file's name, id and score. */
  lemma CheckSimilarSpec(current: seq<string>, files: seq<StoredFile>, j: nat)
    ensures var pos := Positions(Outcomes(current, files));
      && (j < |files| ==> (j in pos <==> Comparable(files[j]) && Similar(current, FileKeys(files[j]))))
      && (forall a, b | 0 <= a < b < |pos| :: pos[a] < pos[b])
      && |Collected(Outcomes(current, files))| == |pos|
      && forall i | 0 <= i < |pos| :: pos[i] < |files| && Outcome(current, files[pos[i]]) == Some(Collected(Outcomes(current, files))[i])
  {
    PositionsSpec(Outcomes(current, files), j);
  }

  /** Every match scores at least 60 and, for keys without repeats, at most 100. */
  lemma MatchScores(current: seq<string>, files: seq<StoredFile>, m: Match)
    requires m in Collected(Outcomes(current, files))
    ensures 60.0 <= m.similarity
    ensures Distinct(current) ==> m.similarity <= 100.0
  {
    var outs := Outcomes(current, files);
    PositionsSpec(outs, 0);
    var i :| 0 <= i < |Collected(outs)| && Collected(outs)[i] == m;
    var f := files[Positions(outs)[i]];
    assert Outcome(current, f) == Some(m);
    if Distinct(current) {
      SimilarityRange(current, FileKeys(f));
    }
  }
}
