# A verified model of the metadata front end's storage router

The application stores uploaded files and keeps their metadata in one of two stores:
PostgreSQL for data with a regular, table-like shape and MongoDB for schema-flexible
documents. This project models in Dafny the parts of the application that make
decisions, and proves what those decisions are. The I/O around them is left out.

- **The JSON structure analyzer** (`lib/json-analyzer.ts`). It measures the following metrics:
  - nesting depth;
  - schema consistency, field variance and null sparseity of arrays of objects;
  - mixed field types;
  - nested arrays;
  - array and object counts.

  A three-rule threshold policy then chooses a store, with a confidence and an ordered list of reasons.
- **The storage selector** (`lib/db-selector.ts`). It is a chain of rules on the extension, the MIME type, the size, the content depth and the file category, plus a majority rule for batches.
- **The file utilities** (`lib/utils.ts`): the extension parser and the category table.
- **The merge route**: the recursive `deepMerge`, the strategy switch, and the parameter and extension checks.
- **The search route**: tag parsing, building the SQL text and its parameters, and ordering the combined results newest first.
- **The statistics route**: the per-store counts and how they are combined.
- **The schema preview**: the recursive schema flattener and its root-key filter.
- **The tag editor**: adding, removing and renaming tags, the keyboard transitions and the suggestion filter.
- **The upload dialog**: removing and renaming picked files, and the key-similarity search for existing files with a similar schema.

A parsed JSON value is the datatype `JsonValue.Json`. Object keys keep their order, and a
number is a `real`.

JavaScript doubles are modelled as exact reals. Where the source can produce NaN
(the field variance of an array of `{}`), the model uses `TabularMetrics.Double`.

Code that updates a record, a map or a list step by step is modelled as Dafny methods that make the same updates in the same order:

- `analyzeArray`, `analyzeObject`, `countStructures` and `determineRecommendation`;
- the SQL builder;
- the statistics maps;
- the schema walk;
- the similarity loop.

Where the source loops, the method loops too and carries invariants. `determineRecommendation` and the SQL builder are straight-line code, in the source and in the model.

Each method is proved equal to a specification function, and the properties are proved about those functions.

`[]` and `{}` leave every metric at 0, so the clean-data rule sends them to PostgreSQL
(see `RecommendFacts.EmptyGoesToPostgres`).

## Model

| member | source | states |
|---|---|---|
| JsonValue.TypeOf | lib/json-analyzer.ts:163 | `typeof` reports "object" exactly for `null` and containers |
| JsonValue.KeyIndex | app/api/files/merge/route.ts:18-19 | the position found holds the key and no later position does; -1 only when the key is absent |
| JsonValue.KeyIndexAbsent | app/api/files/merge/route.ts:18 | `key in result` is false exactly when the key is not among the object's keys |
| JsonValue.KeyIndexUnique | app/api/files/merge/route.ts:18-19 | with distinct keys, a key's position is the one position holding it |
| JsonValue.Lookup | app/api/files/merge/route.ts:19 | a lookup misses exactly when the key is absent |
| Text.NatToString | app/api/files/route.ts:26 | `${n}` is a non-empty run of decimal digits, one digit exactly below 10 |
| Text.Split | app/api/files/route.ts:10 | `split(",")` gives at least one piece and no piece holds the separator |
| Text.JoinSplit | app/api/files/route.ts:10 | joining the pieces of a split gives back the text |
| Text.TrimSpec | components/TagManager.tsx:22 | `trim()` gives a slice of the text with no white space at either end; it is empty exactly when the text is all white space |
| Text.TrimIdempotent | components/TagManager.tsx:22 | trimming twice is trimming once |
| Text.ToLowerKeeps | lib/utils.ts:19 | lower-casing changes only letters, so a non-letter such as the dot is present after it exactly when it was before |
| Text.SortStrings | lib/json-analyzer.ts:110 | `sort()` keeps every key, each as often as before |
| Text.SortStringsSorted | lib/json-analyzer.ts:110 | `sort()` puts the keys in code-point order |
| Text.SortStringsCanonical | components/UploadModal.tsx:161 | two key lists holding the same keys, in any order, sort to the same list |
| FileUtils.LastIndexOf | lib/utils.ts:18 | `lastIndexOf` is the last position holding the character, or -1 |
| FileUtils.ToUint32 | lib/utils.ts:18 | `>>> 0` lands in [0, 2^32) |
| FileUtils.ExtensionSpec | lib/utils.ts:16-20 | the extension is the ASCII-lower-cased text after the last dot when that dot is past index 0; it is "" exactly when there is no such dot or the name ends with it |
| FileUtils.ExtensionShape | lib/utils.ts:16-20 | an extension never holds a dot or a letter A-Z |
| FileUtils.FirstMatchFirst | lib/utils.ts:47-53 | the table lookup gives "Other" when no list holds the extension, else the first list that does |
| FileUtils.FirstMatchIff | lib/utils.ts:47-53 | in a table with distinct names, a name is returned exactly when its list is the first to hold the extension |
| FileUtils.CategoryIff | lib/utils.ts:22-54 | `getFileCategory` is an exact, case-sensitive lookup: a category exactly when listed there, "Other" exactly when listed nowhere |
| FileUtils.NotListedEarlier | lib/utils.ts:23-45 | no extension of a category's list appears in an earlier list |
| FileUtils.CategoryOfListed | lib/utils.ts:22-54 | the eight lists are pairwise disjoint: a listed extension is in no other list and gets its own list's category |
| FileUtils.CategoryNamed | lib/utils.ts:22-54 | `getFileCategory` always answers with one of the nine category names |
| TabularMetrics.Schemas | lib/json-analyzer.ts:110 | one signature per element: its sorted keys joined with "," |
| TabularMetrics.Kind | lib/json-analyzer.ts:163 | the kind is "array" exactly for arrays, and `null` has kind "object" |
| TabularMetrics.ConsistencyRange | lib/json-analyzer.ts:113-114 | schema consistency lies in (0, 100] and is 100 exactly when all signatures are equal |
| TabularMetrics.SameKeysSameSignature | lib/json-analyzer.ts:110 | rows with the same keys, in any order, share a signature |
| TabularMetrics.SignaturesCanCollide | lib/json-analyzer.ts:110 | `{"a,b": …}` and `{"a": …, "b": …}` share a signature, as keys are joined unescaped |
| TabularMetrics.BumpKeys | lib/json-analyzer.ts:124 | `fieldCounts.set` keeps an old key in place and puts a new one last |
| TabularMetrics.CountListKeys | lib/json-analyzer.ts:121-126 | the count map holds each key that occurs, once |
| TabularMetrics.CountListCount | lib/json-analyzer.ts:121-126 | each key's count is its number of occurrences |
| TabularMetrics.CountListSum | lib/json-analyzer.ts:128-131 | `totalFields` is the number of key occurrences |
| TabularMetrics.CountBelow | lib/json-analyzer.ts:135-137 | at most one inconsistent field per key |
| TabularMetrics.OccBelowIffMissing | lib/json-analyzer.ts:135-137 | a key counts as inconsistent exactly when some element lacks it |
| TabularMetrics.InconsistentCount | lib/json-analyzer.ts:135-137 | the number of counts below the element count is the number of keys some element lacks |
| TabularMetrics.VarianceMeaning | lib/json-analyzer.ts:134-138 | field variance is the percentage of distinct keys some element lacks; NaN exactly when no element has a key |
| TabularMetrics.NoFieldsFullConsistency | lib/json-analyzer.ts:110-138 | when the variance is NaN, consistency is 100 |
| TabularMetrics.NullCount | lib/json-analyzer.ts:141-150 | there are no more nulls than values present, absent keys counting as neither |
| TabularMetrics.SparseityRange | lib/json-analyzer.ts:141-152 | sparseity lies in [0, 100], is 0 exactly when no present value is null (also with no values), and is 100 exactly when all present values are null |
| TabularMetrics.KindListKeys | lib/json-analyzer.ts:155-165 | `fieldTypes` holds each key that occurs, once |
| TabularMetrics.KindListKinds | lib/json-analyzer.ts:155-165 | each key's set is exactly the kinds seen for it |
| TabularMetrics.MixedTypesIff | lib/json-analyzer.ts:167-169 | `mixedTypes` holds exactly when some key is seen with two kinds |
| TabularLoops.TallyFields | lib/json-analyzer.ts:118-126 | the loop leaves `allFields` equal to the set of keys and `fieldCounts` equal to the count map |
| TabularLoops.CountNulls | lib/json-analyzer.ts:141-150 | the loop leaves the null count and the number of present values |
| TabularLoops.CollectKinds | lib/json-analyzer.ts:155-165 | the loop leaves `fieldTypes` equal to the kinds map |
| TreeMetrics.DepthIsMax | lib/json-analyzer.ts:72-92 | depth is 0 for scalars and empty containers, else one more than the deepest child |
| TreeMetrics.ShallowDepth | lib/json-analyzer.ts:211-218 | a container with no container child has depth at most 1 |
| TreeMetrics.NodesWithin | lib/json-analyzer.ts:221-237 | every array or object node of a subtree is counted in the tree holding it |
| NestedArrays.NestedArraysIff | lib/json-analyzer.ts:239-253 | `hasNestedArrays` holds exactly when some array within the value directly holds an array |
| Analysis.Rows | lib/json-analyzer.ts:104-108 | the rows of an array of objects are its elements' entries |
| AnalysisFacts.TableValid | lib/json-analyzer.ts:108-169 | the metrics of any non-empty array of objects are valid percentages |
| AnalysisFacts.ArrayEmptyMetrics | lib/json-analyzer.ts:98-101 | an empty array only clears the tabular flag |
| AnalysisFacts.ArrayMeasuredMetrics | lib/json-analyzer.ts:108-169 | a non-empty array of objects overwrites every metric with its own |
| AnalysisFacts.ArrayUnmeasuredMetrics | lib/json-analyzer.ts:104-108 | an array holding a non-object leaves the metrics alone |
| AnalysisFacts.StructureValid | lib/json-analyzer.ts:33-64 | the metrics before the recommendation are valid for every value |
| AnalysisFacts.FoldLastWins | lib/json-analyzer.ts:196-209 | the object loop leaves the metrics of the last measured array value in key order |
| AnalysisFacts.ObjectLastWins | lib/json-analyzer.ts:188-209 | a root object's metrics are those of its last measured array value |
| AnalysisFacts.UnmeasuredMetrics | lib/json-analyzer.ts:34-108 | without a measured array, consistency, variance and sparseity stay 0 and both flags false |
| AnalysisFacts.DepthFlags | lib/json-analyzer.ts:55-218 | `nestingDepth` is the depth, `isFlat` holds exactly at depth ≤ 2 and `isDeeplyNested` exactly above 3 |
| RecommendFacts.RecommendRules | lib/json-analyzer.ts:263-340 | PostgreSQL exactly when the consistency or the clean-data rule applies; the first applying rule sets the confidence and the leading reason; at least two reasons |
| RecommendFacts.ConfidenceRange | lib/json-analyzer.ts:266-307 | with valid metrics the confidence lies in [0, 100]: at least 90 under rule 1, above 75 under rule 2 |
| RecommendFacts.ConsistentReasonsIff | lib/json-analyzer.ts:267-283 | rule 1's reasons are the two fixed ones plus each optional one whose condition holds |
| RecommendFacts.CleanReasonsIff | lib/json-analyzer.ts:289-303 | rule 2's reasons are the two fixed ones, the conditional ones and the closing note |
| RecommendFacts.InconsistentReasonsIff | lib/json-analyzer.ts:308-337 | rule 3's reasons are the fixed ones plus the conditional ones, the two variance reasons excluding each other |
| RecommendFacts.PostgresReasons | lib/json-analyzer.ts:275-303 | each PostgreSQL-only reason appears exactly when its condition holds |
| RecommendFacts.MongoReasons | lib/json-analyzer.ts:312-324 | each MongoDB schema reason appears exactly when its threshold holds |
| RecommendFacts.MongoFlagReasons | lib/json-analyzer.ts:326-337 | each MongoDB flag reason appears exactly when its flag holds |
| RecommendFacts.ZeroMetricsPostgres | lib/json-analyzer.ts:284-288 | all-zero metrics pass rule 2 with confidence 100 |
| RecommendFacts.UnmeasuredGoesToPostgres | lib/json-analyzer.ts:34-288 | input without a measured array goes to PostgreSQL through rule 2 with confidence 100 |
| RecommendFacts.EmptyGoesToPostgres | lib/json-analyzer.ts:98-288 | `[]` and `{}` go to PostgreSQL |
| RecommendFacts.AnalyzeConfidence | lib/json-analyzer.ts:33-70 | for every value the confidence lies in [0, 100] and at least two reasons are given |
| AnalysisCounts.ArrayCounts | lib/json-analyzer.ts:94-185 | `analyzeArray` counts every node of the array once and each container element once more |
| AnalysisCounts.RootArrayCounts | lib/json-analyzer.ts:94-237 | under a root array every node counts once and each container element once more, as an object |
| AnalysisCounts.RootObjectCounts | lib/json-analyzer.ts:188-209 | under a root object every node counts once; each non-empty array value counts once more as an array, and each array or object element of it once more as an object |
| AnalysisCounts.RootArrayNested | lib/json-analyzer.ts:171-176 | under a root array, `hasNestedArrays` holds exactly when the array is measured and an element holds nested arrays |
| AnalysisCounts.RootObjectNested | lib/json-analyzer.ts:196-209 | under a root object, it holds exactly when some measured array value has such an element |
| JsonAnalyzer.CalculateDepth | lib/json-analyzer.ts:72-92 | the result is `currentDepth` plus the depth of the value |
| JsonAnalyzer.DeepestChild | lib/json-analyzer.ts:77-89 | the two loops keep the largest depth reached below any child |
| JsonAnalyzer.CountStructures | lib/json-analyzer.ts:221-237 | every array and object node is added to its count and nothing else changes |
| JsonAnalyzer.CountChildren | lib/json-analyzer.ts:224-235 | the `forEach` walks each container child in turn |
| JsonAnalyzer.Tabulate | lib/json-analyzer.ts:108-169 | the loops compute exactly the seven metrics, and tabular means consistency above 80 |
| JsonAnalyzer.FlagNested | lib/json-analyzer.ts:172-176 | the loop switches the flag on when some element holds nested arrays and never off |
| JsonAnalyzer.CountElements | lib/json-analyzer.ts:180-185 | each container element counts as an object and is then walked |
| JsonAnalyzer.AnalyzeArray | lib/json-analyzer.ts:94-186 | the updated record is the specification of `analyzeArray` on the old one |
| JsonAnalyzer.AnalyzeEntry | lib/json-analyzer.ts:196-208 | one key: arrays are counted and, when non-empty, analysed; objects are walked; scalars are skipped |
| JsonAnalyzer.AnalyzeObject | lib/json-analyzer.ts:188-219 | the updated record is the specification of `analyzeObject` on the old one |
| JsonAnalyzer.ConsistentBranch | lib/json-analyzer.ts:263-283 | rule 1 decides PostgreSQL with the consistency as confidence, with its reasons |
| JsonAnalyzer.CleanBranch | lib/json-analyzer.ts:284-303 | rule 2 decides PostgreSQL with `min(100 − s, 100 − v/2)`, with its reasons |
| JsonAnalyzer.InconsistentBranch | lib/json-analyzer.ts:304-338 | rule 3 decides MongoDB with `100 − consistency`, with its reasons |
| JsonAnalyzer.DetermineRecommendation | lib/json-analyzer.ts:255-341 | the record ends with the recommendation of the first rule that applies |
| JsonAnalyzer.AnalyzeJsonStructure | lib/json-analyzer.ts:33-70 | the result is the specification `Analyze(data)` the lemmas above describe |
| DbSelector.GetObjectDepth | lib/db-selector.ts:73-85 | the `for..in` loop computes `ObjectDepth` |
| DbSelector.ObjectDepthIsMax | lib/db-selector.ts:73-85 | 0 exactly for non-containers, 1 for empty containers, else one more than the deepest child |
| DbSelector.ObjectDepthVsDepth | lib/db-selector.ts:73-85 | `getObjectDepth` is the analyzer's depth or one more |
| DbSelector.SelectDatabase | lib/db-selector.ts:20-71 | the method, which runs the analyzer only when needed, returns `Select(file)` |
| DbSelector.JsonIsData | lib/utils.ts:43 | "json" is in the Data category |
| DbSelector.JsonFileRoute | lib/db-selector.ts:35-62 | a `.json` file follows the analyzer when it has content and goes to MongoDB otherwise |
| DbSelector.MongoIff | lib/db-selector.ts:35-70 | MongoDB exactly through the analyzer, a large JSON-typed file, content deeper than 3, or the Data category |
| DbSelector.DeepContentRoute | lib/db-selector.ts:52-57 | content deeper than 3 by analyzer depth goes to MongoDB; depth ≤ 2 never triggers the rule |
| DbSelector.MediaRoute | lib/db-selector.ts:64-67 | images, videos and audio go to PostgreSQL unless an earlier rule applies |
| DbSelector.UploadedFileRoute | app/api/upload/route.ts:45-62 | a non-JSON upload with content `{}` goes to MongoDB exactly when it is large and JSON-typed or in Data |
| DbSelector.Categories | lib/db-selector.ts:97-98 | one category per file, in order |
| DbSelector.BatchIff | lib/db-selector.ts:90-117 | a batch goes to MongoDB exactly when more than half its files are Data; an empty batch goes to PostgreSQL |
| ObjectFields.AssignShape | app/api/files/merge/route.ts:19-21 | assignment keeps keys distinct and ordered and adds a key only when new |
| ObjectFields.AssignAt | app/api/files/merge/route.ts:19-21 | after `result[key] = v` the key holds v and every other key its old value |
| ObjectFields.OverlayAt | app/api/files/merge/route.ts:102 | after overlaying, a key is present when either side has it and the overlay wins |
| ObjectFields.ShallowMergeSpec | app/api/files/merge/route.ts:102 | `{...a, ...b}` is a right-biased union with a's keys first |
| MergeRoute.DeepMerge | app/api/files/merge/route.ts:10-28 | the loop on a copy of the first object computes `DeepMergeOf` |
| MergeRoute.ParseStrategy | app/api/files/merge/route.ts:100-117 | only the four exact strings select a case |
| MergeRoute.MergeByStrategy | app/api/files/merge/route.ts:99-112 | the switch computes the chosen strategy's result |
| MergeRoute.StrategyFacts | app/api/files/merge/route.ts:107-111 | override gives the second data; combine gives exactly the keys `file1` and `file2` |
| MergeRoute.HandleMergeIff | app/api/files/merge/route.ts:63-118 | merges exactly when all parameters are truthy, both files exist and are JSON, both parse and the strategy is known; 404 exactly for a missing file; 400 for a missing parameter, for a file that is not JSON and for an unknown strategy |
| MergeFacts.MergeIntoAt | app/api/files/merge/route.ts:17-23 | after one turn the key holds the merge of its old and new values, others unchanged |
| MergeFacts.MergeFieldsAt | app/api/files/merge/route.ts:17-23 | after n keys of b, a key is present when either side has it |
| MergeFacts.MergeObjectsShape | app/api/files/merge/route.ts:15-25 | merged keys are distinct, the first object's coming first |
| MergeFacts.MergeObjectsAt | app/api/files/merge/route.ts:15-25 | keys are the union; a one-sided key keeps its value; shared keys merge recursively |
| MergeFacts.MergeOthers | app/api/files/merge/route.ts:11-27 | two arrays concatenate; every other pairing gives the second value |
| MergeFacts.MergeIdentity | app/api/files/merge/route.ts:11-25 | `{}` and `[]` are identities of the merge |
| FilesRoute.ParamOr | app/api/files/route.ts:9-12 | a missing or empty parameter takes the fallback |
| FilesRoute.TagsSpec | app/api/files/route.ts:10 | tags are the non-empty comma pieces, untrimmed, none lost |
| FilesRoute.NoTags | app/api/files/route.ts:10 | no parameter, or only commas, gives no tags |
| FilesRoute.LeadingDigits | app/api/files/route.ts:13-14 | `parseInt` reads the longest run of leading digits |
| FilesRoute.ParseNat | app/api/files/route.ts:13-14 | `parseInt` reads back any natural number's decimal text |
| FilesRoute.PagingDefaults | app/api/files/route.ts:13-14 | limit and offset default to 50 and 0 |
| FilesRoute.BuildSearch | app/api/files/route.ts:21-52 | the statements build exactly the query and parameters of the present filters |
| FilesRoute.DraftedFilters | app/api/files/route.ts:25-47 | the four `if`s leave the clauses and values of exactly the present filters |
| FilesRoute.ClausesUse | app/api/files/route.ts:25-47 | `$k` appears among the clauses exactly when there is a k-th filter |
| FilesRoute.ClauseBinds | app/api/files/route.ts:25-47 | the k-th clause alone names `$k`, and its value is the k-th parameter |
| FilesRoute.SearchPlaceholders | app/api/files/route.ts:49-52 | placeholders run from `$1` to `$n` for n parameters, LIMIT and OFFSET taking the last two |
| FilesRoute.FiltersCount | app/api/files/route.ts:25-51 | each present parameter adds exactly one filter; with none, LIMIT and OFFSET are `$1` and `$2` |
| FilesRoute.FiltersPresent | app/api/files/route.ts:25-47 | a filter applies exactly when its parameter is present |
| FilesRoute.QueryFirst | app/api/files/route.ts:25-28 | the text query's clause names `$1` twice and binds `%query%` once |
| FilesRoute.SortByDate | app/api/files/route.ts:124-128 | sorting keeps every file, each as often as before |
| FilesRoute.SortByDateSorted | app/api/files/route.ts:124-128 | sorting puts the newest first, a missing date counting as 0 |
| FilesRoute.CombinedSpec | app/api/files/route.ts:124-133 | the result is newest first, holds exactly both stores' files, and its total is the sum |
| FilesRoute.InsertWithKey | app/api/files/route.ts:124-128 | inserting a file puts it ahead of the files sharing its upload time and leaves every other group of ties in order |
| FilesRoute.SortByDateStable | app/api/files/route.ts:124-128 | the sort is stable: files with the same upload time keep their order |
| FilesRoute.CombinedTies | app/api/files/route.ts:124-128 | among files with the same upload time, PostgreSQL's come before MongoDB's, each store's in the order it returned them |
| StatsRoute.FillCounts | app/api/stats/route.ts:33-35 | the `forEach` leaves the map of the rows |
| StatsRoute.RowCountsSpec | app/api/stats/route.ts:33-65 | the map's keys are the rows' keys, each with its last row's count |
| StatsRoute.GatherStore | app/api/stats/route.ts:26-45 | one store's figures as far as its queries answered |
| StatsRoute.StoreFailure | app/api/stats/route.ts:7-45 | a store whose first query throws contributes 0 and no keys |
| StatsRoute.SumCounts | app/api/stats/route.ts:73-81 | the loop gives the union of keys, each with the sum of its two counts |
| StatsRoute.SumUnique | app/api/stats/route.ts:73-81 | the combination does not depend on the order keys are visited in |
| StatsRoute.SumFacts | app/api/stats/route.ts:73-91 | combining is symmetric, and an empty side changes nothing |
| StatsRoute.GetStats | app/api/stats/route.ts:5-93 | the response is both stores' figures and their combination |
| StatsRoute.StatsCombine | app/api/stats/route.ts:71-91 | combined total is the sum; combined maps hold both stores' keys with summed counts, missing counting 0 |
| SchemaPreview.AnalyzeSchema | components/JsonSchemaPreview.tsx:23-63 | the pushes build exactly `SchemaOf` |
| SchemaPreview.SchemaPaths | components/JsonSchemaPreview.tsx:31-59 | under a non-empty path every row's path extends it; only an array's own first row keeps it |
| SchemaPreview.RootKeysSpec | components/JsonSchemaPreview.tsx:65-68 | the filter keeps exactly the rows whose path holds neither `.` nor `[` |
| SchemaPreview.NestedRootKeys | components/JsonSchemaPreview.tsx:41-58 | under a root key only an array's own row stays a root row |
| SchemaPreview.RootKeysOfArray | components/JsonSchemaPreview.tsx:31-68 | a root array gives the single root row `root` |
| SchemaPreview.RootKeysOfDocument | components/JsonSchemaPreview.tsx:23-68 | scalars and null give no root keys; an array gives `root`; an object with plain keys gives its top-level rows |
| SchemaPreview.DottedKeyDropped | components/JsonSchemaPreview.tsx:43-68 | a top-level key holding `.` is filtered out |
| SchemaPreview.ArrayKeyTwice | components/JsonSchemaPreview.tsx:32-57 | an array-valued key yields two rows of its length with the same path (`root` for an empty path) |
| SchemaPreview.FirstElementOnly | components/JsonSchemaPreview.tsx:37-40 | only element 0 is described |
| TagManager.AddTagSpec | components/TagManager.tsx:21-27 | the list changes exactly when the trimmed tag is non-empty and new; it is then appended and the input cleared |
| TagManager.AddTagDistinct | components/TagManager.tsx:23 | adding keeps a repeat-free list repeat-free, and only trimmed non-empty tags are added |
| TagManager.RemoveTagSpec | components/TagManager.tsx:29-31 | exactly the tag at the index goes, others keep their order; an index outside changes nothing |
| TagManager.SaveEditSpec | components/TagManager.tsx:38-46 | the trimmed text goes at that index only, length kept, editing ends; a blank text changes nothing |
| TagManager.RenameSpec | components/TagManager.tsx:33-46 | a double-click opens the rename box with that tag's text; saving a non-blank text puts it, trimmed, at that index only; cancelling keeps the tags |
| TagManager.SaveEditAllowsRepeats | components/TagManager.tsx:38-46 | saving does not check for repeats |
| TagManager.KeyDownSpec | components/TagManager.tsx:48-72 | Enter saves or adds; Escape keeps the tags and ends editing; Backspace on an empty input drops the last tag |
| TagManager.NotTaggedMembers | components/TagManager.tsx:135 | the filter keeps exactly the suggestions that are not tags |
| TagManager.NotTaggedOrder | components/TagManager.tsx:135 | the filter keeps the suggestions in their order |
| TagManager.SuggestedSpec | components/TagManager.tsx:134-136 | at most five suggestions, none a tag, the first five untagged in order |
| UploadModal.RemoveFileSpec | components/UploadModal.tsx:110-112 | exactly the entry at the index goes; an index outside changes nothing |
| UploadModal.RenameFileSpec | components/UploadModal.tsx:114-120 | every file and position is kept, only the name at the index changes |
| UploadModal.RenameThenEdit | components/UploadModal.tsx:110-120 | the last rename wins; removing after renaming equals removing |
| UploadModal.SharedCount | components/UploadModal.tsx:171 | the intersection has at most as many keys as the current list |
| UploadModal.SharedIsIntersection | components/UploadModal.tsx:171-172 | for repeat-free keys the shared count is the size of the key-set intersection |
| UploadModal.PercentRange | components/UploadModal.tsx:173-175 | the score lies in [0, 100], is 100 when all keys are shared, and reaches 60 exactly at 3 in 5 |
| UploadModal.SimilarityRange | components/UploadModal.tsx:170-173 | similarity is a percentage, undefined exactly for two empty lists, 100 for identical keys |
| UploadModal.SimilaritySymmetric | components/UploadModal.tsx:170-173 | the score does not depend on which list is the upload's |
| UploadModal.SimilarThreshold | components/UploadModal.tsx:172-175 | a file is similar exactly when 5·shared ≥ 3·union > 0; two empty lists never are |
| UploadModal.ComparableSpec | components/UploadModal.tsx:169 | only object or array metadata is compared |
| UploadModal.Consider | components/UploadModal.tsx:169-182 | one pass pushes the match exactly when the file is comparable and similar |
| UploadModal.SimilarFiles | components/UploadModal.tsx:168-183 | the loop collects the matches of all files in order |
| UploadModal.CheckSimilarSchemas | components/UploadModal.tsx:150-190 | the method computes the specification of the search |
| UploadModal.CheckSimilarFailures | components/UploadModal.tsx:155-189 | a failed response, a throw or `null` content gives no match |
| UploadModal.PositionsSpec | components/UploadModal.tsx:168-183 | the matches are the pushes, in increasing file order |
| UploadModal.CheckSimilarSpec | components/UploadModal.tsx:168-183 | a file is kept exactly when it is comparable and similar; matches keep the listing order |
| UploadModal.MatchScores | components/UploadModal.tsx:175 | every match scores at least 60, and at most 100 for repeat-free keys |

## Left out

- All I/O is left out: the PostgreSQL and MongoDB queries, file reads and writes, `fetch`, `NextResponse` and logging. Query results are parameters of the model: rows, `Option`s, and a `Listing` for a response that failed or threw.
- `JSON.parse` and `JSON.stringify` are not modelled. A parse that fails is `None` (the merge route's `data1`/`data2`), and text is given already parsed.
- Floating point: metrics, confidences and the similarity are exact reals, so rounding is not captured. Only the NaN of `0/0` in the field variance is modelled.
- The MongoDB query builder in `app/api/files/route.ts` (lines 75-121) is not part of this model. Its results enter only as the list combined with PostgreSQL's.
- `getAnalysisSummary`, `formatFileSize`, `cn` and the `toFixed` text of the reasons are formatting only. Reasons are modelled as an enumeration in push order.
- The `logAnalysis` option of `selectDatabase` only logs.
- `parseInt` is modelled for decimal text with an optional sign. The model does not cover hexadecimal prefixes or values beyond 2^53.
- The stats route's `parseInt` of PostgreSQL's count strings is taken as an already-parsed number.
- JavaScript's ordering of integer-like object keys is not modelled: keys keep insertion order.
- Keys that plain objects inherit from `Object.prototype` are not modelled: `__proto__`, and names such as `constructor` or `toString`. Every object in the model holds only its own keys.
- StatsRoute.StatsCombine: an absent key counts as 0 whatever its name. In JavaScript, `byExtension[ext] || 0` and `byCategory[cat] || 0` read an inherited name such as `constructor` as the inherited function, so a category or extension with such a name gets a text sum, not a number.
- StatsRoute.SumCounts: the same reading of absent keys as 0, inherited names included.
- TagManager.SaveEdit: an editing index past the end appends the tag, where JavaScript would leave holes. The editor only sets indices of listed tags.
- The rest of the UploadModal component is left out, because it is event plumbing: drag and drop, the file input, the JSON preview and confirmation, and the upload handlers.
- Rendering code, JsonMergeModal (which repeats the route's merge), FileCard, SearchBar and JsonTableViewer are left out.
- UploadModal.SimilarityRange: the bounds need key lists without repeats. `Object.keys` never repeats a key, but the model proves this only for objects, not for the index keys of arrays and strings.
- UploadModal.SimilaritySymmetric: also stated for key lists without repeats only.
- UploadModal.MatchScores: the upper bound of 100 is also stated for key lists without repeats only.
- FileUtils.ExtensionSpec: stated for names shorter than 2^32 characters, where `>>> 0` cannot wrap a real index.
- FileUtils.ExtensionShape: the same restriction to names shorter than 2^32 characters.
- FileUtils.ExtensionSpec: lower-casing (Text.ToLower) maps only A-Z. `toLowerCase` maps all of Unicode, so "clip.M\u212AV" (a Kelvin sign) gives "mkv" in JavaScript but "m\u212Av", an Other file, in the model; "a.ÉPS" likewise keeps its É.
- FileUtils.ExtensionShape: "no letter A-Z" is all it promises; other upper-case letters are kept, as the line above says.
- Text.SortStringsSorted: strings compare by code point, while `sort()` compares UTF-16 code units, so keys holding characters above U+FFFF may come out in a different order.
- MergeFacts.MergeObjectsAt: stated for a second object with distinct keys, as every parsed object has.
- MergeFacts.MergeIdentity: merging `{}` with an object gives an equal object when the object's keys are distinct, as every parsed object's are.
- ObjectFields.ShallowMergeSpec: stated for a first spread with distinct keys.
- ObjectFields.Spread: a string spreads one key per Unicode character. JavaScript's `{..."s"}` gives one key per UTF-16 code unit, so "😀" has keys "0" and "1" (two lone surrogates) there, and only "0" in the model.
- UploadModal.ObjectKeys: the same: `Object.keys` of a string with characters above U+FFFF has more keys in JavaScript than in the model, which changes the key similarity of such strings.
