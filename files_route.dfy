/** The file search endpoint: reading the search parameters, building the PostgreSQL
    query with its numbered placeholders, and merging the two stores' results newest
    first. */
module FilesRoute {
  import opened JsonValue
  import opened Text
  import opened Analysis

  // ---------------------------------------------------------------------
  // Search parameters

  /** `searchParams.get(name) || fallback`: a missing or empty parameter takes the
      fallback. */
  function ParamOr(p: Option<string>, fallback: string): (r: string)
    ensures p.Some? && p.value != "" ==> r == p.value
    ensures p.None? || p.value == "" ==> r == fallback
  {
    if p.Some? && p.value != "" then p.value else fallback
  }

  /** `parts.filter(Boolean)` on strings: the non-empty ones, in order. */
  function NonEmpty(parts: seq<string>): (r: seq<string>)
  {
    if parts == [] then []
    else
      var rest := NonEmpty(parts[..|parts| - 1]);
      if parts[|parts| - 1] == "" then rest else rest + [parts[|parts| - 1]]
  }

  /** `searchParams.get("tags")?.split(",").filter(Boolean) || []`. */
  function ParseTags(p: Option<string>): seq<string>
  {
    if p.None? then [] else NonEmpty(Split(p.value, ','))
  }

  lemma {:induction false} NonEmptySpec(parts: seq<string>)
    ensures var r := NonEmpty(parts);
      && (forall i | 0 <= i < |r| :: r[i] != "" && r[i] in parts)
      && (forall i | 0 <= i < |parts| && parts[i] != "" :: parts[i] in r)
      && |r| <= |parts|
  {
    if parts != [] {
      var init := parts[..|parts| - 1];
      NonEmptySpec(init);
      forall i | 0 <= i < |parts| && parts[i] != "" ensures parts[i] in NonEmpty(parts) {
        if i < |init| {
          assert parts[i] == init[i];
        }
      }
    }
  }

  lemma {:induction false} NonEmptyKeepsAll(parts: seq<string>)
    requires forall i | 0 <= i < |parts| :: parts[i] != ""
    ensures NonEmpty(parts) == parts
  {
    if parts != [] {
      NonEmptyKeepsAll(parts[..|parts| - 1]);
    }
  }

  /** The tags are the comma-separated pieces of the parameter with the empty ones
      dropped and nothing trimmed: none is empty and none holds a comma, every non-empty
      piece is one, and a parameter with no empty piece joins back to itself. */
  lemma TagsSpec(s: string)
    ensures var tags := ParseTags(Some(s));
      && (forall i | 0 <= i < |tags| :: tags[i] != "" && ',' !in tags[i])
      && (forall i | 0 <= i < |Split(s, ',')| && Split(s, ',')[i] != "" :: Split(s, ',')[i] in tags)
      && ((forall i | 0 <= i < |Split(s, ',')| :: Split(s, ',')[i] != "") ==> Join(tags, ',') == s)
  {
    var parts := Split(s, ',');
    NonEmptySpec(parts);
    if forall i | 0 <= i < |parts| :: parts[i] != "" {
      NonEmptyKeepsAll(parts);
      JoinSplit(s, ',');
    }
  }

  /** No tags parameter, or one made only of commas (the empty one included), gives no
      tags. */
  lemma NoTags(s: string)
    requires forall i | 0 <= i < |s| :: s[i] == ','
    ensures ParseTags(None) == [] && ParseTags(Some(s)) == []
  {
    var parts := Split(s, ',');
    forall i | 0 <= i < |parts| ensures parts[i] == "" {
      CommasOnly(s, i);
    }
    NonEmptyDropsAll(parts);
  }

  lemma {:induction false} NonEmptyDropsAll(parts: seq<string>)
    requires forall i | 0 <= i < |parts| :: parts[i] == ""
    ensures NonEmpty(parts) == []
  {
    if parts != [] {
      NonEmptyDropsAll(parts[..|parts| - 1]);
    }
  }

  lemma {:induction false} CommasOnly(s: string, i: nat)
    requires forall k | 0 <= k < |s| :: s[k] == ','
    requires i < |Split(s, ',')|
    ensures Split(s, ',')[i] == ""
  {
    if s != [] && i > 0 {
      CommasOnly(s[1..], i - 1);
    }
  }

  // ---------------------------------------------------------------------
  // parseInt

  predicate IsDigit(c: char)
  {
    '0' <= c <= '9'
  }

  /** The longest prefix made of decimal digits. */
  function LeadingDigits(s: string): (d: string)
    ensures |d| <= |s| && d == s[..|d|]
    ensures forall i | 0 <= i < |d| :: IsDigit(d[i])
    ensures |d| == |s| || !IsDigit(s[|d|])
  {
    if s != [] && IsDigit(s[0]) then [s[0]] + LeadingDigits(s[1..]) else ""
  }

  function DigitOf(c: char): nat
    requires IsDigit(c)
  {
    c as int - '0' as int
  }

  /** The value of a string of decimal digits. */
  function DigitsValue(d: string): nat
    requires forall i | 0 <= i < |d| :: IsDigit(d[i])
  {
    if d == [] then 0 else DigitsValue(d[..|d| - 1]) * 10 + DigitOf(d[|d| - 1])
  }

  /** `parseInt(s)` in base 10: leading white space and one sign are skipped, the longest
      run of digits is read, and no digit at all gives NaN (here, nothing). */
  function ParseInt(s: string): Option<int>
  {
    var t := TrimStart(s);
    var signed := t != [] && (t[0] == '-' || t[0] == '+');
    var digits := LeadingDigits(if signed then t[1..] else t);
    if digits == [] then None
    else if signed && t[0] == '-' then Some(0 - DigitsValue(digits))
    else Some(DigitsValue(digits))
  }

  lemma {:induction false} DigitsOfNat(n: nat)
    ensures DigitsValue(NatToString(n)) == n
  {
    if n >= 10 {
      DigitsOfNat(n / 10);
      var s := NatToString(n);
      assert s[..|s| - 1] == NatToString(n / 10);
    }
    DigitValue(n % 10);
  }

  lemma DigitValue(d: nat)
    requires d < 10
    ensures DigitOf(DigitChar(d)) == d
  {
  }

  /** `parseInt` reads back the decimal text of any natural number. */
  lemma ParseNat(n: nat)
    ensures ParseInt(NatToString(n)) == Some(n)
  {
    var s := NatToString(n);
    assert !IsJsSpace(s[0]);
    assert TrimStart(s) == s;
    assert LeadingDigits(s) == s;
    DigitsOfNat(n);
  }

  /** `parseInt(searchParams.get(name) || fallback)`. */
  function NumberParam(p: Option<string>, fallback: string): Option<int>
  {
    ParseInt(ParamOr(p, fallback))
  }

  /** Without the parameters, the page holds 50 results from the first on. */
  lemma PagingDefaults()
    ensures NumberParam(None, "50") == Some(50)
    ensures NumberParam(None, "0") == Some(0)
  {
    assert NatToString(5) == "5";
    assert NatToString(50) == NatToString(5) + [DigitChar(0)] == "50";
    assert NatToString(0) == "0";
    ParseNat(50);
    ParseNat(0);
  }

  // ---------------------------------------------------------------------
  // The PostgreSQL query

  /** The fixed pieces of SQL text the search query is made of. */
  datatype Fragment =
    | SelectFiles | NameLike | MetadataLike | CloseParen | TagsOverlapWith | TextArray
    | CategoryEquals | ExtensionEquals | OrderLimit | OffsetBy

  function FragmentText(f: Fragment): string
  {
    match f
    case SelectFiles => "SELECT * FROM files WHERE 1=1"
    case NameLike => " AND (original_name ILIKE "
    case MetadataLike => " OR metadata::text ILIKE "
    case CloseParen => ")"
    case TagsOverlapWith => " AND tags && "
    case TextArray => "::text[]"
    case CategoryEquals => " AND category = "
    case ExtensionEquals => " AND extension = "
    case OrderLimit => " ORDER BY uploaded_at DESC LIMIT "
    case OffsetBy => " OFFSET "
  }

  /** A piece of query text: fixed SQL, or the placeholder `$n` for the `n`-th
      parameter. */
  datatype Segment = Lit(fragment: Fragment) | Ph(index: nat)

  /** A value bound to a placeholder; a number is nothing when `parseInt` gave NaN. */
  datatype SqlParam = PText(s: string) | PTags(tags: seq<string>) | PNumber(n: Option<int>)

  /** The filters a search applies, in the order the query adds them. */
  datatype SearchFilter =
    | NameOrMetadata(pattern: string)
    | TagsOverlap(tags: seq<string>)
    | CategoryIs(category: string)
    | ExtensionIs(extension: string)

  function QueryFilter(query: string): seq<SearchFilter>
  {
    if query != "" then [NameOrMetadata("%" + query + "%")] else []
  }

  function TagsFilter(tags: seq<string>): seq<SearchFilter>
  {
    if tags != [] then [TagsOverlap(tags)] else []
  }

  function CategoryFilter(category: string): seq<SearchFilter>
  {
    if category != "" then [CategoryIs(category)] else []
  }

  function ExtensionFilter(extension: string): seq<SearchFilter>
  {
    if extension != "" then [ExtensionIs(extension)] else []
  }

  /** One filter per present search parameter: the text query as `%query%`, the tags when
      there is at least one, the category and the extension. */
  function Filters(query: string, tags: seq<string>, category: string, extension: string): seq<SearchFilter>
  {
    QueryFilter(query) + TagsFilter(tags) + CategoryFilter(category) + ExtensionFilter(extension)
  }

  /** The clause a filter adds when its parameter takes placeholder `k`. */
  function ClauseOf(f: SearchFilter, k: nat): seq<Segment>
  {
    match f
    case NameOrMetadata(_) => [Lit(NameLike), Ph(k), Lit(MetadataLike), Ph(k), Lit(CloseParen)]
    case TagsOverlap(_) => [Lit(TagsOverlapWith), Ph(k), Lit(TextArray)]
    case CategoryIs(_) => [Lit(CategoryEquals), Ph(k)]
    case ExtensionIs(_) => [Lit(ExtensionEquals), Ph(k)]
  }

  /** The value a filter binds. */
  function ParamOf(f: SearchFilter): SqlParam
  {
    match f
    case NameOrMetadata(pattern) => PText(pattern)
    case TagsOverlap(tags) => PTags(tags)
    case CategoryIs(category) => PText(category)
    case ExtensionIs(extension) => PText(extension)
  }

  /** The clauses of the filters, the `k`-th taking placeholder `k`. */
  function Clauses(fs: seq<SearchFilter>): seq<Segment>
  {
    if fs == [] then [] else Clauses(fs[..|fs| - 1]) + ClauseOf(fs[|fs| - 1], |fs|)
  }

  /** The values of the filters, in order. */
  function Params(fs: seq<SearchFilter>): (ps: seq<SqlParam>)
    ensures |ps| == |fs|
  {
    if fs == [] then [] else Params(fs[..|fs| - 1]) + [ParamOf(fs[|fs| - 1])]
  }

  const SelectAll: Segment := Lit(SelectFiles)

  /** The paging tail, whose two placeholders follow those of the filters. */
  function Paging(k: nat): seq<Segment>
  {
    [Lit(OrderLimit), Ph(k), Lit(OffsetBy), Ph(k + 1)]
  }

  /** `pgQuery` once built. */
  function SearchSql(fs: seq<SearchFilter>): seq<Segment>
  {
    [SelectAll] + Clauses(fs) + Paging(|fs| + 1)
  }

  /** `pgParams` once built. */
  function SearchParams(fs: seq<SearchFilter>, limit: Option<int>, offset: Option<int>): seq<SqlParam>
  {
    Params(fs) + [PNumber(limit), PNumber(offset)]
  }

  /** The statements that build `pgQuery` and `pgParams`, advancing `paramIndex` after
      each present filter. */
  method BuildSearch(query: string, tags: seq<string>, category: string, extension: string,
                     limit: Option<int>, offset: Option<int>)
    returns (pgQuery: seq<Segment>, pgParams: seq<SqlParam>)
    ensures var fs := Filters(query, tags, category, extension);
      pgQuery == SearchSql(fs) && pgParams == SearchParams(fs, limit, offset)
  {
    pgQuery := [SelectAll];
    pgParams := [];
    var paramIndex := 1;
    if query != "" {
      pgQuery := pgQuery + ClauseOf(NameOrMetadata("%" + query + "%"), paramIndex);
      pgParams := pgParams + [PText("%" + query + "%")];
      paramIndex := paramIndex + 1;
    }
    ghost var d := AddWhen(Draft([SelectAll], [], 1), query != "", NameOrMetadata("%" + query + "%"));
    assert d == Draft(pgQuery, pgParams, paramIndex);
    if tags != [] {
      pgQuery := pgQuery + ClauseOf(TagsOverlap(tags), paramIndex);
      pgParams := pgParams + [PTags(tags)];
      paramIndex := paramIndex + 1;
    }
    d := AddWhen(d, tags != [], TagsOverlap(tags));
    assert d == Draft(pgQuery, pgParams, paramIndex);
    if category != "" {
      pgQuery := pgQuery + ClauseOf(CategoryIs(category), paramIndex);
      pgParams := pgParams + [PText(category)];
      paramIndex := paramIndex + 1;
    }
    d := AddWhen(d, category != "", CategoryIs(category));
    assert d == Draft(pgQuery, pgParams, paramIndex);
    if extension != "" {
      pgQuery := pgQuery + ClauseOf(ExtensionIs(extension), paramIndex);
      pgParams := pgParams + [PText(extension)];
      paramIndex := paramIndex + 1;
    }
    d := AddWhen(d, extension != "", ExtensionIs(extension));
    assert d == Draft(pgQuery, pgParams, paramIndex);
    ghost var fs := Filters(query, tags, category, extension);
    DraftedFilters(query, tags, category, extension);
    FinishSearch(pgQuery, pgParams, fs, limit, offset);
    pgQuery := pgQuery + Paging(paramIndex);
    pgParams := pgParams + [PNumber(limit), PNumber(offset)];
  }

  /** The query, the parameters and the next placeholder number while the query is built. */
  datatype Draft = Draft(sql: seq<Segment>, params: seq<SqlParam>, next: nat)

  /** One `if` of the builder: a present filter appends its clause and value and moves the
      placeholder number on; an absent one changes nothing. */
  function AddWhen(d: Draft, present: bool, f: SearchFilter): Draft
  {
    if present then Draft(d.sql + ClauseOf(f, d.next), d.params + [ParamOf(f)], d.next + 1) else d
  }

  /** The four `if`s in order. */
  function Drafted(query: string, tags: seq<string>, category: string, extension: string): Draft
  {
    var d1 := AddWhen(Draft([SelectAll], [], 1), query != "", NameOrMetadata("%" + query + "%"));
    var d2 := AddWhen(d1, tags != [], TagsOverlap(tags));
    var d3 := AddWhen(d2, category != "", CategoryIs(category));
    AddWhen(d3, extension != "", ExtensionIs(extension))
  }

  /** The four `if`s leave the clauses and values of exactly the present filters. */
  lemma DraftedFilters(query: string, tags: seq<string>, category: string, extension: string)
    ensures var d := Drafted(query, tags, category, extension);
      Built(d.sql, d.params, d.next, Filters(query, tags, category, extension))
  {
    var d0 := Draft([SelectAll], [], 1);
    var d1 := AddWhen(d0, query != "", NameOrMetadata("%" + query + "%"));
    Stage(d0, [], query != "", NameOrMetadata("%" + query + "%"));
    var fs1 := QueryFilter(query);
    assert [] + fs1 == fs1;
    var d2 := AddWhen(d1, tags != [], TagsOverlap(tags));
    Stage(d1, fs1, tags != [], TagsOverlap(tags));
    var fs2 := fs1 + TagsFilter(tags);
    var d3 := AddWhen(d2, category != "", CategoryIs(category));
    Stage(d2, fs2, category != "", CategoryIs(category));
    var fs3 := fs2 + CategoryFilter(category);
    Stage(d3, fs3, extension != "", ExtensionIs(extension));
  }

  /** A step taken from the query and values of some filters leaves those of the filters
      with the new one added when it is present. */
  lemma Stage(d: Draft, fs: seq<SearchFilter>, present: bool, f: SearchFilter)
    requires Built(d.sql, d.params, d.next, fs)
    ensures var e := AddWhen(d, present, f);
      Built(e.sql, e.params, e.next, fs + if present then [f] else [])
  {
    if present {
      AddFilter(d.sql, d.params, fs, f);
    } else {
      assert fs + [] == fs;
    }
  }

  /** Closing the query with its paging gives the whole query and parameters. */
  lemma FinishSearch(sql: seq<Segment>, ps: seq<SqlParam>, fs: seq<SearchFilter>, limit: Option<int>, offset: Option<int>)
    requires Built(sql, ps, |fs| + 1, fs)
    ensures sql + Paging(|fs| + 1) == SearchSql(fs)
    ensures ps + [PNumber(limit), PNumber(offset)] == SearchParams(fs, limit, offset)
  {
  }

  /** The query and parameters hold the clauses and values of the filters added so far,
      and the next placeholder is the one after theirs. */
  ghost predicate Built(sql: seq<Segment>, ps: seq<SqlParam>, paramIndex: int, fs: seq<SearchFilter>)
  {
    sql == [SelectAll] + Clauses(fs) && ps == Params(fs) && paramIndex == |fs| + 1
  }

  /** Appending one more filter's clause and parameter extends the query and parameters
      of the filters before it. */
  lemma AddFilter(sql: seq<Segment>, ps: seq<SqlParam>, fs: seq<SearchFilter>, f: SearchFilter)
    requires sql == [SelectAll] + Clauses(fs) && ps == Params(fs)
    ensures sql + ClauseOf(f, |fs| + 1) == [SelectAll] + Clauses(fs + [f])
    ensures ps + [ParamOf(f)] == Params(fs + [f])
  {
    assert (fs + [f])[..|fs|] == fs;
    var c := ClauseOf(f, |fs| + 1);
    assert Clauses(fs + [f]) == Clauses(fs) + c;
    SeqAssoc([SelectAll], Clauses(fs), c);
  }

  lemma SeqAssoc(a: seq<Segment>, b: seq<Segment>, c: seq<Segment>)
    ensures a + b + c == a + (b + c)
  {
  }

  lemma ClauseUses(f: SearchFilter, k: nat, j: nat)
    ensures Ph(j) in ClauseOf(f, k) <==> j == k
  {
  }

  /** Placeholder `$k` appears among the clauses exactly when there is a `k`-th filter. */
  lemma {:induction false} ClausesUse(fs: seq<SearchFilter>, k: nat)
    ensures Ph(k) in Clauses(fs) <==> 1 <= k <= |fs|
  {
    if fs != [] {
      ClausesUse(fs[..|fs| - 1], k);
      ClauseUses(fs[|fs| - 1], |fs|, k);
    }
  }

  /** The `k`-th filter's clause is the only one naming `$k`, and its value is the `k`-th
      parameter. */
  lemma {:induction false} ClauseBinds(fs: seq<SearchFilter>, k: nat)
    requires 1 <= k <= |fs|
    ensures Clauses(fs[..k]) == Clauses(fs[..k - 1]) + ClauseOf(fs[k - 1], k)
    ensures Ph(k) !in Clauses(fs[..k - 1]) && Ph(k) in ClauseOf(fs[k - 1], k)
    ensures Params(fs)[k - 1] == ParamOf(fs[k - 1])
  {
    assert fs[..k][..k - 1] == fs[..k - 1];
    ClausesUse(fs[..k - 1], k);
    ClauseUses(fs[k - 1], k, k);
    ParamsAt(fs, k - 1);
  }

  lemma {:induction false} ParamsAt(fs: seq<SearchFilter>, i: nat)
    requires i < |fs|
    ensures Params(fs)[i] == ParamOf(fs[i])
  {
    if i < |fs| - 1 {
      ParamsAt(fs[..|fs| - 1], i);
    }
  }

  /** The placeholders run from `$1` to `$n` for `n` parameters with none skipped, and
      LIMIT and OFFSET take the last two. */
  lemma SearchPlaceholders(fs: seq<SearchFilter>, limit: Option<int>, offset: Option<int>, k: nat)
    ensures var ps := SearchParams(fs, limit, offset);
      && |ps| == |fs| + 2
      && (Ph(k) in SearchSql(fs) <==> 1 <= k <= |ps|)
      && ps[|fs|] == PNumber(limit) && ps[|fs| + 1] == PNumber(offset)
  {
    ClausesUse(fs, k);
    var sql := SearchSql(fs);
    assert Ph(k) in sql <==> Ph(k) in Clauses(fs) || Ph(k) in Paging(|fs| + 1);
  }

  /** Each present parameter adds exactly one filter; with none the query is the bare one
      with `$1` and `$2` for LIMIT and OFFSET. */
  lemma FiltersCount(query: string, tags: seq<string>, category: string, extension: string)
    ensures var fs := Filters(query, tags, category, extension);
      && |fs| == (if query != "" then 1 else 0) + (if tags != [] then 1 else 0)
                 + (if category != "" then 1 else 0) + (if extension != "" then 1 else 0)
      && (fs == [] ==> SearchSql(fs) == [SelectAll] + Paging(1))
  {
  }

  /** A filter is applied exactly when its parameter is present, in the order query, tags,
      category, extension. */
  lemma FiltersPresent(query: string, tags: seq<string>, category: string, extension: string)
    ensures var fs := Filters(query, tags, category, extension);
      && (NameOrMetadata("%" + query + "%") in fs <==> query != "")
      && (TagsOverlap(tags) in fs <==> tags != [])
      && (CategoryIs(category) in fs <==> category != "")
      && (ExtensionIs(extension) in fs <==> extension != "")
  {
    var q, t, c, e := QueryFilter(query), TagsFilter(tags), CategoryFilter(category), ExtensionFilter(extension);
    assert Filters(query, tags, category, extension) == q + t + c + e;
    assert forall x | x in q + t + c + e :: x in q || x in t || x in c || x in e;
  }

  /** A text query takes the first placeholder, which its clause names twice, and the
      first parameter, `%query%`. */
  lemma QueryFirst(query: string, tags: seq<string>, category: string, extension: string, limit: Option<int>, offset: Option<int>)
    requires query != ""
    ensures var fs := Filters(query, tags, category, extension);
      && SearchSql(fs)[1..6] == [Lit(NameLike), Ph(1), Lit(MetadataLike), Ph(1), Lit(CloseParen)]
      && SearchParams(fs, limit, offset)[0] == PText("%" + query + "%")
  {
    var fs := Filters(query, tags, category, extension);
    ClauseBinds(fs, 1);
    ClausesPrefix(fs, 1);
    assert fs[..0] == [];
  }

  /** The clauses of the first `k` filters begin the clauses of all of them. */
  lemma {:induction false} ClausesPrefix(fs: seq<SearchFilter>, k: nat)
    requires k <= |fs|
    ensures Clauses(fs[..k]) <= Clauses(fs)
  {
    if k < |fs| {
      ClausesPrefix(fs[..|fs| - 1], k);
      assert fs[..|fs| - 1][..k] == fs[..k];
    } else {
      assert fs[..k] == fs;
    }
  }

  // ---------------------------------------------------------------------
  // Combining the two stores' results

  /** A listed file, reduced to what the ordering reads: its id and upload time in
      milliseconds, when it has one. */
  datatype Listed = Listed(id: string, uploadedAt: Option<int>, storageType: Storage)

  /** The sort key: the upload time, or 0 when there is none. */
  function DateKey(f: Listed): int
  {
    if f.uploadedAt.Some? then f.uploadedAt.value else 0
  }

  predicate NewestFirst(fs: seq<Listed>)
  {
    forall i, j | 0 <= i < j < |fs| :: DateKey(fs[i]) >= DateKey(fs[j])
  }

  /** Puts `f` before the first file that is not newer. */
  function InsertByDate(f: Listed, fs: seq<Listed>): (r: seq<Listed>)
    ensures multiset(r) == multiset(fs) + multiset{f}
  {
    if fs == [] || DateKey(f) >= DateKey(fs[0]) then [f] + fs
    else
      assert fs == [fs[0]] + fs[1..];
      [fs[0]] + InsertByDate(f, fs[1..])
  }

  /** `files.sort((a, b) => dateB - dateA)`, as a stable insertion sort. */
  function SortByDate(fs: seq<Listed>): (r: seq<Listed>)
    ensures multiset(r) == multiset(fs)
  {
    if fs == [] then []
    else
      assert fs == [fs[0]] + fs[1..];
      InsertByDate(fs[0], SortByDate(fs[1..]))
  }

  lemma {:induction false} InsertSorted(f: Listed, fs: seq<Listed>)
    requires NewestFirst(fs)
    ensures NewestFirst(InsertByDate(f, fs))
  {
    if fs != [] && DateKey(f) < DateKey(fs[0]) {
      InsertSorted(f, fs[1..]);
      var r := InsertByDate(f, fs[1..]);
      forall g | g in multiset(r) ensures DateKey(fs[0]) >= DateKey(g) {
        assert g in multiset(fs[1..]) + multiset{f};
        if g in multiset(fs[1..]) {
          var i :| 0 <= i < |fs[1..]| && fs[1..][i] == g;
          assert fs[i + 1] == g;
        }
      }
      forall i | 0 <= i < |r| ensures DateKey(fs[0]) >= DateKey(r[i]) {
        assert r[i] in multiset(r);
      }
    }
  }

  /** Sorting puts the newest first and keeps every file, each as often as before. */
  lemma {:induction false} SortByDateSorted(fs: seq<Listed>)
    ensures NewestFirst(SortByDate(fs))
  {
    if fs != [] {
      SortByDateSorted(fs[1..]);
      InsertSorted(fs[0], SortByDate(fs[1..]));
    }
  }

  /** The files whose sort key is `d`, in their order. */
  function WithKey(fs: seq<Listed>, d: int): seq<Listed>
  {
    if fs == [] then []
    else (if DateKey(fs[0]) == d then [fs[0]] else []) + WithKey(fs[1..], d)
  }

  lemma {:induction false} WithKeyAppend(a: seq<Listed>, b: seq<Listed>, d: int)
    ensures WithKey(a + b, d) == WithKey(a, d) + WithKey(b, d)
  {
    if a != [] {
      assert (a + b)[1..] == a[1..] + b;
      WithKeyAppend(a[1..], b, d);
    } else {
      assert a + b == b;
    }
  }

  /** Inserting a file puts it ahead of the files with its key, which keep their order;
      the files with any other key are untouched. */
  lemma {:induction false} InsertWithKey(f: Listed, fs: seq<Listed>, d: int)
    ensures WithKey(InsertByDate(f, fs), d) == (if DateKey(f) == d then [f] else []) + WithKey(fs, d)
  {
    if fs == [] || DateKey(f) >= DateKey(fs[0]) {
      assert ([f] + fs)[1..] == fs;
    } else {
      InsertWithKey(f, fs[1..], d);
      assert ([fs[0]] + InsertByDate(f, fs[1..]))[1..] == InsertByDate(f, fs[1..]);
    }
  }

  /** The sort is stable: the files sharing a sort key keep the order they had. */
  lemma {:induction false} SortByDateStable(fs: seq<Listed>, d: int)
    ensures WithKey(SortByDate(fs), d) == WithKey(fs, d)
  {
    if fs != [] {
      SortByDateStable(fs[1..], d);
      InsertWithKey(fs[0], SortByDate(fs[1..]), d);
    }
  }

  /** Among files with the same upload time, the PostgreSQL results come first, each
      store's in the order it returned them. */
  lemma CombinedTies(postgres: Option<seq<Listed>>, mongodb: Option<seq<Listed>>, d: int)
    ensures WithKey(Combined(postgres, mongodb), d) == WithKey(Found(postgres), d) + WithKey(Found(mongodb), d)
  {
    SortByDateStable(Found(postgres) + Found(mongodb), d);
    WithKeyAppend(Found(postgres), Found(mongodb), d);
  }

  /** A store whose search throws contributes no files. */
  function Found(result: Option<seq<Listed>>): seq<Listed>
  {
    if result.None? then [] else result.value
  }

  /** `allFiles`: the PostgreSQL results then the MongoDB ones, newest first. */
  function Combined(postgres: Option<seq<Listed>>, mongodb: Option<seq<Listed>>): seq<Listed>
  {
    SortByDate(Found(postgres) + Found(mongodb))
  }

  /** The combined list is newest first, holds exactly the files of both stores, and its
      length (the `total` reported) is the sum of theirs; a failing store adds nothing. */
  lemma CombinedSpec(postgres: Option<seq<Listed>>, mongodb: Option<seq<Listed>>)
    ensures var all := Combined(postgres, mongodb);
      && NewestFirst(all)
      && multiset(all) == multiset(Found(postgres)) + multiset(Found(mongodb))
      && |all| == |Found(postgres)| + |Found(mongodb)|
      && (postgres.None? ==> multiset(all) == multiset(Found(mongodb)))
  {
    var all := Combined(postgres, mongodb);
    SortByDateSorted(Found(postgres) + Found(mongodb));
    assert |all| == |multiset(all)|;
  }
}
