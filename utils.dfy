/** File-name helpers: the extension parser and the extension-to-category table. */
module FileUtils {
  import opened Text

  /** `s.lastIndexOf(c)`: the last position holding `c`, or -1. */
  function LastIndexOf(s: string, c: char): (i: int)
    ensures -1 <= i < |s|
    ensures i >= 0 ==> s[i] == c
    ensures forall k | i < k < |s| :: s[k] != c
  {
    if s == [] then -1
    else if s[|s| - 1] == c then |s| - 1
    else LastIndexOf(s[..|s| - 1], c)
  }

  /** `x >>> 0`: the value modulo 2^32, as an unsigned 32-bit integer. */
  function ToUint32(x: int): (r: nat)
    ensures r < 0x1_0000_0000
  {
    x % 0x1_0000_0000
  }

  /** `s.slice(start)` for a non-negative start. */
  function SliceFrom(s: string, start: nat): (r: string)
  {
    if start >= |s| then "" else s[start..]
  }

  /** `filename.slice(((d - 1) >>> 0) + 2).toLowerCase()` for the position `d` of the last dot. */
  function ExtensionFrom(filename: string, d: int): string
  {
    ToLower(SliceFrom(filename, ToUint32(d - 1) + 2))
  }

  /** `getFileExtension(filename)`. */
  function GetFileExtension(filename: string): string
  {
    ExtensionFrom(filename, LastIndexOf(filename, '.'))
  }

  /** For any name shorter than 2^32 characters (every string an engine can hold), the
      extension is the lower-cased text after the last dot when that dot is not the first
      character; with no dot, or only a leading dot, it is empty. A trailing dot gives "". */
  lemma ExtensionSpec(filename: string)
    requires |filename| < 0x1_0000_0000
    ensures var d := LastIndexOf(filename, '.');
      GetFileExtension(filename) == if d < 1 then "" else ToLower(filename[d + 1..])
    ensures GetFileExtension(filename) == "" <==>
      var d := LastIndexOf(filename, '.'); d < 1 || d == |filename| - 1
  {
    ExtensionFromSpec(filename, LastIndexOf(filename, '.'));
  }

  lemma ExtensionFromSpec(filename: string, d: int)
    requires -1 <= d < |filename| < 0x1_0000_0000
    ensures ExtensionFrom(filename, d) == if d < 1 then "" else ToLower(filename[d + 1..])
    ensures ExtensionFrom(filename, d) == "" <==> d < 1 || d == |filename| - 1
  {
    var start := ToUint32(d - 1) + 2;
    if d < 1 {
      Uint32OfNegative(d - 1);
      EmptySlice(filename, start);
    } else {
      Uint32Small(d - 1);
      assert SliceFrom(filename, start) == filename[d + 1..];
    }
  }

  lemma EmptySlice(s: string, start: nat)
    requires start >= |s|
    ensures ToLower(SliceFrom(s, start)) == ""
  {
  }

  lemma Uint32Small(x: int)
    requires 0 <= x < 0x1_0000_0000
    ensures ToUint32(x) == x
  {
  }

  lemma Uint32OfNegative(x: int)
    requires -2 <= x < 0
    ensures ToUint32(x) == 0x1_0000_0000 + x
  {
    assert x == -1 * 0x1_0000_0000 + (0x1_0000_0000 + x);
  }

  /** The extension is always lower case and never holds a dot. */
  lemma ExtensionShape(filename: string)
    requires |filename| < 0x1_0000_0000
    ensures var e := GetFileExtension(filename);
      '.' !in e && forall i | 0 <= i < |e| :: !('A' <= e[i] <= 'Z')
  {
    ExtensionSpec(filename);
    var d := LastIndexOf(filename, '.');
    if d >= 1 {
      LowerTail(filename, d);
    }
  }

  lemma LowerTail(s: string, d: int)
    requires 0 <= d < |s| && forall k | d < k < |s| :: s[k] != '.'
    ensures var e := ToLower(s[d + 1..]);
      '.' !in e && forall i | 0 <= i < |e| :: !('A' <= e[i] <= 'Z')
  {
    ToLowerKeeps(s[d + 1..], '.');
  }

  const CategoryTable: seq<(string, seq<string>)> := [
    ("Images", ["jpg", "jpeg", "png", "gif", "bmp", "svg", "webp", "ico"]),
    ("Videos", ["mp4", "avi", "mov", "wmv", "flv", "mkv", "webm"]),
    ("Documents", ["pdf", "doc", "docx", "txt", "rtf", "odt"]),
    ("Spreadsheets", ["xls", "xlsx", "csv", "ods"]),
    ("Archives", ["zip", "rar", "7z", "tar", "gz"]),
    ("Code", ["js", "ts", "jsx", "tsx", "py", "java", "cpp", "c", "cs", "php", "rb", "go"]),
    ("Data", ["json", "xml", "yaml", "yml", "sql"]),
    ("Audio", ["mp3", "wav", "ogg", "flac", "aac"])
  ]

  const CategoryNames: set<string> :=
    {"Images", "Videos", "Documents", "Spreadsheets", "Archives", "Code", "Data", "Audio", "Other"}

  /** The first category, in table order, whose list holds the extension; "Other" if none. */
  function FirstMatch(table: seq<(string, seq<string>)>, extension: string): string
  {
    if table == [] then "Other"
    else if extension in table[0].1 then table[0].0
    else FirstMatch(table[1..], extension)
  }

  /** The match is "Other" when no list holds the extension, and otherwise the name of the
      first list that does. */
  lemma {:induction false} FirstMatchFirst(table: seq<(string, seq<string>)>, extension: string)
    ensures (forall i | 0 <= i < |table| :: extension !in table[i].1) ==> FirstMatch(table, extension) == "Other"
    ensures (exists i | 0 <= i < |table| :: extension in table[i].1) ==>
      exists i | 0 <= i < |table| ::
        && FirstMatch(table, extension) == table[i].0 && extension in table[i].1
        && forall k | 0 <= k < i :: extension !in table[k].1
  {
    if table != [] && extension !in table[0].1 {
      var tail := table[1..];
      FirstMatchFirst(tail, extension);
      forall i | 0 < i < |table| ensures table[i] == tail[i - 1] { }
      if exists i | 0 <= i < |tail| :: extension in tail[i].1 {
        var i :| 0 <= i < |tail| && FirstMatch(tail, extension) == tail[i].0 && extension in tail[i].1 &&
          forall k | 0 <= k < i :: extension !in tail[k].1;
        assert forall k | 0 <= k < i + 1 :: extension !in table[k].1;
        assert FirstMatch(table, extension) == table[i + 1].0;
      }
    }
  }

  /** `getFileCategory(extension)`: an exact, case-sensitive lookup. */
  function GetFileCategory(extension: string): string
  {
    FirstMatch(CategoryTable, extension)
  }

  /** In a table whose names are distinct and never "Other", an extension maps to a
      category exactly when that category is the first whose list holds it, and to "Other"
      exactly when no list holds it. */
  lemma FirstMatchIff(table: seq<(string, seq<string>)>, extension: string, i: nat)
    requires i < |table|
    requires forall j, k | 0 <= j < k < |table| :: table[j].0 != table[k].0
    requires forall j | 0 <= j < |table| :: table[j].0 != "Other"
    ensures FirstMatch(table, extension) == table[i].0 <==>
      extension in table[i].1 && forall k | 0 <= k < i :: extension !in table[k].1
    ensures FirstMatch(table, extension) == "Other" <==>
      forall k | 0 <= k < |table| :: extension !in table[k].1
  {
    FirstMatchFirst(table, extension);
    if exists k | 0 <= k < |table| :: extension in table[k].1 {
      var k :| 0 <= k < |table| && FirstMatch(table, extension) == table[k].0 && extension in table[k].1 &&
        forall m | 0 <= m < k :: extension !in table[m].1;
      if k < i {
        assert table[k].0 != table[i].0;
      } else if k > i {
        assert table[i].0 != table[k].0;
      }
    }
  }

  /** `getFileCategory` is an exact, case-sensitive lookup: an extension gets a category
      exactly when it is listed there (and under no earlier category), and "Other" exactly
      when no category lists it. */
  lemma CategoryIff(extension: string, i: nat)
    requires i < |CategoryTable|
    ensures GetFileCategory(extension) == CategoryTable[i].0 <==>
      extension in CategoryTable[i].1 && forall k | 0 <= k < i :: extension !in CategoryTable[k].1
    ensures GetFileCategory(extension) == "Other" <==>
      forall k | 0 <= k < |CategoryTable| :: extension !in CategoryTable[k].1
  {
    FirstMatchIff(CategoryTable, extension, i);
  }

  /** No extension of a list appears in an earlier list. */
  lemma NotListedEarlier(extension: string, i: nat)
    requires i < |CategoryTable| && extension in CategoryTable[i].1
    ensures forall k | 0 <= k < i :: extension !in CategoryTable[k].1
  {
    if i == 1 { NotListedBefore1(extension); }
    else if i == 2 { NotListedBefore2(extension); }
    else if i == 3 { NotListedBefore3(extension); }
    else if i == 4 { NotListedBefore4(extension); }
    else if i == 5 { NotListedBefore5(extension); }
    else if i == 6 { NotListedBefore6(extension); }
    else if i == 7 { NotListedBefore7(extension); }
  }

  lemma NotListedBefore1(extension: string)
    requires extension in CategoryTable[1].1
    ensures forall k | 0 <= k < 1 :: extension !in CategoryTable[k].1
  {
  }

  lemma NotListedBefore2(extension: string)
    requires extension in CategoryTable[2].1
    ensures forall k | 0 <= k < 2 :: extension !in CategoryTable[k].1
  {
  }

  lemma NotListedBefore3(extension: string)
    requires extension in CategoryTable[3].1
    ensures forall k | 0 <= k < 3 :: extension !in CategoryTable[k].1
  {
  }

  lemma NotListedBefore4(extension: string)
    requires extension in CategoryTable[4].1
    ensures forall k | 0 <= k < 4 :: extension !in CategoryTable[k].1
  {
  }

  lemma NotListedBefore5(extension: string)
    requires extension in CategoryTable[5].1
    ensures forall k | 0 <= k < 5 :: extension !in CategoryTable[k].1
  {
  }

  lemma NotListedBefore6(extension: string)
    requires extension in CategoryTable[6].1
    ensures forall k | 0 <= k < 6 :: extension !in CategoryTable[k].1
  {
  }

  lemma NotListedBefore7(extension: string)
    requires extension in CategoryTable[7].1
    ensures forall k | 0 <= k < 7 :: extension !in CategoryTable[k].1
  {
  }

  /** The eight lists are pairwise disjoint, so a listed extension is in no other list and
      `getFileCategory` gives its own list's category. */
  lemma CategoryOfListed(extension: string, i: nat)
    requires i < |CategoryTable| && extension in CategoryTable[i].1
    ensures GetFileCategory(extension) == CategoryTable[i].0
    ensures forall k | 0 <= k < |CategoryTable| && k != i :: extension !in CategoryTable[k].1
  {
    NotListedEarlier(extension, i);
    CategoryIff(extension, i);
    forall k | i < k < |CategoryTable| && extension in CategoryTable[k].1
      ensures false
    {
      NotListedEarlier(extension, k);
    }
  }

  /** `getFileCategory` always answers with one of the nine category names. */
  lemma CategoryNamed(extension: string)
    ensures GetFileCategory(extension) in CategoryNames
  {
    FirstMatchFirst(CategoryTable, extension);
  }
}
