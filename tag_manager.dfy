/** The tag editor of the upload form: adding, removing and renaming tags, its keyboard
    handling and the suggestions it offers. Each handler gives the list it passes to
    `onTagsChange`, which the parent hands back as the new `tags`. */
module TagManager {
  import opened JsonValue
  import opened Text

  /** The component's state: the tags it was given, the text of the main input, the index
      of the tag being renamed (nothing when none is) and the text of the rename box. */
  datatype Editor = Editor(tags: seq<string>, input: string, editingIndex: Option<nat>, editValue: string)

  /** The keys the handlers react to; any other key does nothing. */
  datatype Key = Enter | Escape | Backspace | OtherKey

  // ---------------------------------------------------------------------
  // addTag

  /** `addTag(tag)`: the trimmed tag is appended and the input cleared when it is
      non-empty and not already a tag; otherwise nothing changes. */
  function AddTag(e: Editor, tag: string): Editor
  {
    var trimmed := Trim(tag);
    if trimmed != "" && trimmed !in e.tags then e.(tags := e.tags + [trimmed], input := "") else e
  }

  /** Adding changes the editor exactly when the trimmed tag is non-empty and new; the
      list then grows by that tag at the end, the input is cleared, and the rename state
      is kept. */
  lemma AddTagSpec(e: Editor, tag: string)
    ensures var r := AddTag(e, tag);
      && (r != e <==> Trim(tag) != "" && Trim(tag) !in e.tags)
      && (Trim(tag) != "" && Trim(tag) !in e.tags ==>
            r.tags == e.tags + [Trim(tag)] && r.input == "" && r.editingIndex == e.editingIndex)
      && (Trim(tag) == "" || Trim(tag) in e.tags ==> r == e)
  {
    var trimmed := Trim(tag);
    if trimmed != "" && trimmed !in e.tags {
      assert |AddTag(e, tag).tags| == |e.tags| + 1;
    }
  }

  /** Adding keeps a list without repeats without repeats, and every tag it adds is
      trimmed and non-empty. */
  lemma AddTagDistinct(e: Editor, tag: string)
    requires Distinct(e.tags)
    ensures Distinct(AddTag(e, tag).tags)
    ensures forall t | t in AddTag(e, tag).tags && t !in e.tags :: t == Trim(tag) && t != ""
  {
    var trimmed := Trim(tag);
    if trimmed != "" && trimmed !in e.tags {
      var r := e.tags + [trimmed];
      forall i, j | 0 <= i < j < |r| ensures r[i] != r[j] {
        if j == |e.tags| {
          assert r[i] == e.tags[i];
        }
      }
    }
  }

  // ---------------------------------------------------------------------
  // removeTag

  /** `list.filter((_, i) => i !== index)` over the first `n` items of a list. */
  function WithoutIndex<T>(items: seq<T>, index: int, n: nat): (r: seq<T>)
    requires n <= |items|
  {
    if n == 0 then []
    else WithoutIndex(items, index, n - 1) + (if n - 1 != index then [items[n - 1]] else [])
  }

  /** `removeTag(index)`. */
  function RemoveTag(e: Editor, index: int): Editor
  {
    e.(tags := WithoutIndex(e.tags, index, |e.tags|))
  }

  lemma {:induction false} WithoutIndexSpec<T>(items: seq<T>, index: int, n: nat)
    requires n <= |items|
    ensures 0 <= index < n ==> WithoutIndex(items, index, n) == items[..index] + items[index + 1..n]
    ensures !(0 <= index < n) ==> WithoutIndex(items, index, n) == items[..n]
  {
    if n > 0 {
      WithoutIndexSpec(items, index, n - 1);
      assert items[..n] == items[..n - 1] + [items[n - 1]];
      if 0 <= index < n - 1 {
        assert items[index + 1..n] == items[index + 1..n - 1] + [items[n - 1]];
      }
    }
  }

  /** Removing drops exactly the tag at `index` and keeps the others in order; an index
      outside the list changes nothing. */
  lemma RemoveTagSpec(e: Editor, index: int)
    ensures 0 <= index < |e.tags| ==> RemoveTag(e, index).tags == e.tags[..index] + e.tags[index + 1..]
    ensures 0 <= index < |e.tags| ==> |RemoveTag(e, index).tags| == |e.tags| - 1
    ensures !(0 <= index < |e.tags|) ==> RemoveTag(e, index) == e
    ensures RemoveTag(e, index).input == e.input && RemoveTag(e, index).editingIndex == e.editingIndex
  {
    WithoutIndexSpec(e.tags, index, |e.tags|);
    assert e.tags[..|e.tags|] == e.tags;
  }

  // ---------------------------------------------------------------------
  // Renaming

  /** `startEdit(index)`, from the tag at `index` the user double-clicked. */
  function StartEdit(e: Editor, index: nat): Editor
    requires index < |e.tags|
  {
    e.(editingIndex := Some(index), editValue := e.tags[index])
  }

  /** `newTags[editingIndex] = value` on a copy: a position past the end extends the list
      by one. */
  function SetAt(tags: seq<string>, index: nat, value: string): seq<string>
  {
    if index < |tags| then tags[index := value] else tags + [value]
  }

  /** `saveEdit()`: with a tag being renamed and a non-blank rename text, the tag takes the
      trimmed text and renaming ends; otherwise nothing changes. */
  function SaveEdit(e: Editor): Editor
  {
    var value := Trim(e.editValue);
    if e.editingIndex.Some? && value != "" then
      e.(tags := SetAt(e.tags, e.editingIndex.value, value), editingIndex := None, editValue := "")
    else e
  }

  /** Saving a rename of a listed tag keeps the length, puts the trimmed text at that index
      only, and leaves rename mode; a blank text, or no rename in progress, changes
      nothing. */
  lemma SaveEditSpec(e: Editor)
    ensures var r := SaveEdit(e);
      && (e.editingIndex.None? || Trim(e.editValue) == "" ==> r == e)
      && (e.editingIndex.Some? && e.editingIndex.value < |e.tags| && Trim(e.editValue) != "" ==>
            && |r.tags| == |e.tags|
            && r.tags[e.editingIndex.value] == Trim(e.editValue)
            && (forall i | 0 <= i < |e.tags| && i != e.editingIndex.value :: r.tags[i] == e.tags[i])
            && r.editingIndex.None? && r.editValue == "" && r.input == e.input)
  {
  }

  /** Saving does not look for repeats: renaming the second of `a`, `b` to `a` lists `a`
      twice. */
  lemma SaveEditAllowsRepeats()
    ensures SaveEdit(Editor(["a", "b"], "", Some(1), "a")).tags == ["a", "a"]
  {
    assert Trim("a") == "a" by {
      assert !IsJsSpace('a');
      assert TrimStart("a") == "a";
    }
  }

  /** Renaming the tag at `index`: the rename box opens holding that tag; saving a
      non-blank text puts its trimmed form there and changes no other tag; cancelling
      keeps every tag. */
  lemma RenameSpec(e: Editor, index: nat, text: string)
    requires index < |e.tags|
    ensures StartEdit(e, index).editValue == e.tags[index] && StartEdit(e, index).tags == e.tags
    ensures var r := SaveEdit(StartEdit(e, index).(editValue := text));
      Trim(text) != "" ==>
        && |r.tags| == |e.tags| && r.tags[index] == Trim(text)
        && (forall i | 0 <= i < |e.tags| && i != index :: r.tags[i] == e.tags[i])
        && r.editingIndex.None?
    ensures CancelEdit(StartEdit(e, index)).tags == e.tags
  {
    SaveEditSpec(StartEdit(e, index).(editValue := text));
  }

  // ---------------------------------------------------------------------
  // Keys

  /** Ending a rename without saving. */
  function CancelEdit(e: Editor): Editor
  {
    e.(editingIndex := None, editValue := "")
  }

  /** `handleKeyDown` on the main input. */
  function KeyDown(e: Editor, key: Key): Editor
  {
    match key
    case Enter => if e.editingIndex.Some? then SaveEdit(e) else AddTag(e, e.input)
    case Escape => CancelEdit(e)
    case Backspace => if e.input == "" && |e.tags| > 0 then RemoveTag(e, |e.tags| - 1) else e
    case OtherKey => e
  }

  /** `handleEditKeyDown` on the rename box. */
  function EditKeyDown(e: Editor, key: Key): Editor
  {
    match key
    case Enter => SaveEdit(e)
    case Escape => CancelEdit(e)
    case _ => e
  }

  /** Enter saves a rename when one is in progress and adds the input otherwise; Escape
      keeps the tags and ends any rename; Backspace in an empty input drops the last tag;
      in the rename box only Enter and Escape act. */
  lemma KeyDownSpec(e: Editor, key: Key)
    ensures key == Enter && e.editingIndex.Some? ==> KeyDown(e, key) == SaveEdit(e)
    ensures key == Enter && e.editingIndex.None? ==> KeyDown(e, key) == AddTag(e, e.input)
    ensures key == Escape ==>
      KeyDown(e, key).tags == e.tags && KeyDown(e, key).editingIndex.None? && KeyDown(e, key) == EditKeyDown(e, key)
    ensures key == Backspace && e.input == "" && |e.tags| > 0 ==> KeyDown(e, key).tags == e.tags[..|e.tags| - 1]
    ensures key == Backspace && (e.input != "" || e.tags == []) ==> KeyDown(e, key) == e
    ensures key == OtherKey ==> KeyDown(e, key) == e && EditKeyDown(e, key) == e
    ensures key != Enter && key != Escape ==> EditKeyDown(e, key) == e
  {
    if key == Backspace && e.input == "" && |e.tags| > 0 {
      RemoveTagSpec(e, |e.tags| - 1);
      assert e.tags[|e.tags|..] == [];
    }
  }

  // ---------------------------------------------------------------------
  // Suggestions

  /** `suggestions.filter(s => !tags.includes(s))`. */
  function NotTagged(suggestions: seq<string>, tags: seq<string>): seq<string>
  {
    if suggestions == [] then []
    else
      var last := suggestions[|suggestions| - 1];
      NotTagged(suggestions[..|suggestions| - 1], tags) + (if last !in tags then [last] else [])
  }

  /** `.slice(0, 5)` of that. */
  function Suggested(suggestions: seq<string>, tags: seq<string>): seq<string>
  {
    var untagged := NotTagged(suggestions, tags);
    if |untagged| <= 5 then untagged else untagged[..5]
  }

  /** Position `idx[i]` of `t` holds `s[i]`, and the positions increase. */
  predicate Embeds(idx: seq<nat>, s: seq<string>, t: seq<string>)
  {
    && |idx| == |s|
    && (forall i | 0 <= i < |idx| :: idx[i] < |t| && t[idx[i]] == s[i])
    && (forall i, j | 0 <= i < j < |idx| :: idx[i] < idx[j])
  }

  /** `s` occurs in `t` in order, possibly with gaps. */
  ghost predicate Subsequence(s: seq<string>, t: seq<string>)
  {
    exists idx: seq<nat> :: Embeds(idx, s, t)
  }

  /** The filter keeps exactly the suggestions that are not tags. */
  lemma {:induction false} NotTaggedMembers(suggestions: seq<string>, tags: seq<string>, x: string)
    ensures x in NotTagged(suggestions, tags) <==> x in suggestions && x !in tags
  {
    if suggestions != [] {
      var init := suggestions[..|suggestions| - 1];
      NotTaggedMembers(init, tags, x);
      assert suggestions == init + [suggestions[|suggestions| - 1]];
    }
  }

  /** The positions of the suggestions the filter keeps. */
  function KeptPositions(suggestions: seq<string>, tags: seq<string>): seq<nat>
  {
    if suggestions == [] then []
    else
      var n := |suggestions| - 1;
      KeptPositions(suggestions[..n], tags) + (if suggestions[n] !in tags then [n] else [])
  }

  lemma {:induction false} KeptPositionsEmbed(suggestions: seq<string>, tags: seq<string>)
    ensures Embeds(KeptPositions(suggestions, tags), NotTagged(suggestions, tags), suggestions)
  {
    if suggestions != [] {
      var n := |suggestions| - 1;
      var init := suggestions[..n];
      KeptPositionsEmbed(init, tags);
      var idx := KeptPositions(init, tags);
      var prev := NotTagged(init, tags);
      var idx2 := KeptPositions(suggestions, tags);
      var r := NotTagged(suggestions, tags);
      forall i | 0 <= i < |idx2| ensures idx2[i] < |suggestions| && suggestions[idx2[i]] == r[i] {
        if i < |idx| {
          assert idx2[i] == idx[i] && r[i] == prev[i] && suggestions[idx[i]] == init[idx[i]];
        }
      }
    }
  }

  /** The filter keeps the suggestions in their order. */
  lemma NotTaggedOrder(suggestions: seq<string>, tags: seq<string>)
    ensures Subsequence(NotTagged(suggestions, tags), suggestions)
  {
    KeptPositionsEmbed(suggestions, tags);
  }

  /** The suggestions offered are at most five, none already a tag, in their original
      order; they are the first five such, all of them when there are five or fewer. */
  lemma SuggestedSpec(suggestions: seq<string>, tags: seq<string>)
    ensures var r := Suggested(suggestions, tags);
      var untagged := NotTagged(suggestions, tags);
      && |r| <= 5
      && (forall x | x in r :: x in suggestions && x !in tags)
      && Subsequence(untagged, suggestions)
      && r <= untagged
      && (|untagged| <= 5 ==> r == untagged)
      && (forall x | x in suggestions && x !in tags :: x in untagged)
  {
    NotTaggedOrder(suggestions, tags);
    var untagged := NotTagged(suggestions, tags);
    var r := Suggested(suggestions, tags);
    forall x | x in r ensures x in suggestions && x !in tags {
      var i :| 0 <= i < |r| && r[i] == x;
      assert untagged[i] == x;
      NotTaggedMembers(suggestions, tags, x);
    }
    forall x | x in suggestions && x !in tags ensures x in untagged {
      NotTaggedMembers(suggestions, tags, x);
    }
  }
}
