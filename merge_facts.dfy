/** What the deep merge of the merge endpoint promises: the key-level result of merging
    two objects, and the identities `{}` and `[]`. */
module MergeFacts {
  import opened JsonValue
  import opened ObjectFields
  import opened MergeRoute

  /** A turn keeps the keys distinct and the earlier keys in their order. */
  lemma MergeIntoShape(result: Fields, key: string, value: Json)
    requires Distinct(Keys(result))
    ensures var m := MergeInto(result, key, value);
      Distinct(Keys(m)) && |result| <= |m| && Keys(m)[..|result|] == Keys(result)
  {
    var at := KeyIndex(result, key);
    AssignShape(result, key, if at < 0 then value else DeepMergeOf(result[at].1, value));
  }

  /** After a turn, `key` holds `value` merged into its old value, if it had one, and
      every other key keeps its value. */
  lemma MergeIntoAt(result: Fields, key: string, value: Json, x: string)
    ensures var m := MergeInto(result, key, value);
      && (x in Keys(m) <==> x in Keys(result) || x == key)
      && Lookup(m, x) ==
        if x != key then Lookup(result, x)
        else if key !in Keys(result) then Some(value)
        else Some(DeepMergeOf(Lookup(result, key).value, value))
  {
    var at := KeyIndex(result, key);
    KeyIndexAbsent(result, key);
    AssignAt(result, key, if at < 0 then value else DeepMergeOf(result[at].1, value), x);
  }

  /** Merging keeps the keys distinct and the first object's keys first, in their order. */
  lemma {:induction false} MergeFieldsShape(result: Fields, b: Json, n: nat)
    requires b.JObj? && n <= |b.fields| && Distinct(Keys(result))
    ensures var m := MergeFields(result, b, n);
      Distinct(Keys(m)) && |result| <= |m| && Keys(m)[..|result|] == Keys(result)
  {
    if n > 0 {
      var prev := MergeFields(result, b, n - 1);
      MergeFieldsShape(result, b, n - 1);
      MergeIntoShape(prev, b.fields[n - 1].0, Child(b, n - 1));
      PrefixOfPrefix(Keys(MergeFields(result, b, n)), Keys(prev), Keys(result));
    }
  }

  /** What key `x` holds once the keys and values of `seen` are merged into `result`: the
      first object's value for a key only it has, the second's for a key only it has, and
      the deep merge of both values for a shared key. */
  function MergedAt(result: Fields, seen: Fields, x: string): Option<Json>
  {
    if x !in Keys(seen) then Lookup(result, x)
    else if x !in Keys(result) then Lookup(seen, x)
    else Some(DeepMergeOf(Lookup(result, x).value, Lookup(seen, x).value))
  }

  /** One turn of the loop, for a key not seen before, keeps `MergedAt` in step. */
  lemma MergeStepAt(result: Fields, prev: Fields, seen: Fields, key: string, value: Json, x: string)
    requires key !in Keys(seen)
    requires (x in Keys(prev) <==> x in Keys(result) || x in Keys(seen)) && Lookup(prev, x) == MergedAt(result, seen, x)
    requires (key in Keys(prev) <==> key in Keys(result)) && Lookup(prev, key) == Lookup(result, key)
    ensures var m := MergeInto(prev, key, value);
      var seen' := seen + [(key, value)];
      (x in Keys(m) <==> x in Keys(result) || x in Keys(seen')) && Lookup(m, x) == MergedAt(result, seen', x)
  {
    MergeIntoAt(prev, key, value, x);
    LookupSnoc(seen, (key, value), x);
  }

  /** After the first `n` keys of `b`, a key is present when either side has it, and holds
      what `MergedAt` says. */
  lemma {:induction false} MergeFieldsAt(result: Fields, b: Json, n: nat, x: string)
    requires b.JObj? && n <= |b.fields|
    requires Distinct(Keys(b.fields))
    ensures var m := MergeFields(result, b, n);
      (x in Keys(m) <==> x in Keys(result) || x in Keys(b.fields[..n])) && Lookup(m, x) == MergedAt(result, b.fields[..n], x)
  {
    if n > 0 {
      var f := b.fields;
      var key := f[n - 1].0;
      MergeFieldsAt(result, b, n - 1, x);
      MergeFieldsAt(result, b, n - 1, key);
      NotEarlier(f, n);
      ObjectChild(b, n - 1);
      SnocPrefix(f, n);
      MergeStepAt(result, MergeFields(result, b, n - 1), f[..n - 1], key, f[n - 1].1, x);
    }
  }

  /** Deep-merging two objects with distinct keys gives distinct keys, the keys of the
      first coming first in their order. */
  lemma MergeObjectsShape(f1: Fields, f2: Fields)
    requires Distinct(Keys(f1))
    ensures var m := DeepMergeOf(JObj(f1), JObj(f2)).fields;
      Distinct(Keys(m)) && |f1| <= |m| && Keys(m)[..|f1|] == Keys(f1)
  {
    MergeFieldsShape(f1, JObj(f2), |f2|);
  }

  /** Deep-merging two objects, the second with distinct keys: every key of either is present and no
      other; a key of one side only keeps that side's value; and a shared key holds the
      deep merge of both values. */
  lemma MergeObjectsAt(f1: Fields, f2: Fields, x: string)
    requires Distinct(Keys(f2))
    ensures var m := DeepMergeOf(JObj(f1), JObj(f2)).fields;
      && (x in Keys(m) <==> x in Keys(f1) || x in Keys(f2))
      && Lookup(m, x) ==
        if x !in Keys(f2) then Lookup(f1, x)
        else if x !in Keys(f1) then Lookup(f2, x)
        else Some(DeepMergeOf(Lookup(f1, x).value, Lookup(f2, x).value))
  {
    MergeFieldsAt(f1, JObj(f2), |f2|, x);
    assert f2[..|f2|] == f2;
  }

  /** Arrays are concatenated, first then second; any pairing other than two arrays or
      two plain objects gives the second value. */
  lemma MergeOthers(a: Json, b: Json)
    ensures a.JArr? && b.JArr? ==> DeepMergeOf(a, b) == JArr(a.items + b.items)
    ensures !(a.JArr? && b.JArr?) && !(a.JObj? && b.JObj?) ==> DeepMergeOf(a, b) == b
  {
  }

  /** A turn with a new key appends it. */
  lemma MergeIntoNew(result: Fields, key: string, value: Json)
    requires key !in Keys(result)
    ensures MergeInto(result, key, value) == result + [(key, value)]
  {
    KeyIndexAbsent(result, key);
  }

  lemma {:induction false} MergeIntoEmpty(b: Json, n: nat)
    requires b.JObj? && n <= |b.fields| && Distinct(Keys(b.fields))
    ensures MergeFields([], b, n) == b.fields[..n]
  {
    if n > 0 {
      var f := b.fields;
      MergeIntoEmpty(b, n - 1);
      NotEarlier(f, n);
      ObjectChild(b, n - 1);
      MergeIntoNew(f[..n - 1], f[n - 1].0, f[n - 1].1);
      SnocPrefix(f, n);
    }
  }

  /** `{}` and `[]` are identities of the deep merge, on either side: merging an object
      with `{}` gives an equal object, and an array with `[]` an equal array. */
  lemma MergeIdentity(a: Json)
    ensures a.JObj? ==> DeepMergeOf(a, JObj([])) == a
    ensures a.JObj? && Distinct(Keys(a.fields)) ==> DeepMergeOf(JObj([]), a) == a
    ensures a.JArr? ==> DeepMergeOf(a, JArr([])) == a && DeepMergeOf(JArr([]), a) == a
  {
    if a.JObj? && Distinct(Keys(a.fields)) {
      MergeIntoEmpty(a, |a.fields|);
      assert a.fields[..|a.fields|] == a.fields;
    }
    if a.JArr? {
      assert a.items + [] == a.items;
    }
  }
}
