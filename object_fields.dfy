/** Plain JavaScript objects as ordered lists of keyed values: finding a key, assigning
    to a key, and the right-biased union that object spread builds. */
module ObjectFields {
  import opened JsonValue
  import opened Text

  type Fields = seq<(string, Json)>

  /** `obj[k] = v`: an existing key keeps its place and takes the new value; a new key
      goes at the end. */
  function Assign(fields: Fields, k: string, v: Json): Fields
  {
    var i := KeyIndex(fields, k);
    if i < 0 then fields + [(k, v)] else fields[i := (k, v)]
  }

  lemma KeysSnoc(fields: Fields, p: (string, Json))
    ensures Keys(fields + [p]) == Keys(fields) + [p.0]
  {
  }

  lemma KeysUpdate(fields: Fields, i: nat, v: Json)
    requires i < |fields|
    ensures Keys(fields[i := (fields[i].0, v)]) == Keys(fields)
  {
  }

  /** Appending a pair adds its key, and the new pair decides the value of its key. */
  lemma LookupSnoc(fields: Fields, p: (string, Json), k: string)
    ensures k in Keys(fields + [p]) <==> k in Keys(fields) || k == p.0
    ensures Lookup(fields + [p], k) == if k == p.0 then Some(p.1) else Lookup(fields, k)
  {
    KeysSnoc(fields, p);
    assert (fields + [p])[..|fields|] == fields;
  }

  /** A position holding key `x`, with no later position holding it, is the position
      `KeyIndex` reports; -1 when no position holds it. */
  lemma KeyIndexIs(fields: Fields, x: string, j: int)
    requires j == -1 || (0 <= j < |fields| && fields[j].0 == x)
    requires forall l | j < l < |fields| :: fields[l].0 != x
    ensures KeyIndex(fields, x) == j
  {
  }

  /** Overwriting the value at the position of key `k` changes what `k` looks up to and
      nothing else. */
  lemma LookupUpdate(fields: Fields, k: string, v: Json, x: string)
    requires KeyIndex(fields, k) >= 0
    ensures Lookup(fields[KeyIndex(fields, k) := (k, v)], x) == if x == k then Some(v) else Lookup(fields, x)
  {
    var i := KeyIndex(fields, k);
    var u := fields[i := (k, v)];
    if x == k {
      KeyIndexIs(u, x, i);
    } else {
      KeyIndexIs(u, x, KeyIndex(fields, x));
    }
  }

  /** Assigning to a key keeps the keys distinct and the old keys in their order, and adds
      a key only when it is new. */
  lemma AssignShape(fields: Fields, k: string, v: Json)
    requires Distinct(Keys(fields))
    ensures var r := Assign(fields, k, v);
      && Distinct(Keys(r))
      && |r| == (if k in Keys(fields) then |fields| else |fields| + 1)
      && Keys(r)[..|fields|] == Keys(fields)
  {
    var i := KeyIndex(fields, k);
    KeyIndexAbsent(fields, k);
    if i < 0 {
      KeysSnoc(fields, (k, v));
      DistinctSnoc(Keys(fields), k);
    } else {
      KeysUpdate(fields, i, v);
    }
  }

  lemma DistinctSnoc(ks: seq<string>, k: string)
    requires Distinct(ks) && k !in ks
    ensures Distinct(ks + [k]) && (ks + [k])[..|ks|] == ks
  {
  }

  /** After assigning to a key, that key holds the new value and every other key its old
      one. */
  lemma AssignAt(fields: Fields, k: string, v: Json, x: string)
    ensures var r := Assign(fields, k, v);
      && (x in Keys(r) <==> x in Keys(fields) || x == k)
      && Lookup(r, x) == if x == k then Some(v) else Lookup(fields, x)
  {
    var i := KeyIndex(fields, k);
    KeyIndexAbsent(fields, k);
    if i < 0 {
      LookupSnoc(fields, (k, v), x);
    } else {
      KeysUpdate(fields, i, v);
      LookupUpdate(fields, k, v, x);
    }
  }

  // ---------------------------------------------------------------------
  // Object spread

  /** The own enumerable properties `{...v}` copies: an object's fields, an array's or a
      string's positions under their decimal indices, and nothing for any other value. */
  function Spread(v: Json): Fields
  {
    match v
    case JObj(fields) => fields
    case JArr(items) => seq(|items|, i requires 0 <= i < |items| => (NatToString(i), items[i]))
    case JStr(s) => seq(|s|, i requires 0 <= i < |s| => (NatToString(i), JStr([s[i]])))
    case _ => []
  }

  /** The first `n` fields of `over` assigned one by one onto `base`. */
  function Overlay(base: Fields, over: Fields, n: nat): Fields
    requires n <= |over|
  {
    if n == 0 then base else Assign(Overlay(base, over, n - 1), over[n - 1].0, over[n - 1].1)
  }

  /** `{ ...a, ...b }`. */
  function ShallowMerge(a: Json, b: Json): Json
  {
    JObj(Overlay(Spread(a), Spread(b), |Spread(b)|))
  }

  /** Overlaying keeps the keys distinct and the base's keys first, in their order. */
  lemma {:induction false} OverlayShape(base: Fields, over: Fields, n: nat)
    requires n <= |over| && Distinct(Keys(base))
    ensures var r := Overlay(base, over, n);
      Distinct(Keys(r)) && |base| <= |r| && Keys(r)[..|base|] == Keys(base)
  {
    if n > 0 {
      var prev := Overlay(base, over, n - 1);
      OverlayShape(base, over, n - 1);
      AssignShape(prev, over[n - 1].0, over[n - 1].1);
      PrefixOfPrefix(Keys(Overlay(base, over, n)), Keys(prev), Keys(base));
    }
  }

  lemma PrefixOfPrefix(a: seq<string>, b: seq<string>, c: seq<string>)
    requires |c| <= |b| <= |a| && a[..|b|] == b && b[..|c|] == c
    ensures a[..|c|] == c
  {
    assert a[..|b|][..|c|] == a[..|c|];
  }

  /** After overlaying, a key is present when either side has it, and takes the value
      from the overlaid fields when they hold it. */
  lemma {:induction false} OverlayAt(base: Fields, over: Fields, n: nat, x: string)
    requires n <= |over|
    ensures var r := Overlay(base, over, n);
      && (x in Keys(r) <==> x in Keys(base) || x in Keys(over[..n]))
      && Lookup(r, x) == if x in Keys(over[..n]) then Lookup(over[..n], x) else Lookup(base, x)
  {
    if n > 0 {
      var prev := Overlay(base, over, n - 1);
      var p := over[n - 1];
      OverlayAt(base, over, n - 1, x);
      AssignAt(prev, p.0, p.1, x);
      PrefixSnocLookup(over, n, x);
    }
  }

  /** With distinct keys, the next key is not among the earlier ones. */
  lemma NotEarlier(fields: Fields, n: nat)
    requires 0 < n <= |fields| && Distinct(Keys(fields))
    ensures fields[n - 1].0 !in Keys(fields[..n - 1])
  {
    var early := Keys(fields[..n - 1]);
    forall i | 0 <= i < n - 1 ensures early[i] != fields[n - 1].0 {
      assert Keys(fields)[i] != Keys(fields)[n - 1];
    }
  }

  lemma SnocPrefix(fields: Fields, n: nat)
    requires 0 < n <= |fields|
    ensures fields[..n] == fields[..n - 1] + [(fields[n - 1].0, fields[n - 1].1)]
  {
  }

  lemma ObjectChild(b: Json, i: nat)
    requires b.JObj? && i < |b.fields|
    ensures Child(b, i) == b.fields[i].1
  {
  }

  /** A longer prefix of some fields adds the next key, which decides its own value. */
  lemma PrefixSnocLookup(over: Fields, n: nat, x: string)
    requires 0 < n <= |over|
    ensures x in Keys(over[..n]) <==> x in Keys(over[..n - 1]) || x == over[n - 1].0
    ensures Lookup(over[..n], x) == if x == over[n - 1].0 then Some(over[n - 1].1) else Lookup(over[..n - 1], x)
  {
    assert over[..n] == over[..n - 1] + [over[n - 1]];
    LookupSnoc(over[..n - 1], over[n - 1], x);
  }

  /** `{ ...a, ...b }` is a right-biased union: its keys are those of both spreads, the
      first spread's keys come first in their order, and a key takes the second spread's
      value when it has one and the first's otherwise. */
  lemma ShallowMergeSpec(a: Json, b: Json, x: string)
    requires Distinct(Keys(Spread(a)))
    ensures var r := ShallowMerge(a, b).fields;
      && Distinct(Keys(r))
      && |Spread(a)| <= |r|
      && Keys(r)[..|Spread(a)|] == Keys(Spread(a))
      && (x in Keys(r) <==> x in Keys(Spread(a)) || x in Keys(Spread(b)))
      && Lookup(r, x) == if x in Keys(Spread(b)) then Lookup(Spread(b), x) else Lookup(Spread(a), x)
  {
    var over := Spread(b);
    OverlayShape(Spread(a), over, |over|);
    OverlayAt(Spread(a), over, |over|, x);
    assert over[..|over|] == over;
  }
}
