/** Keys as strings: `buildKey`, `extractKey` and the range that `query` and `countQuery` scan
    in `client/data/indexeddb_kv_primitives.ts`.

    Strings are sequences of UTF-16 code units here, because IndexedDB orders string keys
    by code unit (W3C Indexed Database API, section 2.4). */
module KeyCodec {
  import opened Options

  type CodeUnit = u: nat | u < 0x10000
  type Str = seq<CodeUnit>
  type Key = seq<Str>

  const SEP: CodeUnit := 0
  const TOP: CodeUnit := 0xFFFF

  // ----- buildKey and extractKey -----

  /** `key.join(sep)`. */
  function Join(key: Key): Str {
    if key == [] then []
    else if |key| == 1 then key[0]
    else key[0] + [SEP] + Join(key[1..])
  }

  predicate SepFree(key: Key) {
    forall i :: 0 <= i < |key| ==> SEP !in key[i]
  }

  /** `None` where the source throws. */
  function BuildKey(key: Key): Option<Str> {
    if SepFree(key) then Some(Join(key)) else None
  }

  /** The first separator, or the end. */
  function PartEnd(s: Str): (e: nat)
    ensures e <= |s| && SEP !in s[..e] && (e < |s| ==> s[e] == SEP)
  {
    if s == [] || s[0] == SEP then 0
    else
      var e := PartEnd(s[1..]);
      assert s[..e + 1] == [s[0]] + s[1..][..e];
      e + 1
  }

  /** `s.split(sep)`. */
  function ExtractKey(s: Str): (key: Key)
    ensures key != [] && SepFree(key)
    decreases |s|
  {
    var e := PartEnd(s);
    if e == |s| then [s] else [s[..e]] + ExtractKey(s[e + 1..])
  }

  lemma {:induction false} PartEndUnique(s: Str, e: nat)
    requires e <= |s| && SEP !in s[..e] && (e < |s| ==> s[e] == SEP)
    ensures PartEnd(s) == e
    decreases |s|
  {
    if e > 0 {
      assert s[0] == s[..e][0];
      assert s[1..][..e - 1] == s[..e][1..];
      PartEndUnique(s[1..], e - 1);
    }
  }

  /** Reading a built key gives the key back, unless it is the key without parts, which comes
      back as one empty part. */
  lemma {:induction false} ExtractOfJoin(key: Key)
    requires SepFree(key)
    ensures ExtractKey(Join(key)) == if key == [] then [[]] else key
    decreases |key|
  {
    if |key| == 1 {
      PartEndUnique(key[0], |key[0]|);
    } else if |key| > 1 {
      var s := Join(key);
      assert s == key[0] + ([SEP] + Join(key[1..]));
      assert s[..|key[0]|] == key[0] && s[|key[0]| + 1..] == Join(key[1..]);
      PartEndUnique(s, |key[0]|);
      ExtractOfJoin(key[1..]);
    } else {
      PartEndUnique([], 0);
    }
  }

  lemma BuildExtractRoundTrip(key: Key)
    ensures BuildKey(key).Some? <==> SepFree(key)
    ensures BuildKey(key).Some? ==> (ExtractKey(BuildKey(key).value) == key <==> key != [])
  {
    if SepFree(key) {
      ExtractOfJoin(key);
    }
  }

  lemma {:induction false} JoinOfExtract(s: Str)
    ensures Join(ExtractKey(s)) == s
    decreases |s|
  {
    var e := PartEnd(s);
    if e < |s| {
      JoinOfExtract(s[e + 1..]);
      assert ExtractKey(s)[1..] == ExtractKey(s[e + 1..]);
      assert s == s[..e] + [SEP] + s[e + 1..];
    }
  }

  // ----- The scan range -----

  /** Code-unit order of strings. */
  predicate LexLe(a: Str, b: Str) {
    if a == [] then true
    else if b == [] then false
    else if a[0] != b[0] then a[0] < b[0]
    else LexLe(a[1..], b[1..])
  }

  /** `IDBKeyRange.bound(buildKey([...prefix, ""]), buildKey([...prefix, "\uffff"]))`. */
  predicate InRange(s: Str, prefix: Key) {
    LexLe(Join(prefix + [[]]), s) && LexLe(s, Join(prefix + [[TOP]]))
  }

  /** The key has the prefix's parts, and at least one more. */
  predicate Extends(key: Key, prefix: Key) {
    |prefix| < |key| && key[..|prefix|] == prefix
  }

  lemma {:induction false} LexPrefix(low: Str, s: Str)
    ensures LexLe(low, s) && LexLe(s, low + [TOP]) <==>
      low <= s && (|s| == |low| || s[|low|] < TOP || s == low + [TOP])
    decreases |low|
  {
    if low == [] {
      assert low + [TOP] == [TOP];
      if s != [] && s[0] == TOP {
        assert s[1..] == [] <==> s == [TOP];
      }
    } else if s != [] {
      assert (low + [TOP])[1..] == low[1..] + [TOP];
      LexPrefix(low[1..], s[1..]);
      assert low <= s <==> low[0] == s[0] && low[1..] <= s[1..];
      assert s == [s[0]] + s[1..] && low == [low[0]] + low[1..];
      assert s == low + [TOP] <==> s[0] == low[0] && s[1..] == low[1..] + [TOP];
    }
  }

  lemma {:induction false} JoinAppend(a: Key, b: Key)
    requires a != [] && b != []
    ensures Join(a + b) == Join(a) + [SEP] + Join(b)
    decreases |a|
  {
    if |a| == 1 {
      assert (a + b)[1..] == b;
    } else {
      assert (a + b)[1..] == a[1..] + b;
      JoinAppend(a[1..], b);
    }
  }

  /** A built key begins with another one and a separator just when its parts do. */
  lemma PrefixMeansParts(prefix: Key, key: Key)
    requires SepFree(prefix) && SepFree(key) && prefix != [] && key != []
    ensures Join(prefix) + [SEP] <= Join(key) <==> Extends(key, prefix)
  {
    var p, s := Join(prefix) + [SEP], Join(key);
    if p <= s {
      var rest := ExtractKey(s[|p|..]);
      JoinOfExtract(s[|p|..]);
      JoinAppend(prefix, rest);
      assert s == p + s[|p|..] == Join(prefix + rest);
      ExtractOfJoin(prefix + rest);
      ExtractOfJoin(key);
      assert key == prefix + rest;
    }
    if Extends(key, prefix) {
      assert key == prefix + key[|prefix|..];
      JoinAppend(prefix, key[|prefix|..]);
    }
  }

  /** What follows the prefix in a built key. */
  lemma RestOfKey(prefix: Key, key: Key)
    requires Extends(key, prefix)
    ensures Join(key) == Join(prefix + [[]]) + Join(key[|prefix|..])
  {
    var rest := key[|prefix|..];
    assert key == prefix + rest;
    if prefix == [] {
      assert prefix + [[]] == [[]] && rest == key;
    } else {
      JoinAppend(prefix, rest);
      JoinAppend(prefix, [[]]);
    }
  }

  lemma RangeBounds(prefix: Key)
    ensures Join(prefix + [[TOP]]) == Join(prefix + [[]]) + [TOP]
    ensures prefix != [] ==> Join(prefix + [[]]) == Join(prefix) + [SEP]
  {
    if prefix == [] {
      assert prefix + [[]] == [[]] && prefix + [[TOP]] == [[TOP]];
    } else {
      JoinAppend(prefix, [[]]);
      JoinAppend(prefix, [[TOP]]);
    }
  }

  lemma JoinHead(key: Key)
    requires SepFree(key) && key != []
    ensures Join(key) == [] <==> key == [[]]
    ensures Join(key) != [] ==> Join(key)[0] == if key[0] == [] then SEP else key[0][0]
    ensures Join(key) == [TOP] <==> key == [[TOP]]
  {
    ExtractOfJoin(key);
    ExtractOfJoin([[TOP]]);
    ExtractOfJoin([[]]);
  }

  /** The part after the prefix sorts inside the range. */
  predicate BelowTop(key: Key, at: nat)
    requires at < |key|
  {
    key[at] == [] || key[at][0] < TOP || (key[at] == [TOP] && |key| == at + 1)
  }

  /** The scanned range, exactly: the keys that extend the prefix by whole parts, except those
      whose next part begins with U+FFFF and is not that one unit at the end of the key. */
  lemma RangeIffExtends(prefix: Key, key: Key)
    requires SepFree(prefix) && SepFree(key) && key != []
    ensures InRange(Join(key), prefix) <==> Extends(key, prefix) && BelowTop(key, |prefix|)
  {
    var low, s := Join(prefix + [[]]), Join(key);
    RangeBounds(prefix);
    LexPrefix(low, s);
    if prefix != [] {
      PrefixMeansParts(prefix, key);
    } else {
      assert low == [];
    }
    if Extends(key, prefix) {
      var rest := key[|prefix|..];
      RestOfKey(prefix, key);
      JoinHead(rest);
      assert s == low + [TOP] <==> Join(rest) == [TOP];
      assert |s| > |low| ==> s[|low|] == Join(rest)[0];
    }
  }

  /** So without parts that begin with U+FFFF a scan sees whole-part extensions and nothing
      else; a raw prefix test would see more. */
  lemma RangeSelectsWholeParts(prefix: Key, key: Key)
    requires SepFree(prefix) && SepFree(key) && key != []
    requires forall i :: 0 <= i < |key| ==> key[i] == [] || key[i][0] != TOP
    ensures InRange(Join(key), prefix) <==> Extends(key, prefix)
  {
    RangeIffExtends(prefix, key);
  }

  // ----- The order of a scan -----

  lemma {:induction false} LexOrder(a: Str, b: Str, c: Str)
    ensures LexLe(a, a)
    ensures LexLe(a, b) || LexLe(b, a)
    ensures LexLe(a, b) && LexLe(b, a) ==> a == b
    ensures LexLe(a, b) && LexLe(b, c) ==> LexLe(a, c)
    decreases |a|
  {
    if a != [] {
      LexOrder(a[1..], if b == [] then [] else b[1..], if c == [] then [] else c[1..]);
      if b != [] && a[0] == b[0] && a[1..] == b[1..] {
        assert a == [a[0]] + a[1..] == b;
      }
    }
  }

  lemma {:induction false} LexCommonFront(front: Str, a: Str, b: Str)
    ensures LexLe(front + a, front + b) == LexLe(a, b)
    decreases |front|
  {
    if front == [] {
      assert front + a == a && front + b == b;
    } else {
      assert (front + a)[1..] == front[1..] + a && (front + b)[1..] == front[1..] + b;
      LexCommonFront(front[1..], a, b);
    }
  }

  /** Keys that differ in their last part only come in the order of that part. */
  lemma LastPartOrder(prefix: Key, a: Str, b: Str)
    ensures LexLe(Join(prefix + [a]), Join(prefix + [b])) == LexLe(a, b)
  {
    if prefix == [] {
      assert prefix + [a] == [a] && prefix + [b] == [b];
    } else {
      JoinAppend(prefix, [a]);
      JoinAppend(prefix, [b]);
      LexCommonFront(Join(prefix) + [SEP], a, b);
    }
  }
}
