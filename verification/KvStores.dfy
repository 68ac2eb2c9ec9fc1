/** The key-value stores: `client/data/indexeddb_kv_primitives.ts` and, on top of it,
    `client/data/encrypted_kv_primitives.ts`. */
module KvStores {
  import opened KeyCodec
  import opened Options

  // ----- Rows by string key, and by key -----

  /** The key under which a row is found again: the key without parts counts as one empty part. */
  function Stored(key: Key): (k: Key)
    ensures k != [] && Join(k) == Join(key) && (SepFree(key) ==> SepFree(k))
  {
    if key == [] then [[]] else key
  }

  ghost function KeysOf<V>(data: map<Str, V>): (keys: set<Key>)
    ensures forall k: Key :: k in keys <==> k != [] && SepFree(k) && Join(k) in data
  {
    forall s | s in data
      ensures Join(ExtractKey(s)) == s
    {
      JoinOfExtract(s);
    }
    forall k: Key | k != [] && SepFree(k)
      ensures ExtractKey(Join(k)) == k
    {
      ExtractOfJoin(k);
    }
    set s | s in data :: ExtractKey(s)
  }

  /** The rows as a reader sees them. */
  ghost function Rows<V>(data: map<Str, V>): (rows: map<Key, V>)
    ensures forall k: Key :: k in rows <==> k != [] && SepFree(k) && Join(k) in data
    ensures forall k: Key :: k in rows ==> rows[k] == data[Join(k)]
  {
    map k | k in KeysOf(data) :: data[Join(k)]
  }

  lemma SameString(k: Key, k': Key)
    requires SepFree(k) && SepFree(k') && k != [] && k' != [] && Join(k) == Join(k')
    ensures k == k'
  {
    ExtractOfJoin(k);
    ExtractOfJoin(k');
  }

  lemma RowsPut<V>(data: map<Str, V>, key: Key, v: V)
    requires SepFree(key)
    ensures Rows(data[Join(key) := v]) == Rows(data)[Stored(key) := v]
  {
    hide Join, SepFree, Stored, Rows;
    var after, want := Rows(data[Join(key) := v]), Rows(data)[Stored(key) := v];
    forall k: Key
      ensures k in after <==> k in want
      ensures k in after ==> after[k] == want[k]
    {
      RowsPutAt(data, key, v, k);
    }
  }

  lemma RowsPutAt<V>(data: map<Str, V>, key: Key, v: V, k: Key)
    requires SepFree(key)
    ensures var after, want := Rows(data[Join(key) := v]), Rows(data)[Stored(key) := v];
      (k in after <==> k in want) && (k in after ==> after[k] == want[k])
  {
    hide Join, SepFree;
    if k != [] && SepFree(k) {
      SameStringIff(k, key);
    }
  }

  lemma SameStringIff(k: Key, key: Key)
    requires SepFree(k) && SepFree(key) && k != []
    ensures Join(k) == Join(key) <==> k == Stored(key)
  {
    hide Join;
    if Join(k) == Join(key) {
      SameString(k, Stored(key));
    }
  }

  lemma RowsRemovedAt<V>(data: map<Str, V>, key: Key, k: Key)
    requires SepFree(key)
    ensures k in Rows(data - {Join(key)}) <==> k in Rows(data) && k != Stored(key)
    ensures k in Rows(data - {Join(key)}) ==> Rows(data - {Join(key)})[k] == Rows(data)[k]
  {
  }

  lemma RowsRemoved<V>(data: map<Str, V>, key: Key)
    requires SepFree(key)
    ensures Rows(data - {Join(key)}) == Rows(data) - {Stored(key)}
  {
    hide Join, SepFree, Stored, Rows;
    forall k: Key
      ensures k in Rows(data - {Join(key)}) <==> k in Rows(data) && k != Stored(key)
      ensures k in Rows(data - {Join(key)}) ==> Rows(data - {Join(key)})[k] == Rows(data)[k]
    {
      RowsRemovedAt(data, key, k);
    }
  }

  function Lookup<K, V>(rows: map<K, V>, key: K): Option<V> {
    if key in rows then Some(rows[key]) else None
  }

  lemma LookupBuilt<V>(data: map<Str, V>, key: Key)
    requires SepFree(key)
    ensures Lookup(Rows(data), Stored(key)) == if Join(key) in data then Some(data[Join(key)]) else None
  {
  }

  // ----- What a batch does -----

  datatype KV<+V> = KV(key: Key, value: V)

  /** The entries are put one by one, up to the first key that cannot be built. */
  function PutAll<V>(rows: map<Key, V>, entries: seq<KV<V>>): map<Key, V> {
    if entries == [] then rows
    else
      var n := |entries| - 1;
      PutAll(rows, entries[..n])[Stored(entries[n].key) := entries[n].value]
  }

  function RemoveAll<V>(rows: map<Key, V>, keys: seq<Key>): map<Key, V> {
    if keys == [] then rows
    else
      var n := |keys| - 1;
      RemoveAll(rows, keys[..n]) - {Stored(keys[n])}
  }

  lemma PutAllStep<V>(rows: map<Key, V>, entries: seq<KV<V>>, k: Key)
    requires entries != []
    ensures var n := |entries| - 1;
      Lookup(PutAll(rows, entries), k) ==
      if Stored(entries[n].key) == k then Some(entries[n].value) else Lookup(PutAll(rows, entries[..n]), k)
  {
  }

  /** A key has the value that the last entry for it gives. */
  lemma {:induction false} LastPutIsStored<V>(rows: map<Key, V>, entries: seq<KV<V>>, i: nat)
    requires i < |entries| && forall j :: i < j < |entries| ==> Stored(entries[j].key) != Stored(entries[i].key)
    ensures Lookup(PutAll(rows, entries), Stored(entries[i].key)) == Some(entries[i].value)
    decreases |entries|
  {
    hide Stored, PutAll, Lookup;
    var n := |entries| - 1;
    PutAllStep(rows, entries, Stored(entries[i].key));
    if i < n {
      LastPutIsStored(rows, entries[..n], i);
    }
  }

  /** And the one it had, if no entry is for it. */
  lemma {:induction false} NotPutStays<V>(rows: map<Key, V>, entries: seq<KV<V>>, k: Key)
    requires forall i :: 0 <= i < |entries| ==> Stored(entries[i].key) != k
    ensures Lookup(PutAll(rows, entries), k) == Lookup(rows, k)
    decreases |entries|
  {
    hide Stored, Lookup;
    if entries != [] {
      PutAllStep(rows, entries, k);
      NotPutStays(rows, entries[..|entries| - 1], k);
    }
  }

  /** Exactly the keys given are gone, and the others are as they were. */
  lemma {:induction false} RemoveAllIs<V>(rows: map<Key, V>, keys: seq<Key>)
    ensures RemoveAll(rows, keys) ==
            map k | k in rows && (forall i :: 0 <= i < |keys| ==> Stored(keys[i]) != k) :: rows[k]
    decreases |keys|
  {
    hide Stored;
    if keys != [] {
      RemoveAllIs(rows, keys[..|keys| - 1]);
    }
  }

  function Buildable(keys: seq<Key>): (n: nat)
    ensures n <= |keys| && (forall i :: 0 <= i < n ==> SepFree(keys[i])) && (n < |keys| ==> !SepFree(keys[n]))
  {
    if keys == [] || !SepFree(keys[0]) then 0 else 1 + Buildable(keys[1..])
  }

  lemma {:induction false} BuildableUpTo(keys: seq<Key>, n: nat)
    requires n <= |keys| && (forall i :: 0 <= i < n ==> SepFree(keys[i])) && (n < |keys| ==> !SepFree(keys[n]))
    ensures Buildable(keys) == n
  {
  }

  function KeysIn<V>(entries: seq<KV<V>>): (keys: seq<Key>)
    ensures |keys| == |entries| && forall i :: 0 <= i < |entries| ==> keys[i] == entries[i].key
  {
    seq(|entries|, i requires 0 <= i < |entries| => entries[i].key)
  }

  function StringsInRange<V>(data: map<Str, V>, prefix: Key): set<Str> {
    set s | s in data && InRange(s, prefix)
  }

  ghost function KeysInRange<V>(rows: map<Key, V>, prefix: Key): set<Key> {
    set k | k in rows && InRange(Join(k), prefix)
  }

  /** The rows of a scan: all keys in the range, in key order. */
  ghost predicate IsScan<V>(out: seq<KV<V>>, rows: map<Key, V>, prefix: Key) {
    && (forall i :: 0 <= i < |out| ==>
          out[i].key in rows && out[i].value == rows[out[i].key] && InRange(Join(out[i].key), prefix))
    && (forall k :: k in rows && InRange(Join(k), prefix) ==> exists i :: 0 <= i < |out| && out[i].key == k)
    && (forall i, j :: 0 <= i < j < |out| ==>
          LexLe(Join(out[i].key), Join(out[j].key)) && out[i].key != out[j].key)
  }

  class IndexedDbKv<V> {
    /** The object store: values by string key. */
    var data: map<Str, V>

    constructor ()
      ensures Rows(data) == map[]
    {
      data := map[];
    }

    method Clear()
      modifies this
      ensures Rows(data) == map[]
    {
      data := map[];
    }

    /** `None` where building a key throws. */
    method BatchGet(keys: seq<Key>) returns (values: Option<seq<Option<V>>>)
      ensures values.None? <==> Buildable(keys) < |keys|
      ensures values.Some? ==> |values.value| == |keys|
      ensures values.Some? ==> forall i :: 0 <= i < |keys| ==> values.value[i] == Lookup(Rows(data), Stored(keys[i]))
    {
      hide Join, SepFree, Rows, Lookup, Stored, Buildable;
      var out: seq<Option<V>> := [];
      for i := 0 to |keys|
        invariant |out| == i
        invariant forall j :: 0 <= j < i ==> SepFree(keys[j])
        invariant forall j :: 0 <= j < i ==> out[j] == Lookup(Rows(data), Stored(keys[j]))
      {
        var built := BuildKey(keys[i]);
        if built.None? {
          BuildableUpTo(keys, i);
          return None;
        }
        LookupBuilt(data, keys[i]);
        out := out + [if built.value in data then Some(data[built.value]) else None];
      }
      BuildableUpTo(keys, |keys|);
      values := Some(out);
    }

    method BatchSet(entries: seq<KV<V>>) returns (ok: bool)
      modifies this
      ensures ok <==> Buildable(KeysIn(entries)) == |entries|
      ensures Rows(data) == PutAll(old(Rows(data)), entries[..Buildable(KeysIn(entries))])
    {
      hide Join, SepFree, Rows, Stored, Buildable;
      assert entries[..0] == [];
      for i := 0 to |entries|
        invariant forall j :: 0 <= j < i ==> SepFree(entries[j].key)
        invariant Rows(data) == PutAll(old(Rows(data)), entries[..i])
      {
        var built := BuildKey(entries[i].key);
        if built.None? {
          BuildableUpTo(KeysIn(entries), i);
          return false;
        }
        RowsPut(data, entries[i].key, entries[i].value);
        assert entries[..i + 1][..i] == entries[..i];
        data := data[built.value := entries[i].value];
      }
      BuildableUpTo(KeysIn(entries), |entries|);
      ok := true;
    }

    method BatchDelete(keys: seq<Key>) returns (ok: bool)
      modifies this
      ensures ok <==> Buildable(keys) == |keys|
      ensures Rows(data) == RemoveAll(old(Rows(data)), keys[..Buildable(keys)])
    {
      hide Join, SepFree, Rows, Stored, Buildable;
      assert keys[..0] == [];
      for i := 0 to |keys|
        invariant forall j :: 0 <= j < i ==> SepFree(keys[j])
        invariant Rows(data) == RemoveAll(old(Rows(data)), keys[..i])
      {
        var built := BuildKey(keys[i]);
        if built.None? {
          BuildableUpTo(keys, i);
          return false;
        }
        RowsRemoved(data, keys[i]);
        assert keys[..i + 1][..i] == keys[..i];
        data := data - {built.value};
      }
      BuildableUpTo(keys, |keys|);
      ok := true;
    }

    /** The cursor walk over the range, in key order. */
    method Query(prefix: Key) returns (out: Option<seq<KV<V>>>)
      ensures out.Some? <==> SepFree(prefix)
      ensures out.Some? ==> IsScan(out.value, Rows(data), prefix)
    {
      hide Join, Rows, InRange, LexLe;
      if !SepFree(prefix) {
        return None;
      }
      var rows: seq<KV<V>> := [];
      var todo := StringsInRange(data, prefix);
      ghost var all := todo;
      while todo != {}
        invariant todo <= all && Walked(rows, data, all - todo, todo)
      {
        var s := Least(todo);
        ghost var before := todo;
        WalkFurther(rows, data, all - todo, todo, s);
        rows := rows + [KV(ExtractKey(s), data[s])];
        todo := todo - {s};
        assert all - todo == (all - before) + {s};
      }
      assert all - todo == all;
      WalkIsScan(rows, data, prefix, all);
      out := Some(rows);
    }

    method CountQuery(prefix: Key) returns (n: Option<nat>)
      ensures n.Some? <==> SepFree(prefix)
      ensures n.Some? ==> n.value == |KeysInRange(Rows(data), prefix)|
    {
      if !SepFree(prefix) {
        return None;
      }
      CountIsKeys(data, prefix);
      n := Some(|StringsInRange(data, prefix)|);
    }
  }

  ghost predicate RowOf<V>(row: KV<V>, data: map<Str, V>) {
    row.key in Rows(data) && row.value == data[Join(row.key)]
  }

  /** A cursor that has passed the strings in `done` and has those in `todo` before it. */
  ghost predicate Walked<V>(rows: seq<KV<V>>, data: map<Str, V>, done: set<Str>, todo: set<Str>) {
    && (forall i :: 0 <= i < |rows| ==> RowOf(rows[i], data) && Join(rows[i].key) in done)
    && (forall s :: s in done ==> Passed(rows, s))
    && (forall i, s :: 0 <= i < |rows| && s in todo ==> LexLe(Join(rows[i].key), s))
    && InOrder(rows)
  }

  ghost predicate Passed<V>(rows: seq<KV<V>>, s: Str) {
    exists i :: 0 <= i < |rows| && Join(rows[i].key) == s
  }

  ghost predicate InOrder<V>(rows: seq<KV<V>>) {
    forall i, j :: 0 <= i < j < |rows| ==> LexLe(Join(rows[i].key), Join(rows[j].key)) && rows[i].key != rows[j].key
  }

  lemma NewRow<V>(data: map<Str, V>, s: Str)
    requires s in data
    ensures RowOf(KV(ExtractKey(s), data[s]), data) && Join(ExtractKey(s)) == s
  {
    hide Join, Rows, ExtractKey;
    JoinOfExtract(s);
  }

  lemma WalkFurther<V>(rows: seq<KV<V>>, data: map<Str, V>, done: set<Str>, todo: set<Str>, s: Str)
    requires Walked(rows, data, done, todo) && done !! todo && s in todo && s in data
    requires forall x :: x in todo ==> LexLe(s, x)
    ensures Walked(rows + [KV(ExtractKey(s), data[s])], data, done + {s}, todo - {s})
  {
    hide Join, LexLe, RowOf, ExtractKey, Passed, InOrder;
    NewRow(data, s);
    var row := KV(ExtractKey(s), data[s]);
    forall x | x in done + {s}
      ensures Passed(rows + [row], x)
    {
      PassedNext(rows, row, x);
    }
    forall i | 0 <= i < |rows|
      ensures LexLe(Join(rows[i].key), Join(row.key)) && rows[i].key != row.key
    {
      assert Join(rows[i].key) in done;
    }
    InOrderNext(rows, row);
  }

  lemma PassedNext<V>(rows: seq<KV<V>>, row: KV<V>, x: Str)
    requires Passed(rows, x) || Join(row.key) == x
    ensures Passed(rows + [row], x)
  {
    hide Join;
    assert (rows + [row])[|rows|] == row;
    if i :| 0 <= i < |rows| && Join(rows[i].key) == x {
      assert (rows + [row])[i] == rows[i];
    }
  }

  lemma InOrderNext<V>(rows: seq<KV<V>>, row: KV<V>)
    requires InOrder(rows)
    requires forall i :: 0 <= i < |rows| ==> LexLe(Join(rows[i].key), Join(row.key)) && rows[i].key != row.key
    ensures InOrder(rows + [row])
  {
  }

  lemma WalkIsScan<V>(rows: seq<KV<V>>, data: map<Str, V>, prefix: Key, all: set<Str>)
    requires Walked(rows, data, all, {}) && all == StringsInRange(data, prefix)
    ensures IsScan(rows, Rows(data), prefix)
  {
    hide Join, InRange, LexLe, SepFree, Rows;
    forall i | 0 <= i < |rows|
      ensures RowOf(rows[i], data) && rows[i].value == Rows(data)[rows[i].key] && InRange(Join(rows[i].key), prefix)
    {
      assert RowOf(rows[i], data);
    }
    forall k | k in Rows(data) && InRange(Join(k), prefix)
      ensures exists i :: 0 <= i < |rows| && rows[i].key == k
    {
      assert Join(k) in all;
      assert Passed(rows, Join(k));
      var i :| 0 <= i < |rows| && Join(rows[i].key) == Join(k);
      assert RowOf(rows[i], data);
      SameString(rows[i].key, k);
    }
  }

  lemma CountIsKeys<V>(data: map<Str, V>, prefix: Key)
    ensures |StringsInRange(data, prefix)| == |KeysInRange(Rows(data), prefix)|
  {
    hide Join, InRange, ExtractKey, SepFree;
    var ss, ks := StringsInRange(data, prefix), KeysInRange(Rows(data), prefix);
    forall s | s in ss
      ensures ExtractKey(s) in ks && Join(ExtractKey(s)) == s
    {
      JoinOfExtract(s);
    }
    forall k, k' | k in ks && k' in ks && Join(k) == Join(k')
      ensures k == k'
    {
      SameString(k, k');
    }
    SameCount(ks, ss);
  }

  lemma {:induction false} SameCount(ks: set<Key>, ss: set<Str>)
    requires forall k :: k in ks ==> Join(k) in ss
    requires forall k, k' :: k in ks && k' in ks && Join(k) == Join(k') ==> k == k'
    requires forall s :: s in ss ==> ExtractKey(s) in ks && Join(ExtractKey(s)) == s
    ensures |ks| == |ss|
    decreases |ks|
  {
    if ks == {} {
      assert ss == {};
    } else {
      var k :| k in ks;
      var s := Join(k);
      assert ExtractKey(s) == k;
      SameCount(ks - {k}, ss - {s});
    }
  }

  method Least(todo: set<Str>) returns (least: Str)
    requires todo != {}
    ensures least in todo && forall s :: s in todo ==> LexLe(least, s)
  {
    least :| least in todo;
    var left := todo - {least};
    LexOrder(least, least, least);
    while left != {}
      invariant left <= todo && least in todo
      invariant forall s :: s in todo - left ==> LexLe(least, s)
    {
      var s :| s in left;
      ghost var before := least;
      LexOrder(s, least, least);
      LexOrder(s, s, s);
      if LexLe(s, least) {
        forall x | x in todo - left
          ensures LexLe(s, x)
        {
          LexOrder(s, before, x);
        }
        least := s;
      } else {
        LexOrder(least, s, s);
      }
      left := left - {s};
    }
  }
}
