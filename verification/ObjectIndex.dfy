/** The object index: `client/data/object_index.ts` over `client/data/datastore.ts`. A scan for
    a prefix sees the keys that extend it by whole parts. */
module ObjectIndex {
  import opened KeyCodec
  import opened KvStores
  import opened Options

  // ----- DataStore: the first of several entries for a key wins -----

  function FirstWins<V>(entries: seq<KV<V>>): map<Key, V> {
    if entries == [] then map[]
    else
      var n := |entries| - 1;
      var earlier := FirstWins(entries[..n]);
      if entries[n].key in earlier then earlier else earlier[entries[n].key := entries[n].value]
  }

  ghost predicate IsFirst<V>(entries: seq<KV<V>>, i: nat, key: Key)
    requires i < |entries|
  {
    entries[i].key == key && forall j :: 0 <= j < i ==> entries[j].key != key
  }

  /** What is stored for a key is what its first entry says. */
  lemma {:induction false} FirstEntryIsStored<V>(entries: seq<KV<V>>, key: Key)
    ensures key in FirstWins(entries) <==> exists i :: 0 <= i < |entries| && entries[i].key == key
    ensures forall i :: 0 <= i < |entries| && IsFirst(entries, i, key) ==>
      Lookup(FirstWins(entries), key) == Some(entries[i].value)
    decreases |entries|
  {
    if entries != [] {
      var n := |entries| - 1;
      FirstEntryIsStored(entries[..n], key);
      assert forall i :: 0 <= i < n ==> entries[..n][i] == entries[i];
      if key in FirstWins(entries[..n]) {
        var i :| 0 <= i < n && entries[..n][i].key == key;
        assert entries[i].key == key;
      }
    }
  }

  class DataStore<V> {
    var rows: map<Key, V>

    method BatchSet(entries: seq<KV<V>>)
      modifies this
      ensures rows == old(rows) + FirstWins(entries)
    {
      var seen: set<Key> := {};
      var unique: seq<KV<V>> := [];
      for i := 0 to |entries|
        invariant seen == FirstWins(entries[..i]).Keys
        invariant forall r: map<Key, V> :: PutEach(r, unique) == r + FirstWins(entries[..i])
      {
        assert entries[..i + 1][..i] == entries[..i];
        var entry := entries[i];
        if entry.key !in seen {
          seen := seen + {entry.key};
          ghost var before := unique;
          unique := unique + [entry];
          assert unique[..|unique| - 1] == before;
          forall r: map<Key, V>
            ensures PutEach(r, unique) == r + FirstWins(entries[..i + 1])
          {
            assert PutEach(r, before) == r + FirstWins(entries[..i]);
          }
        }
      }
      assert entries[..|entries|] == entries;
      rows := PutEach(rows, unique);
    }

    method BatchDelete(keys: seq<Key>)
      modifies this
      ensures rows == old(rows) - set k | k in keys
    {
      rows := rows - set k | k in keys;
    }

    /** All keys that extend the prefix, in some order, each once. */
    method QueryKeys(prefix: Key) returns (keys: seq<Key>)
      ensures forall k :: k in keys <==> k in rows && Extends(k, prefix)
    {
      keys := [];
      var todo := rows.Keys;
      while todo != {}
        invariant todo <= rows.Keys
        invariant forall k :: k in keys <==> k in rows.Keys - todo && Extends(k, prefix)
      {
        var k :| k in todo;
        todo := todo - {k};
        if Extends(k, prefix) {
          keys := keys + [k];
        }
      }
    }

    method BatchDeletePrefix(prefix: Key)
      modifies this
      ensures rows == old(rows) - set k | k in old(rows) && Extends(k, prefix)
    {
      var keys := QueryKeys(prefix);
      BatchDelete(keys);
    }
  }

  /** What `kv.batchSet` does with distinct keys. */
  function PutEach<V>(rows: map<Key, V>, entries: seq<KV<V>>): map<Key, V> {
    if entries == [] then rows
    else
      var n := |entries| - 1;
      PutEach(rows, entries[..n])[entries[n].key := entries[n].value]
  }

  // ----- Index keys -----

  /** `"idx"` and `"ridx"`. */
  const IDX: Str := [105, 100, 120]
  const RIDX: Str := [114, 105, 100, 120]

  function Forward(key: Key, page: Str): Key { [IDX] + key + [page] }

  function Reverse(key: Key, page: Str): Key { [RIDX, page] + key }

  predicate IsForward(k: Key) { |k| >= 2 && k[0] == IDX }

  /** The reverse key of a forward key. */
  function ReverseOf(k: Key): Key
    requires IsForward(k)
  {
    Reverse(k[1..|k| - 1], k[|k| - 1])
  }

  /** Every row of the index can be found from its page. */
  ghost predicate Indexed<V>(rows: map<Key, V>) {
    forall k :: k in rows && IsForward(k) ==> ReverseOf(k) in rows
  }

  lemma KeyShapes(key: Key, page: Str)
    ensures IsForward(Forward(key, page)) && ReverseOf(Forward(key, page)) == Reverse(key, page)
    ensures !IsForward(Reverse(key, page))
    ensures Extends(Reverse(key, page), [RIDX, page]) <==> key != []
    ensures !Extends(Forward(key, page), [RIDX])
    ensures Extends(Forward(key, page), [IDX])
  {
  }

  lemma ForwardShape(k: Key)
    requires IsForward(k)
    ensures k == Forward(k[1..|k| - 1], k[|k| - 1])
  {
  }

  // ----- What each operation does to the rows -----

  datatype Entry<+V> = Object(value: V) | Mark

  /** The rows of one `batchSet`: for each object its row and its reverse row. */
  function IndexEntries<V>(page: Str, kvs: seq<KV<V>>): seq<KV<Entry<V>>> {
    if kvs == [] then []
    else
      var n := |kvs| - 1;
      IndexEntries(page, kvs[..n])
      + [KV(Forward(kvs[n].key, page), Object(kvs[n].value)), KV(Reverse(kvs[n].key, page), Mark)]
  }

  function AfterSet<V>(rows: map<Key, Entry<V>>, page: Str, kvs: seq<KV<V>>): map<Key, Entry<V>> {
    rows + FirstWins(IndexEntries(page, kvs))
  }

  function AfterDelete<V>(rows: map<Key, Entry<V>>, page: Str, keys: seq<Key>): map<Key, Entry<V>> {
    rows - set k | k in keys :: Forward(k, page)
  }

  /** The keys that `clearFileIndex` deletes. */
  ghost function FileKeys<V>(rows: map<Key, Entry<V>>, page: Str): set<Key> {
    (set k | k in rows && Extends(k, [RIDX, page])) +
    (set k | k in rows && Extends(k, [RIDX, page]) :: Forward(k[2..], page))
  }

  ghost function AfterClearFile<V>(rows: map<Key, Entry<V>>, page: Str): map<Key, Entry<V>> {
    rows - FileKeys(rows, page)
  }

  ghost function AfterClear<V>(rows: map<Key, Entry<V>>): map<Key, Entry<V>> {
    rows - set k | k in rows && (Extends(k, [IDX]) || Extends(k, [RIDX]))
  }

  // ----- Each operation keeps the index findable -----

  lemma {:induction false} IndexEntriesKeys<V>(page: Str, kvs: seq<KV<V>>, key: Key)
    ensures (exists i :: 0 <= i < |IndexEntries(page, kvs)| && IndexEntries(page, kvs)[i].key == key) <==>
      exists j :: 0 <= j < |kvs| && (key == Forward(kvs[j].key, page) || key == Reverse(kvs[j].key, page))
    decreases |kvs|
  {
    hide Forward, Reverse;
    if kvs != [] {
      var n := |kvs| - 1;
      IndexEntriesKeys(page, kvs[..n], key);
      var before, all := IndexEntries(page, kvs[..n]), IndexEntries(page, kvs);
      if i :| 0 <= i < |all| && all[i].key == key {
        if i < |before| {
          assert before[i].key == key;
          var j :| 0 <= j < n && (key == Forward(kvs[..n][j].key, page) || key == Reverse(kvs[..n][j].key, page));
          assert kvs[..n][j] == kvs[j];
        } else {
          assert key == Forward(kvs[n].key, page) || key == Reverse(kvs[n].key, page);
        }
      }
      if j :| 0 <= j < |kvs| && (key == Forward(kvs[j].key, page) || key == Reverse(kvs[j].key, page)) {
        if j < n {
          assert kvs[..n][j] == kvs[j];
          var i :| 0 <= i < |before| && before[i].key == key;
          assert all[i] == before[i];
        } else {
          assert all[|before|].key == Forward(kvs[n].key, page) && all[|before| + 1].key == Reverse(kvs[n].key, page);
        }
      }
    }
  }

  /** The rows that a `batchSet` adds. */
  lemma AddedKeys<V>(page: Str, kvs: seq<KV<V>>, key: Key)
    ensures key in FirstWins(IndexEntries(page, kvs)) <==>
      exists j :: 0 <= j < |kvs| && (key == Forward(kvs[j].key, page) || key == Reverse(kvs[j].key, page))
  {
    hide Forward, Reverse, FirstWins, IndexEntries;
    FirstEntryIsStored(IndexEntries(page, kvs), key);
    IndexEntriesKeys(page, kvs, key);
  }

  lemma SetKeepsIndexed<V>(rows: map<Key, Entry<V>>, page: Str, kvs: seq<KV<V>>)
    requires Indexed(rows)
    ensures Indexed(AfterSet(rows, page, kvs))
  {
    hide FirstWins, IndexEntries, IsForward, ReverseOf, Forward, Reverse;
    var after := AfterSet(rows, page, kvs);
    forall k | k in after && IsForward(k)
      ensures ReverseOf(k) in after
    {
      AddedKeys(page, kvs, k);
      if k in FirstWins(IndexEntries(page, kvs)) {
        var j :| 0 <= j < |kvs| && (k == Forward(kvs[j].key, page) || k == Reverse(kvs[j].key, page));
        KeyShapes(kvs[j].key, page);
        AddedKeys(page, kvs, Reverse(kvs[j].key, page));
      }
    }
  }

  /** Deleting objects removes forward rows only, so reverse rows may stay behind: the
      invariant runs one way. */
  lemma DeleteKeepsIndexed<V>(rows: map<Key, Entry<V>>, page: Str, keys: seq<Key>)
    requires Indexed(rows)
    ensures Indexed(AfterDelete(rows, page, keys))
    ensures forall k :: k in keys ==>
      Forward(k, page) !in AfterDelete(rows, page, keys) &&
      (Reverse(k, page) in AfterDelete(rows, page, keys) <==> Reverse(k, page) in rows)
  {
    hide Forward, Reverse, ReverseOf;
    var gone := set k | k in keys :: Forward(k, page);
    forall k | k in gone
      ensures IsForward(k)
    {
      var key :| key in keys && k == Forward(key, page);
      KeyShapes(key, page);
    }
    forall k: Key | IsForward(k)
      ensures !IsForward(ReverseOf(k))
    {
      ForwardShape(k);
      KeyShapes(k[1..|k| - 1], k[|k| - 1]);
    }
    forall k | k in keys
      ensures !IsForward(Reverse(k, page))
    {
      KeyShapes(k, page);
    }
  }

  /** A row that belongs to a page, its object key not being empty. */
  predicate OfPage(k: Key, page: Str) {
    Extends(k, [RIDX, page]) || (|k| >= 3 && k[0] == IDX && k[|k| - 1] == page)
  }

  /** Clearing a file removes all forward and reverse rows of its page, and nothing else. */
  lemma ClearFileExactly<V>(rows: map<Key, Entry<V>>, page: Str)
    requires Indexed(rows)
    ensures AfterClearFile(rows, page) == rows - set k | k in rows && OfPage(k, page)
    ensures Indexed(AfterClearFile(rows, page))
  {
    forall k | k in rows
      ensures k in FileKeys(rows, page) <==> OfPage(k, page)
    {
      FileKeyIff(rows, page, k);
    }
    var after := AfterClearFile(rows, page);
    assert after == rows - set k | k in rows && OfPage(k, page);
    forall k | k in after && IsForward(k)
      ensures ReverseOf(k) in after
    {
    }
  }

  lemma FileKeyIff<V>(rows: map<Key, Entry<V>>, page: Str, k: Key)
    requires Indexed(rows) && k in rows
    ensures k in FileKeys(rows, page) <==> OfPage(k, page)
  {
    if k in FileKeys(rows, page) && !Extends(k, [RIDX, page]) {
      var r :| r in rows && Extends(r, [RIDX, page]) && k == Forward(r[2..], page);
      assert k[0] == IDX && k[|k| - 1] == page && |k| >= 3;
    }
    if |k| >= 3 && k[0] == IDX && k[|k| - 1] == page {
      ForwardShape(k);
      var key := k[1..|k| - 1];
      var r := Reverse(key, page);
      KeyShapes(key, page);
      assert r in rows && r[2..] == key;
    }
  }

  /** A row of the page, whatever its object key. */
  predicate BelongsTo(k: Key, page: Str) {
    (|k| >= 2 && k[0] == RIDX && k[1] == page) || (|k| >= 2 && k[0] == IDX && k[|k| - 1] == page)
  }

  /** So a cleared page has no row left, unless one was written under the key without parts,
      which no tag and reference make. */
  lemma ClearFileLeavesNothing<V>(rows: map<Key, Entry<V>>, page: Str)
    requires Indexed(rows)
    ensures (forall k :: k in AfterClearFile(rows, page) ==> !BelongsTo(k, page)) <==>
      Forward([], page) !in rows && Reverse([], page) !in rows
  {
    ClearFileExactly(rows, page);
    var after := AfterClearFile(rows, page);
    assert Forward([], page) == [IDX, page] && Reverse([], page) == [RIDX, page];
    forall k | k in rows && BelongsTo(k, page)
      ensures OfPage(k, page) <==> |k| > 2
      ensures |k| == 2 ==> k == [IDX, page] || k == [RIDX, page]
    {
      if |k| > 2 && k[0] == RIDX {
        assert k[..2] == [RIDX, page];
      }
    }
    assert [IDX, page] in rows ==> [IDX, page] in after && BelongsTo([IDX, page], page);
    assert [RIDX, page] in rows ==> [RIDX, page] in after && BelongsTo([RIDX, page], page);
  }

  /** Rows of other pages, and rows outside the index, are as they were. */
  lemma ClearFileKeepsOthers<V>(rows: map<Key, Entry<V>>, page: Str, k: Key)
    requires Indexed(rows) && !BelongsTo(k, page)
    ensures Lookup(AfterClearFile(rows, page), k) == Lookup(rows, k)
  {
  }

  lemma ClearLeavesNoIndex<V>(rows: map<Key, Entry<V>>)
    ensures Indexed(AfterClear(rows))
    ensures forall k :: k in AfterClear(rows) ==> !IsForward(k) && !Extends(k, [RIDX])
  {
  }

  /** A write changes no row but those of its objects. */
  lemma SetKeepsOthers<V>(rows: map<Key, Entry<V>>, page: Str, kvs: seq<KV<V>>, k: Key)
    requires forall j :: 0 <= j < |kvs| ==> k != [IDX] + kvs[j].key + [page] && k != [RIDX, page] + kvs[j].key
    ensures Lookup(AfterSet(rows, page, kvs), k) == Lookup(rows, k)
  {
    AddedKeys(page, kvs, k);
  }

  /** A delete removes the page's rows of these objects, and no other. */
  lemma DeleteExactly<V>(rows: map<Key, Entry<V>>, page: Str, keys: seq<Key>, k: Key)
    ensures Lookup(AfterDelete(rows, page, keys), k) ==
      if |k| >= 2 && k[0] == IDX && k[|k| - 1] == page && k[1..|k| - 1] in keys then None else Lookup(rows, k)
  {
    hide Forward;
    if IsForward(k) {
      ForwardShape(k);
    }
    if key :| key in keys && k == Forward(key, page) {
      ForwardParts(key, page);
    }
  }

  lemma ForwardParts(key: Key, page: Str)
    ensures var k := Forward(key, page);
      |k| >= 2 && k[0] == IDX && k[|k| - 1] == page && k[1..|k| - 1] == key
  {
  }

  /** Clearing the index removes the rows under its two prefixes, and no other. */
  lemma ClearExactly<V>(rows: map<Key, Entry<V>>, k: Key)
    ensures Lookup(AfterClear(rows), k) ==
      if |k| >= 2 && (k[0] == IDX || k[0] == RIDX) then None else Lookup(rows, k)
  {
    assert |k| >= 1 ==> k[..1] == [k[0]];
  }

  /** A page's file is its name with `.md`; other names stand for themselves. */
  lemma PageOfIff(file: Str, page: Str)
    ensures PageOf(file) == page <==>
      file == page + [46, 109, 100] || (file == page && !exists name: Str :: file == name + [46, 109, 100])
  {
    var md := [46, 109, 100];
    if |file| >= 3 && file[|file| - 3..] == md {
      assert file == file[..|file| - 3] + md;
      if file == page + md {
        assert file[..|file| - 3] == page;
      }
    }
    if name: Str :| file == name + md {
      assert file[|file| - 3..] == md;
    }
  }

  // ----- Runs -----

  datatype Op<+V> =
    | Set(page: Str, kvs: seq<KV<V>>)
    | Delete(page: Str, keys: seq<Key>)
    | ClearFile(file: Str)
    | ClearAll

  /** `".md"` at the end of a file name is cut off. */
  function PageOf(file: Str): Str {
    if |file| >= 3 && file[|file| - 3..] == [46, 109, 100] then file[..|file| - 3] else file
  }

  ghost function AfterOp<V>(rows: map<Key, Entry<V>>, op: Op<V>): map<Key, Entry<V>> {
    match op
    case Set(page, kvs) => AfterSet(rows, page, kvs)
    case Delete(page, keys) => AfterDelete(rows, page, keys)
    case ClearFile(file) => AfterClearFile(rows, PageOf(file))
    case ClearAll => AfterClear(rows)
  }

  ghost function AfterRun<V>(rows: map<Key, Entry<V>>, ops: seq<Op<V>>): map<Key, Entry<V>> {
    if ops == [] then rows else AfterOp(AfterRun(rows, ops[..|ops| - 1]), ops[|ops| - 1])
  }

  /** In every run, each forward key has its reverse key. */
  lemma {:induction false} RunsKeepIndexed<V>(rows: map<Key, Entry<V>>, ops: seq<Op<V>>)
    requires Indexed(rows)
    ensures Indexed(AfterRun(rows, ops))
    decreases |ops|
  {
    hide Indexed, AfterSet, AfterDelete, AfterClearFile, AfterClear;
    if ops != [] {
      var before, op := AfterRun(rows, ops[..|ops| - 1]), ops[|ops| - 1];
      RunsKeepIndexed(rows, ops[..|ops| - 1]);
      match op
      case Set(page, kvs) => SetKeepsIndexed(before, page, kvs);
      case Delete(page, keys) => DeleteKeepsIndexed(before, page, keys);
      case ClearFile(file) => ClearFileExactly(before, PageOf(file));
      case ClearAll => ClearLeavesNoIndex(before);
    }
  }

  // ----- Writing an object and reading it by its reference -----

  const AT: CodeUnit := 64

  function CleanKey(ref: Str, page: Str): Str {
    if page + [AT] <= ref then ref[|page| + 1..] else ref
  }

  /** What `page@` is followed by. */
  lemma CleanKeyBehind(page: Str, rest: Str)
    ensures CleanKey(page + [AT] + rest, page) == rest
  {
    assert page + [AT] <= page + [AT] + rest;
    assert (page + [AT] + rest)[|page| + 1..] == rest;
  }

  /** Two references that share a cleaned key: the same, or one is the other behind `page@`. */
  predicate SameRef(ref: Str, ref': Str, page: Str) {
    ref == ref' || LongForm(ref, ref', page) || LongForm(ref', ref, page)
  }

  predicate LongForm(ref: Str, short: Str, page: Str) {
    ref == page + [AT] + short && !(page + [AT] <= short)
  }

  lemma CleanKeyIff(ref: Str, ref': Str, page: Str)
    ensures CleanKey(ref, page) == CleanKey(ref', page) <==> SameRef(ref, ref', page)
  {
    CleanKeyOr(ref, page);
    CleanKeyOr(ref', page);
    CleanKeyBehind(page, CleanKey(ref, page));
    CleanKeyBehind(page, CleanKey(ref', page));
  }

  lemma CleanKeyOr(ref: Str, page: Str)
    ensures if page + [AT] <= ref then ref == page + [AT] + CleanKey(ref, page) else CleanKey(ref, page) == ref
  {
  }

  /** `"link"` and `"relation"`: links are not stored, but read from relations. */
  const LINK: Str := [108, 105, 110, 107]
  const RELATION: Str := [114, 101, 108, 97, 116, 105, 111, 110]

  function StoredTag(tag: Str): Str { if tag == LINK then RELATION else tag }

  /** The row read; making a link of a relation is left to the caller. */
  function GetObjectByRef<V>(rows: map<Key, Entry<V>>, page: Str, tag: Str, ref: Str): Option<Entry<V>> {
    Lookup(rows, Forward([StoredTag(tag), CleanKey(ref, page)], page))
  }

  lemma {:induction false} FirstForward<V>(page: Str, kvs: seq<KV<V>>, j: nat)
    requires j < |kvs| && IsFirst(kvs, j, kvs[j].key)
    ensures Lookup(FirstWins(IndexEntries(page, kvs)), Forward(kvs[j].key, page)) == Some(Object(kvs[j].value))
    decreases |kvs|
  {
    hide Forward, Reverse;
    var n, key := |kvs| - 1, kvs[j].key;
    KeyShapes(key, page);
    KeyShapes(kvs[n].key, page);
    var before := IndexEntries(page, kvs[..n]);
    var two := [KV(Forward(kvs[n].key, page), Object(kvs[n].value)), KV(Reverse(kvs[n].key, page), Mark)];
    FirstWinsConcat(before, two);
    if j < n {
      FirstForward(page, kvs[..n], j);
    } else {
      AddedKeys(page, kvs[..n], Forward(key, page));
      forall i | 0 <= i < n
        ensures Forward(key, page) != Forward(kvs[..n][i].key, page)
        ensures Forward(key, page) != Reverse(kvs[..n][i].key, page)
      {
        KeyShapes(kvs[i].key, page);
        ForwardInjective(key, kvs[i].key, page);
      }
      FirstOfTwo(two);
    }
  }

  lemma ForwardInjective(key: Key, key': Key, page: Str)
    ensures Forward(key, page) == Forward(key', page) ==> key == key'
  {
    var f, f' := Forward(key, page), Forward(key', page);
    assert f[1..|f| - 1] == key && f'[1..|f'| - 1] == key';
  }

  lemma {:induction false} FirstWinsConcat<V>(a: seq<KV<V>>, b: seq<KV<V>>)
    ensures FirstWins(a + b) == FirstWins(b) + FirstWins(a)
    decreases |b|
  {
    if b == [] {
      assert a + b == a;
    } else {
      assert (a + b)[..|a + b| - 1] == a + b[..|b| - 1];
      FirstWinsConcat(a, b[..|b| - 1]);
    }
  }

  lemma FirstOfTwo<V>(two: seq<KV<V>>)
    requires |two| == 2 && two[0].key != two[1].key
    ensures Lookup(FirstWins(two), two[0].key) == Some(two[0].value)
  {
    var one := two[..1];
    assert one[..0] == [] && one[0] == two[0];
    assert FirstWins(one) == map[two[0].key := two[0].value];
  }

  /** An object just written is read back by its tag and reference, if no earlier object of
      the batch has the same tag and the same cleaned reference; a link, from its relation. */
  lemma WrittenObjectIsFound<V>(rows: map<Key, Entry<V>>, page: Str, kvs: seq<KV<V>>, j: nat, tag: Str, ref: Str)
    requires j < |kvs| && IsFirst(kvs, j, [if tag == LINK then RELATION else tag, CleanKey(ref, page)])
    ensures GetObjectByRef(AfterSet(rows, page, kvs), page, tag, ref) == Some(Object(kvs[j].value))
  {
    hide FirstWins, IndexEntries;
    FirstForward(page, kvs, j);
  }

  // ----- The class -----

  class ObjectIndex<V> {
    const ds: DataStore<Entry<V>>
    /** Memoized scans by tag. */
    var scanMemo: map<Str, seq<KV<Entry<V>>>>

    constructor (ds: DataStore<Entry<V>>)
      ensures this.ds == ds && scanMemo == map[]
    {
      this.ds := ds;
      scanMemo := map[];
    }

    method BatchSet(page: Str, kvs: seq<KV<V>>)
      modifies this, ds
      ensures ds.rows == AfterSet(old(ds.rows), page, kvs) && scanMemo == map[]
    {
      scanMemo := map[];
      var finalBatch: seq<KV<Entry<V>>> := [];
      for i := 0 to |kvs|
        invariant finalBatch == IndexEntries(page, kvs[..i])
      {
        assert kvs[..i + 1][..i] == kvs[..i];
        finalBatch := finalBatch
          + [KV([IDX] + kvs[i].key + [page], Object(kvs[i].value)), KV([RIDX, page] + kvs[i].key, Mark)];
      }
      assert kvs[..|kvs|] == kvs;
      ds.BatchSet(finalBatch);
    }

    method BatchDelete(page: Str, keys: seq<Key>)
      modifies this, ds
      ensures ds.rows == AfterDelete(old(ds.rows), page, keys) && scanMemo == map[]
    {
      scanMemo := map[];
      var finalBatch: seq<Key> := [];
      for i := 0 to |keys|
        invariant |finalBatch| == i && forall j :: 0 <= j < i ==> finalBatch[j] == Forward(keys[j], page)
      {
        finalBatch := finalBatch + [[IDX] + keys[i] + [page]];
      }
      forall k
        ensures k in finalBatch <==> exists key :: key in keys && k == Forward(key, page)
      {
        if k in finalBatch {
          var j :| 0 <= j < |finalBatch| && finalBatch[j] == k;
          assert keys[j] in keys;
        }
        if key :| key in keys && k == Forward(key, page) {
          var j :| 0 <= j < |keys| && keys[j] == key;
          assert finalBatch[j] == k;
        }
      }
      assert (set k | k in finalBatch) == set k | k in keys :: Forward(k, page);
      ds.BatchDelete(finalBatch);
    }

    method ClearFileIndex(file: Str)
      modifies this, ds
      ensures ds.rows == AfterClearFile(old(ds.rows), PageOf(file)) && scanMemo == map[]
    {
      var page := PageOf(file);
      var allKeys: seq<Key> := [];
      var found := ds.QueryKeys([RIDX, page]);
      forall j | 0 <= j < |found|
        ensures |found[j]| > 2
      {
        assert found[j] in found;
      }
      for i := 0 to |found|
        invariant forall k :: k in allKeys <==>
          exists j :: 0 <= j < i && (k == found[j] || k == Forward(found[j][2..], page))
      {
        allKeys := allKeys + [found[i], [IDX] + found[i][2..] + [page]];
      }
      scanMemo := map[];
      assert (set k | k in allKeys) == FileKeys(ds.rows, page);
      ds.BatchDelete(allKeys);
    }

    method ClearIndex()
      modifies this, ds
      ensures ds.rows == AfterClear(old(ds.rows)) && scanMemo == map[]
    {
      scanMemo := map[];
      var forwardKeys := ds.QueryKeys([IDX]);
      var reverseKeys := ds.QueryKeys([RIDX]);
      var allKeys := forwardKeys + reverseKeys;
      var deleteChunkSize := 500;
      var i := 0;
      while i < |allKeys|
        invariant 0 <= i
        invariant scanMemo == map[]
        invariant ds.rows == old(ds.rows) - set k | k in Front(allKeys, i)
      {
        var end := if i + deleteChunkSize < |allKeys| then i + deleteChunkSize else |allKeys|;
        ds.BatchDelete(allKeys[i..end]);
        assert Front(allKeys, i + deleteChunkSize) == Front(allKeys, i) + allKeys[i..end];
        i := i + deleteChunkSize;
      }
      assert Front(allKeys, i) == allKeys;
      assert forall k :: k in allKeys <==> k in old(ds.rows) && (Extends(k, [IDX]) || Extends(k, [RIDX]));
    }
  }

  function Front(keys: seq<Key>, n: nat): seq<Key> {
    if n < |keys| then keys[..n] else keys
  }
}
