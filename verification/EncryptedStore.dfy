/** The encrypting wrapper: `client/data/encrypted_kv_primitives.ts`. It answers as a plain
    store would, whatever the ciphers are, as long as they can be undone. */
module EncryptedStore {
  import opened KeyCodec
  import opened KvStores
  import opened Options

  /** Key parts are encrypted deterministically, values with a nonce. */
  datatype Ciphers<!V(!new), !C> = Ciphers(encPart: Str -> Str, decPart: Str -> Str,
                                           encValue: (V, nat) -> C, decValue: C -> V)
  {
    /** What is assumed: decryption undoes encryption, encrypted parts are text without a separator
        that does not begin with U+FFFF, and the empty part stays empty. (Parts are encrypted with
        AES-CTR, which keeps their length, and encoded in Base64.) */
    ghost predicate Lawful() {
      && (forall p :: decPart(encPart(p)) == p && SEP !in encPart(p) && (encPart(p) == [] || encPart(p)[0] != TOP))
      && encPart([]) == []
      && (forall v, n :: decValue(encValue(v, n)) == v)
    }

    function EncKey(key: Key): (r: Key)
      ensures |r| == |key| && forall i :: 0 <= i < |key| ==> r[i] == encPart(key[i])
    {
      seq(|key|, i requires 0 <= i < |key| => encPart(key[i]))
    }

    function DecKey(key: Key): (r: Key)
      ensures |r| == |key| && forall i :: 0 <= i < |key| ==> r[i] == decPart(key[i])
    {
      seq(|key|, i requires 0 <= i < |key| => decPart(key[i]))
    }
  }

  lemma DecOfEnc<V(!new), C>(c: Ciphers<V, C>, key: Key)
    requires c.Lawful()
    ensures c.DecKey(c.EncKey(key)) == key && SepFree(c.EncKey(key)) && (key != [] ==> c.EncKey(key) != [])
  {
  }

  /** The key without parts and the key of one empty part are confused alike with and without
      encryption. */
  lemma StoredOfEnc<V(!new), C>(c: Ciphers<V, C>, key: Key)
    requires c.Lawful()
    ensures Stored(c.EncKey(key)) == c.EncKey(Stored(key)) && Stored(key) != []
  {
    assert c.EncKey([[]]) == [[]];
  }

  lemma EncExtends<V(!new), C>(c: Ciphers<V, C>, key: Key, prefix: Key)
    requires c.Lawful()
    ensures Extends(c.EncKey(key), c.EncKey(prefix)) <==> Extends(key, prefix)
  {
  }

  /** A scan for an encrypted prefix sees exactly the rows whose plain keys extend the prefix. */
  lemma EncInRange<V(!new), C>(c: Ciphers<V, C>, key: Key, prefix: Key)
    requires c.Lawful() && key != []
    ensures InRange(Join(c.EncKey(key)), c.EncKey(prefix)) <==> Extends(key, prefix)
  {
    hide Join, InRange, Extends;
    DecOfEnc(c, key);
    DecOfEnc(c, prefix);
    EncExtends(c, key, prefix);
    RangeSelectsWholeParts(c.EncKey(prefix), c.EncKey(key));
  }

  /** Every stored key is the encryption of one. */
  ghost predicate AllEncrypted<V(!new), C>(c: Ciphers<V, C>, rows: map<Key, C>) {
    forall k :: k in rows ==> k != [] && c.EncKey(c.DecKey(k)) == k
  }

  ghost function PlainKeys<V(!new), C>(c: Ciphers<V, C>, rows: map<Key, C>): set<Key> {
    set k | k in rows :: c.DecKey(k)
  }

  /** The rows as a user of the wrapper sees them. */
  ghost function PlainRows<V(!new), C>(c: Ciphers<V, C>, rows: map<Key, C>): (plain: map<Key, V>)
    requires c.Lawful() && AllEncrypted(c, rows)
    ensures forall k :: k in plain <==> c.EncKey(k) in rows
    ensures forall k :: k in plain ==> k != [] && plain[k] == c.decValue(rows[c.EncKey(k)])
  {
    forall k: Key
      ensures k in PlainKeys(c, rows) <==> c.EncKey(k) in rows
    {
      DecOfEnc(c, k);
    }
    map k | k in PlainKeys(c, rows) :: c.decValue(rows[c.EncKey(k)])
  }

  lemma PlainPut<V(!new), C>(c: Ciphers<V, C>, rows: map<Key, C>, key: Key, v: V, n: nat)
    requires c.Lawful() && AllEncrypted(c, rows) && key != []
    ensures AllEncrypted(c, rows[c.EncKey(key) := c.encValue(v, n)])
    ensures PlainRows(c, rows[c.EncKey(key) := c.encValue(v, n)]) == PlainRows(c, rows)[key := v]
  {
  }

  lemma EncInjective<V(!new), C>(c: Ciphers<V, C>, k: Key, k': Key)
    requires c.Lawful() && c.EncKey(k) == c.EncKey(k')
    ensures k == k'
  {
  }

  lemma PlainRemovedAt<V(!new), C>(c: Ciphers<V, C>, rows: map<Key, C>, key: Key, k: Key)
    requires c.Lawful() && AllEncrypted(c, rows) && AllEncrypted(c, rows - {c.EncKey(key)})
    ensures Lookup(PlainRows(c, rows - {c.EncKey(key)}), k) == if k == key then None else Lookup(PlainRows(c, rows), k)
  {
    hide AllEncrypted, PlainRows, Ciphers.EncKey, Ciphers.DecKey, Ciphers.Lawful;
    PlainLookup(c, rows, k);
    PlainLookup(c, rows - {c.EncKey(key)}, k);
    if c.EncKey(k) == c.EncKey(key) {
      EncInjective(c, k, key);
    }
  }

  lemma PlainLookup<V(!new), C>(c: Ciphers<V, C>, rows: map<Key, C>, k: Key)
    requires c.Lawful() && AllEncrypted(c, rows)
    ensures k in PlainRows(c, rows) <==> c.EncKey(k) in rows
    ensures k in PlainRows(c, rows) ==> PlainRows(c, rows)[k] == c.decValue(rows[c.EncKey(k)])
  {
  }

  lemma StillEncrypted<V(!new), C>(c: Ciphers<V, C>, rows: map<Key, C>, gone: set<Key>)
    requires AllEncrypted(c, rows)
    ensures AllEncrypted(c, rows - gone)
  {
  }

  lemma PlainRemoved<V(!new), C>(c: Ciphers<V, C>, rows: map<Key, C>, key: Key)
    requires c.Lawful() && AllEncrypted(c, rows)
    ensures AllEncrypted(c, rows - {c.EncKey(key)})
    ensures PlainRows(c, rows - {c.EncKey(key)}) == PlainRows(c, rows) - {key}
  {
    hide PlainRows, AllEncrypted, Ciphers.EncKey, Ciphers.DecKey, Lookup, Ciphers.Lawful;
    StillEncrypted(c, rows, {c.EncKey(key)});
    var before, after := PlainRows(c, rows), PlainRows(c, rows - {c.EncKey(key)});
    forall k: Key
      ensures Lookup(after, k) == Lookup(before - {key}, k)
    {
      PlainRemovedAt(c, rows, key, k);
      LookupRemoved(before, key, k);
    }
    SameLookups(after, before - {key});
  }

  lemma LookupRemoved<V(!new)>(rows: map<Key, V>, key: Key, k: Key)
    ensures Lookup(rows - {key}, k) == if k == key then None else Lookup(rows, k)
  {
  }

  lemma SameLookups<V(!new)>(rows: map<Key, V>, rows': map<Key, V>)
    requires forall k :: Lookup(rows, k) == Lookup(rows', k)
    ensures rows == rows'
  {
    forall k
      ensures k in rows <==> k in rows'
      ensures k in rows ==> rows[k] == rows'[k]
    {
      assert Lookup(rows, k) == Lookup(rows', k);
    }
  }

  function EncEntries<V(!new), C>(c: Ciphers<V, C>, entries: seq<KV<V>>, nonces: seq<nat>): (r: seq<KV<C>>)
    requires |nonces| == |entries|
    ensures |r| == |entries|
    ensures forall i :: 0 <= i < |r| ==> r[i] == KV(c.EncKey(entries[i].key), c.encValue(entries[i].value, nonces[i]))
  {
    seq(|entries|, i requires 0 <= i < |entries| =>
      KV(c.EncKey(entries[i].key), c.encValue(entries[i].value, nonces[i])))
  }

  lemma EncEntriesFront<V(!new), C>(c: Ciphers<V, C>, entries: seq<KV<V>>, nonces: seq<nat>, n: nat)
    requires |nonces| == |entries| && n <= |entries|
    ensures EncEntries(c, entries, nonces)[..n] == EncEntries(c, entries[..n], nonces[..n])
  {
  }

  function EncKeys<V(!new), C>(c: Ciphers<V, C>, keys: seq<Key>): (r: seq<Key>)
    ensures |r| == |keys| && forall i :: 0 <= i < |r| ==> r[i] == c.EncKey(keys[i])
  {
    seq(|keys|, i requires 0 <= i < |keys| => c.EncKey(keys[i]))
  }

  /** Encrypting one entry and putting it is putting it. */
  lemma PutOne<V(!new), C>(c: Ciphers<V, C>, rows: map<Key, C>, entry: KV<V>, nonce: nat)
    requires c.Lawful() && AllEncrypted(c, rows)
    ensures var after := rows[Stored(c.EncKey(entry.key)) := c.encValue(entry.value, nonce)];
      AllEncrypted(c, after) && PlainRows(c, after) == PlainRows(c, rows)[Stored(entry.key) := entry.value]
  {
    hide PlainRows, AllEncrypted, Ciphers.EncKey, Ciphers.DecKey, Ciphers.Lawful, Stored;
    StoredOfEnc(c, entry.key);
    PlainPut(c, rows, Stored(entry.key), entry.value, nonce);
  }

  lemma RemoveOne<V(!new), C>(c: Ciphers<V, C>, rows: map<Key, C>, key: Key)
    requires c.Lawful() && AllEncrypted(c, rows)
    ensures var after := rows - {Stored(c.EncKey(key))};
      AllEncrypted(c, after) && PlainRows(c, after) == PlainRows(c, rows) - {Stored(key)}
  {
    hide PlainRows, AllEncrypted, Ciphers.EncKey, Ciphers.DecKey, Ciphers.Lawful, Stored;
    StoredOfEnc(c, key);
    PlainRemoved(c, rows, Stored(key));
  }

  lemma {:induction false} PlainPutAll<V(!new), C>(c: Ciphers<V, C>, rows: map<Key, C>, entries: seq<KV<V>>,
                                                   nonces: seq<nat>)
    requires c.Lawful() && AllEncrypted(c, rows) && |nonces| == |entries|
    ensures AllEncrypted(c, PutAll(rows, EncEntries(c, entries, nonces)))
    ensures PlainRows(c, PutAll(rows, EncEntries(c, entries, nonces))) == PutAll(PlainRows(c, rows), entries)
    decreases |entries|
  {
    hide PlainRows, AllEncrypted, Ciphers.EncKey, Ciphers.Lawful, Stored, EncEntries;
    var es := EncEntries(c, entries, nonces);
    if entries != [] {
      var n := |entries| - 1;
      PlainPutAll(c, rows, entries[..n], nonces[..n]);
      EncEntriesFront(c, entries, nonces, n);
      PutOne(c, PutAll(rows, es[..n]), entries[n], nonces[n]);
    }
  }

  lemma {:induction false} PlainRemoveAll<V(!new), C>(c: Ciphers<V, C>, rows: map<Key, C>, keys: seq<Key>)
    requires c.Lawful() && AllEncrypted(c, rows)
    ensures AllEncrypted(c, RemoveAll(rows, EncKeys(c, keys)))
    ensures PlainRows(c, RemoveAll(rows, EncKeys(c, keys))) == RemoveAll(PlainRows(c, rows), keys)
    decreases |keys|
  {
    hide PlainRows, AllEncrypted, Ciphers.EncKey, Ciphers.Lawful, Stored, EncKeys;
    var es := EncKeys(c, keys);
    if keys != [] {
      var n := |keys| - 1;
      PlainRemoveAll(c, rows, keys[..n]);
      assert es[..n] == EncKeys(c, keys[..n]);
      RemoveOne(c, RemoveAll(rows, es[..n]), keys[n]);
    }
  }

  lemma EncryptedBuildable<V(!new), C>(c: Ciphers<V, C>, keys: seq<Key>, enc: seq<Key>)
    requires c.Lawful() && |enc| == |keys| && forall i :: 0 <= i < |keys| ==> enc[i] == c.EncKey(keys[i])
    ensures Buildable(enc) == |enc|
  {
  }

  /** Over all these operations, no part of a stored key is plain text: each is what the cipher makes
      of a plain part. */
  lemma StoredPartsAreEncrypted<V(!new), C>(c: Ciphers<V, C>, rows: map<Key, C>, k: Key, i: nat)
    requires AllEncrypted(c, rows) && k in rows && i < |k|
    ensures k[i] == c.encPart(c.decPart(k[i]))
  {
    assert c.EncKey(c.DecKey(k)) == k;
  }

  class EncryptedKv<V(!new), C> {
    const wrapped: IndexedDbKv<C>
    const ciphers: Ciphers<V, C>

    constructor (wrapped: IndexedDbKv<C>, ciphers: Ciphers<V, C>)
      requires ciphers.Lawful() && AllEncrypted(ciphers, Rows(wrapped.data))
      ensures this.wrapped == wrapped && this.ciphers == ciphers && Valid()
    {
      this.wrapped := wrapped;
      this.ciphers := ciphers;
    }

    ghost predicate Valid()
      reads wrapped
    {
      ciphers.Lawful() && AllEncrypted(ciphers, Rows(wrapped.data))
    }

    ghost function Plain(): map<Key, V>
      reads wrapped
      requires Valid()
    {
      PlainRows(ciphers, Rows(wrapped.data))
    }

    method Clear()
      requires Valid()
      modifies wrapped
      ensures Valid() && Plain() == map[]
    {
      wrapped.Clear();
      assert forall k :: k !in Plain();
    }

    method BatchGet(keys: seq<Key>) returns (values: seq<Option<V>>)
      requires Valid()
      ensures |values| == |keys| && forall i :: 0 <= i < |keys| ==> values[i] == Lookup(Plain(), Stored(keys[i]))
    {
      hide AllEncrypted, Rows, Stored, Ciphers.EncKey, Ciphers.Lawful;
      forall i | 0 <= i < |keys|
        ensures Stored(ciphers.EncKey(keys[i])) == ciphers.EncKey(Stored(keys[i]))
      {
        StoredOfEnc(ciphers, keys[i]);
      }
      EncryptedBuildable(ciphers, keys, EncKeys(ciphers, keys));
      var encrypted := wrapped.BatchGet(EncKeys(ciphers, keys));
      var found := encrypted.value;
      values := seq(|keys|, i requires 0 <= i < |keys| && |found| == |keys| =>
        if found[i].Some? then Some(ciphers.decValue(found[i].value)) else None);
    }

    method BatchSet(entries: seq<KV<V>>, nonces: seq<nat>)
      requires Valid() && |nonces| == |entries|
      modifies wrapped
      ensures Valid() && Plain() == PutAll(old(Plain()), entries)
    {
      hide AllEncrypted, Rows, PlainRows, Buildable, PutAll, SepFree;
      var encrypted := EncEntries(ciphers, entries, nonces);
      EncryptedBuildable(ciphers, KeysIn(entries), KeysIn(encrypted));
      PlainPutAll(ciphers, Rows(wrapped.data), entries, nonces);
      var _ := wrapped.BatchSet(encrypted);
      assert encrypted[..|encrypted|] == encrypted;
    }

    method BatchDelete(keys: seq<Key>)
      requires Valid()
      modifies wrapped
      ensures Valid() && Plain() == RemoveAll(old(Plain()), keys)
    {
      hide AllEncrypted, Rows, PlainRows, Buildable, RemoveAll, SepFree;
      var encrypted := EncKeys(ciphers, keys);
      EncryptedBuildable(ciphers, keys, encrypted);
      PlainRemoveAll(ciphers, Rows(wrapped.data), keys);
      var _ := wrapped.BatchDelete(encrypted);
      assert encrypted[..|encrypted|] == encrypted;
    }

    /** The rows whose keys extend the prefix, each once, in the order of the encrypted keys. */
    method Query(prefix: Key) returns (out: seq<KV<V>>)
      requires Valid()
      ensures forall i :: 0 <= i < |out| ==>
        Extends(out[i].key, prefix) && Lookup(Plain(), out[i].key) == Some(out[i].value)
      ensures forall k :: k in Plain() && Extends(k, prefix) ==> exists i :: 0 <= i < |out| && out[i].key == k
      ensures forall i, j :: 0 <= i < j < |out| ==> out[i].key != out[j].key
    {
      hide AllEncrypted, Rows, Extends, InRange, Join;
      DecOfEnc(ciphers, prefix);
      var rows := wrapped.Query(ciphers.EncKey(prefix));
      out := [];
      for i := 0 to |rows.value|
        invariant |out| == i
        invariant forall j :: 0 <= j < i ==>
          out[j] == KV(ciphers.DecKey(rows.value[j].key), ciphers.decValue(rows.value[j].value))
      {
        var entry := rows.value[i];
        out := out + [KV(ciphers.DecKey(entry.key), ciphers.decValue(entry.value))];
      }
      DecryptedScan(ciphers, Rows(wrapped.data), prefix, rows.value, out);
    }

    method CountQuery(prefix: Key) returns (n: nat)
      requires Valid()
      ensures n == |ExtendingKeys(Plain(), prefix)|
    {
      DecOfEnc(ciphers, prefix);
      var count := wrapped.CountQuery(ciphers.EncKey(prefix));
      DecryptedCount(ciphers, Rows(wrapped.data), prefix);
      n := count.value;
    }
  }

  ghost function ExtendingKeys<V>(rows: map<Key, V>, prefix: Key): set<Key> {
    set k | k in rows && Extends(k, prefix)
  }

  lemma DecryptedScan<V(!new), C>(c: Ciphers<V, C>, rows: map<Key, C>, prefix: Key, scan: seq<KV<C>>, out: seq<KV<V>>)
    requires c.Lawful() && AllEncrypted(c, rows) && IsScan(scan, rows, c.EncKey(prefix))
    requires |out| == |scan|
    requires forall i :: 0 <= i < |scan| ==> out[i] == KV(c.DecKey(scan[i].key), c.decValue(scan[i].value))
    ensures forall i :: 0 <= i < |out| ==>
      Extends(out[i].key, prefix) && Lookup(PlainRows(c, rows), out[i].key) == Some(out[i].value)
    ensures forall k :: k in PlainRows(c, rows) && Extends(k, prefix) ==> exists i :: 0 <= i < |out| && out[i].key == k
    ensures forall i, j :: 0 <= i < j < |out| ==> out[i].key != out[j].key
  {
    hide Extends, InRange, Join, LexLe;
    forall i | 0 <= i < |out|
      ensures Extends(out[i].key, prefix) && Lookup(PlainRows(c, rows), out[i].key) == Some(out[i].value)
      ensures c.EncKey(out[i].key) == scan[i].key
    {
      assert scan[i].key in rows;
      EncInRange(c, out[i].key, prefix);
    }
    forall k | k in PlainRows(c, rows) && Extends(k, prefix)
      ensures exists i :: 0 <= i < |out| && out[i].key == k
    {
      EncInRange(c, k, prefix);
      var i :| 0 <= i < |scan| && scan[i].key == c.EncKey(k);
      DecOfEnc(c, k);
    }
  }

  lemma DecryptedCount<V(!new), C>(c: Ciphers<V, C>, rows: map<Key, C>, prefix: Key)
    requires c.Lawful() && AllEncrypted(c, rows)
    ensures |KeysInRange(rows, c.EncKey(prefix))| == |ExtendingKeys(PlainRows(c, rows), prefix)|
  {
    hide Extends, InRange, Join;
    var es, ks := KeysInRange(rows, c.EncKey(prefix)), ExtendingKeys(PlainRows(c, rows), prefix);
    forall e | e in es
      ensures c.DecKey(e) in ks && c.EncKey(c.DecKey(e)) == e
    {
      EncInRange(c, c.DecKey(e), prefix);
    }
    forall k | k in ks
      ensures c.EncKey(k) in es && c.DecKey(c.EncKey(k)) == k
    {
      EncInRange(c, k, prefix);
      DecOfEnc(c, k);
    }
    SameNumber(c, es, ks);
  }

  lemma {:induction false} SameNumber<V(!new), C>(c: Ciphers<V, C>, es: set<Key>, ks: set<Key>)
    requires forall e :: e in es ==> c.DecKey(e) in ks && c.EncKey(c.DecKey(e)) == e
    requires forall k :: k in ks ==> c.EncKey(k) in es && c.DecKey(c.EncKey(k)) == k
    ensures |es| == |ks|
    decreases |es|
  {
    if es == {} {
      assert ks == {};
    } else {
      var e :| e in es;
      SameNumber(c, es - {e}, ks - {c.DecKey(e)});
    }
  }
}
