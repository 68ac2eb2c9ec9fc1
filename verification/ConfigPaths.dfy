/** Configuration values by path, and defaults taken from schemas: `client/config.ts`. */
module ConfigPaths {
  import opened Options

  /** Atoms are numbers, strings and the like; a field can be present and hold `Undefined`. */
  datatype Value = Undefined | Null | Atom(id: int) | Obj(fields: map<string, Value>)

  type Path = seq<string>

  predicate Has(v: Value, path: Path)
    decreases path
  {
    path == [] || (v.Obj? && path[0] in v.fields && Has(v.fields[path[0]], path[1..]))
  }

  function Lookup(v: Value, path: Path): Value
    decreases path
  {
    if path == [] then v
    else if v.Obj? && path[0] in v.fields then Lookup(v.fields[path[0]], path[1..])
    else Undefined
  }

  function Fields(v: Value): map<string, Value> {
    if v.Obj? then v.fields else map[]
  }

  function Field(v: Value, key: string): Value {
    if v.Obj? && key in v.fields then v.fields[key] else Undefined
  }

  /** Objects are made along the way, also in place of values that are not objects. */
  function Put(v: Value, path: Path, x: Value): Value
    decreases path
  {
    if path == [] then x else Obj(Fields(v)[path[0] := Put(Field(v, path[0]), path[1..], x)])
  }

  // ----- Put and look up -----

  /** What any path holds after a write to `p`: below `p` the new value, above it an object grown
      by the write, and elsewhere what it held. */
  lemma {:induction false} LookupAfterPut(v: Value, p: Path, x: Value, q: Path)
    ensures Lookup(Put(v, p, x), q) ==
            if p <= q then Lookup(x, q[|p|..]) else if q <= p then Put(Lookup(v, q), p[|q|..], x) else Lookup(v, q)
    ensures Has(Put(v, p, x), q) <==> if p <= q then Has(x, q[|p|..]) else q <= p || Has(v, q)
    decreases p
  {
    hide Put;
    PutStep(v, p, x);
    if p != [] && q != [] && p[0] == q[0] {
      LookupAfterPut(Field(v, p[0]), p[1..], x, q[1..]);
      PrefixStep(p, q);
      PrefixStep(q, p);
      if q <= p {
        PutStep(Lookup(v, q), p[|q|..], x);
      }
    }
  }

  lemma PutStep(v: Value, p: Path, x: Value)
    ensures Put(v, p, x) == if p == [] then x else Obj(Fields(v)[p[0] := Put(Field(v, p[0]), p[1..], x)])
  {
  }

  lemma PrefixStep(p: Path, q: Path)
    requires p != [] && q != [] && p[0] == q[0]
    ensures p[1..] <= q[1..] <==> p <= q
    ensures p <= q ==> q[1..][|p| - 1..] == q[|p|..]
  {
  }

  lemma {:induction false} PutTwice(v: Value, p: Path, x: Value, y: Value)
    ensures Put(Put(v, p, x), p, y) == Put(v, p, y)
    decreases p
  {
    if p != [] {
      PutTwice(Field(v, p[0]), p[1..], x, y);
      assert Put(Put(v, p, x), p, y).fields == Put(v, p, y).fields;
    }
  }

  lemma {:induction false} PutBack(v: Value, p: Path)
    ensures Put(v, p, Lookup(v, p)) == v <==> Has(v, p)
    decreases p
  {
    if p != [] {
      PutBack(Field(v, p[0]), p[1..]);
      if v.Obj? && p[0] in v.fields {
        assert Put(v, p, Lookup(v, p)).fields[p[0]] == Put(v.fields[p[0]], p[1..], Lookup(v, p));
        if Has(v, p) {
          assert Put(v, p, Lookup(v, p)).fields == v.fields;
        }
      }
    }
  }

  lemma {:induction false} HasBelow(v: Value, p: Path, q: Path)
    requires p <= q && Has(v, q)
    ensures Has(v, p) && (p < q ==> Lookup(v, p).Obj?)
    decreases p
  {
    if p != [] {
      HasBelow(v.fields[p[0]], p[1..], q[1..]);
    }
  }

  // ----- Defaults -----

  /** `typed`: whether the schema names a type; without one it is not found by path. */
  datatype Schema = Schema(typed: bool, default: Option<Value>, properties: seq<Property>)

  datatype Property = Property(name: string, schema: Schema)

  function Find(props: seq<Property>, name: string): Option<Schema>
    ensures Find(props, name).Some? ==>
      exists i :: 0 <= i < |props| && props[i] == Property(name, Find(props, name).value)
  {
    if props == [] then None
    else if props[0].name == name then Some(props[0].schema)
    else Find(props[1..], name)
  }

  /** Property names are keys of an object. */
  ghost predicate Keyed(schema: Schema) {
    (forall i, j :: 0 <= i < j < |schema.properties| ==> schema.properties[i].name != schema.properties[j].name) &&
    forall i :: 0 <= i < |schema.properties| ==> Keyed(schema.properties[i].schema)
  }

  function SchemaAt(root: Schema, path: Path): Option<Schema>
    decreases |path|
  {
    if path == [] then Some(root)
    else
      var above := SchemaAt(root, path[..|path| - 1]);
      if above.None? then None else Find(above.value.properties, path[|path| - 1])
  }

  /** Writes the default of a path that does not exist yet. */
  function SetDefault(v: Value, path: Path, schema: Schema): Value {
    if schema.default.Some? && !Has(v, path) then Put(v, path, schema.default.value) else v
  }

  /** The defaults of a schema and its properties, each path once. */
  function Fill(v: Value, path: Path, schema: Schema): Value
    decreases schema, 1
  {
    FillAll(SetDefault(v, path, schema), path, schema.properties)
  }

  function FillAll(v: Value, path: Path, props: seq<Property>): Value
    decreases props, 0
  {
    if props == [] then v
    else FillAll(Fill(v, path + [props[0].name], props[0].schema), path, props[1..])
  }

  /** The path of a default: the schema's own, or a property's. */
  ghost predicate IsDefault(path: Path, schema: Schema, q: Path)
    decreases schema, 1
  {
    (schema.default.Some? && q == path) || IsDefaultIn(path, schema.properties, q)
  }

  ghost predicate IsDefaultIn(path: Path, props: seq<Property>, q: Path)
    decreases props, 0
  {
    props != [] && (IsDefault(path + [props[0].name], props[0].schema, q) || IsDefaultIn(path, props[1..], q))
  }

  ghost predicate Grows(v: Value, v': Value) {
    forall p :: Has(v, p) ==> Has(v', p)
  }

  lemma SetDefaultGrows(v: Value, path: Path, schema: Schema)
    ensures Grows(v, SetDefault(v, path, schema))
    ensures schema.default.Some? ==> Has(SetDefault(v, path, schema), path)
  {
    hide Put;
    if schema.default.Some? && !Has(v, path) {
      var x := schema.default.value;
      LookupAfterPut(v, path, x, path);
      forall p | Has(v, p)
        ensures Has(Put(v, path, x), p)
      {
        LookupAfterPut(v, path, x, p);
        if path <= p {
          HasBelow(v, path, p);
        }
      }
    }
  }

  /** Filling forgets no path, and afterwards every default's path exists. */
  lemma {:induction false} FillHasDefaults(v: Value, path: Path, schema: Schema)
    ensures Grows(v, Fill(v, path, schema))
    ensures forall q :: IsDefault(path, schema, q) ==> Has(Fill(v, path, schema), q)
    decreases schema, 1
  {
    hide Has, SetDefault;
    SetDefaultGrows(v, path, schema);
    FillAllHasDefaults(SetDefault(v, path, schema), path, schema.properties);
  }

  lemma {:induction false} FillAllHasDefaults(v: Value, path: Path, props: seq<Property>)
    ensures Grows(v, FillAll(v, path, props))
    ensures forall q :: IsDefaultIn(path, props, q) ==> Has(FillAll(v, path, props), q)
    decreases props, 0
  {
    hide Has, SetDefault;
    if props != [] {
      FillHasDefaults(v, path + [props[0].name], props[0].schema);
      FillAllHasDefaults(Fill(v, path + [props[0].name], props[0].schema), path, props[1..]);
    }
  }

  lemma {:induction false} NothingMissing(v: Value, path: Path, schema: Schema)
    requires forall q :: IsDefault(path, schema, q) ==> Has(v, q)
    ensures Fill(v, path, schema) == v
    decreases schema, 1
  {
    hide Has;
    assert schema.default.Some? ==> IsDefault(path, schema, path);
    NothingMissingIn(v, path, schema.properties);
  }

  lemma {:induction false} NothingMissingIn(v: Value, path: Path, props: seq<Property>)
    requires forall q :: IsDefaultIn(path, props, q) ==> Has(v, q)
    ensures FillAll(v, path, props) == v
    decreases props, 0
  {
    hide Has;
    if props != [] {
      NothingMissing(v, path + [props[0].name], props[0].schema);
      NothingMissingIn(v, path, props[1..]);
    }
  }

  lemma FillTwice(v: Value, path: Path, schema: Schema)
    ensures Fill(Fill(v, path, schema), path, schema) == Fill(v, path, schema)
  {
    FillHasDefaults(v, path, schema);
    NothingMissing(Fill(v, path, schema), path, schema);
  }

  ghost predicate DefaultBelow(path: Path, schema: Schema, p: Path) {
    exists q :: IsDefault(path, schema, q) && p < q
  }

  lemma {:induction false} FillKeeps(v: Value, path: Path, schema: Schema, p: Path)
    requires Has(v, p) && forall q :: IsDefault(path, schema, q) ==> !(p < q)
    ensures Has(Fill(v, path, schema), p) && Lookup(Fill(v, path, schema), p) == Lookup(v, p)
    decreases schema, 1
  {
    hide Has, Lookup, Put;
    if schema.default.Some? && !Has(v, path) {
      assert IsDefault(path, schema, path);
      LookupAfterPut(v, path, schema.default.value, p);
      if path <= p {
        HasBelow(v, path, p);
      }
    }
    assert forall q :: IsDefaultIn(path, schema.properties, q) ==> IsDefault(path, schema, q);
    FillAllKeeps(SetDefault(v, path, schema), path, schema.properties, p);
  }

  lemma {:induction false} FillAllKeeps(v: Value, path: Path, props: seq<Property>, p: Path)
    requires Has(v, p) && forall q :: IsDefaultIn(path, props, q) ==> !(p < q)
    ensures Has(FillAll(v, path, props), p) && Lookup(FillAll(v, path, props), p) == Lookup(v, p)
    decreases props, 0
  {
    hide Has, Lookup;
    if props != [] {
      assert forall q :: IsDefault(path + [props[0].name], props[0].schema, q) ==> IsDefaultIn(path, props, q);
      assert forall q :: IsDefaultIn(path, props[1..], q) ==> IsDefaultIn(path, props, q);
      FillKeeps(v, path + [props[0].name], props[0].schema, p);
      FillAllKeeps(Fill(v, path + [props[0].name], props[0].schema), path, props[1..], p);
    }
  }

  /** Filling in defaults at `path` leaves alone what lies elsewhere. */
  lemma {:induction false} FillElsewhere(v: Value, path: Path, schema: Schema, p: Path)
    requires !(path <= p) && !(p <= path)
    ensures Has(Fill(v, path, schema), p) == Has(v, p) && Lookup(Fill(v, path, schema), p) == Lookup(v, p)
    decreases schema, 1
  {
    hide Has, Lookup, Put;
    if schema.default.Some? {
      LookupAfterPut(v, path, schema.default.value, p);
    }
    FillAllElsewhere(SetDefault(v, path, schema), path, schema.properties, p);
  }

  lemma {:induction false} FillAllElsewhere(v: Value, path: Path, props: seq<Property>, p: Path)
    requires forall i :: 0 <= i < |props| ==> !(path + [props[i].name] <= p) && !(p <= path + [props[i].name])
    ensures Has(FillAll(v, path, props), p) == Has(v, p) && Lookup(FillAll(v, path, props), p) == Lookup(v, p)
    decreases props, 0
  {
    hide Has, Lookup;
    if props != [] {
      FillElsewhere(v, path + [props[0].name], props[0].schema, p);
      FillAllElsewhere(Fill(v, path + [props[0].name], props[0].schema), path, props[1..], p);
    }
  }

  /** The path of a default, and its value. */
  ghost predicate DefaultAt(path: Path, schema: Schema, q: Path, d: Value)
    decreases schema, 1
  {
    (schema.default == Some(d) && q == path) || DefaultAtIn(path, schema.properties, q, d)
  }

  ghost predicate DefaultAtIn(path: Path, props: seq<Property>, q: Path, d: Value)
    decreases props, 0
  {
    props != [] &&
    (DefaultAt(path + [props[0].name], props[0].schema, q, d) || DefaultAtIn(path, props[1..], q, d))
  }

  /** Property names are keys of an object, here and below. */
  ghost predicate KeyedAll(props: seq<Property>) {
    (forall i, j :: 0 <= i < j < |props| ==> props[i].name != props[j].name) &&
    forall i :: 0 <= i < |props| ==> Keyed(props[i].schema)
  }

  lemma {:induction false} DefaultBelongs(path: Path, schema: Schema, q: Path, d: Value)
    requires DefaultAt(path, schema, q, d)
    ensures path <= q && IsDefault(path, schema, q)
    decreases schema, 1
  {
    if DefaultAtIn(path, schema.properties, q, d) {
      var _ := DefaultOfProperty(path, schema.properties, q, d);
    }
  }

  lemma {:induction false} DefaultOfProperty(path: Path, props: seq<Property>, q: Path, d: Value) returns (i: nat)
    requires DefaultAtIn(path, props, q, d)
    ensures i < |props| && path + [props[i].name] <= q && IsDefaultIn(path, props, q)
    decreases props, 0
  {
    if DefaultAt(path + [props[0].name], props[0].schema, q, d) {
      DefaultBelongs(path + [props[0].name], props[0].schema, q, d);
      i := 0;
    } else {
      var j := DefaultOfProperty(path, props[1..], q, d);
      i := j + 1;
    }
  }

  /** No default above `q` brings a value for `q` along, and none lies below it. */
  ghost predicate OwnDefault(path: Path, schema: Schema, q: Path) {
    && (forall a, x :: DefaultAt(path, schema, a, x) && a < q ==> !Has(x, q[|a|..]))
    && forall b :: IsDefault(path, schema, b) ==> !(q < b)
  }

  ghost predicate OwnDefaultIn(path: Path, props: seq<Property>, q: Path) {
    && (forall a, x :: DefaultAtIn(path, props, a, x) && a < q ==> !Has(x, q[|a|..]))
    && forall b :: IsDefaultIn(path, props, b) ==> !(q < b)
  }

  lemma OwnInProperties(path: Path, schema: Schema, q: Path)
    requires OwnDefault(path, schema, q)
    ensures OwnDefaultIn(path, schema.properties, q)
  {
    hide Has;
    assert forall a, x :: DefaultAtIn(path, schema.properties, a, x) ==> DefaultAt(path, schema, a, x);
    assert forall b :: IsDefaultIn(path, schema.properties, b) ==> IsDefault(path, schema, b);
  }

  lemma OwnInFirst(path: Path, props: seq<Property>, q: Path)
    requires OwnDefaultIn(path, props, q) && props != []
    ensures OwnDefault(path + [props[0].name], props[0].schema, q) && OwnDefaultIn(path, props[1..], q)
  {
    hide Has;
    var first := path + [props[0].name];
    assert forall a, x :: DefaultAt(first, props[0].schema, a, x) ==> DefaultAtIn(path, props, a, x);
    assert forall a, x :: DefaultAtIn(path, props[1..], a, x) ==> DefaultAtIn(path, props, a, x);
    assert forall b :: IsDefault(first, props[0].schema, b) ==> IsDefaultIn(path, props, b);
    assert forall b :: IsDefaultIn(path, props[1..], b) ==> IsDefaultIn(path, props, b);
  }

  /** A path that was missing gets the value of its default. */
  lemma {:induction false} FillWritesDefault(v: Value, path: Path, schema: Schema, q: Path, d: Value)
    requires Keyed(schema) && DefaultAt(path, schema, q, d) && OwnDefault(path, schema, q) && !Has(v, q)
    ensures Has(Fill(v, path, schema), q) && Lookup(Fill(v, path, schema), q) == d
    decreases schema, 1
  {
    hide Put, Has, Lookup;
    var v', props := SetDefault(v, path, schema), schema.properties;
    if schema.default.Some? {
      assert DefaultAt(path, schema, path, schema.default.value);
      LookupAfterPut(v, path, schema.default.value, q);
    }
    DefaultBelongs(path, schema, q, d);
    OwnInProperties(path, schema, q);
    if q == path {
      PathMissing(v, path, schema, d);
      FillAllKeeps(v', path, props, q);
    } else {
      FillAllWritesDefault(v', path, props, q, d);
    }
  }

  lemma PathMissing(v: Value, path: Path, schema: Schema, d: Value)
    requires DefaultAt(path, schema, path, d) && !Has(v, path)
    ensures Has(SetDefault(v, path, schema), path) && Lookup(SetDefault(v, path, schema), path) == d
  {
    hide Put, Has, Lookup;
    if DefaultAtIn(path, schema.properties, path, d) {
      var i := DefaultOfProperty(path, schema.properties, path, d);
      assert false;
    }
    LookupAfterPut(v, path, d, path);
    EndOfPath(d);
    assert path[|path|..] == [];
  }

  lemma EndOfPath(d: Value)
    ensures Has(d, []) && Lookup(d, []) == d
  {
  }

  lemma {:induction false} FillAllWritesDefault(v: Value, path: Path, props: seq<Property>, q: Path, d: Value)
    requires KeyedAll(props) && DefaultAtIn(path, props, q, d) && OwnDefaultIn(path, props, q) && !Has(v, q)
    ensures Has(FillAll(v, path, props), q) && Lookup(FillAll(v, path, props), q) == d
    decreases props, 0
  {
    hide Put, Has, Lookup;
    var first, rest := props[0], props[1..];
    OwnInFirst(path, props, q);
    if DefaultAt(path + [first.name], first.schema, q, d) {
      FillWritesDefault(v, path + [first.name], first.schema, q, d);
      FillAllKeeps(Fill(v, path + [first.name], first.schema), path, rest, q);
    } else {
      var i := DefaultOfProperty(path, rest, q, d);
      assert rest[i].name != first.name && q[|path|] == rest[i].name;
      FillElsewhere(v, path + [first.name], first.schema, q);
      FillAllWritesDefault(Fill(v, path + [first.name], first.schema), path, rest, q, d);
    }
  }

  /** A value that is set and is not an object stays, exactly unless a default lies below it: that
      default's path is missing, and making it turns the value into an object. */
  lemma LeafStaysIff(v: Value, path: Path, schema: Schema, p: Path)
    requires Has(v, p) && !Lookup(v, p).Obj?
    ensures Lookup(Fill(v, path, schema), p) == Lookup(v, p) <==> !DefaultBelow(path, schema, p)
  {
    hide Has, Lookup, Fill;
    if DefaultBelow(path, schema, p) {
      var q :| IsDefault(path, schema, q) && p < q;
      FillHasDefaults(v, path, schema);
      HasBelow(Fill(v, path, schema), p, q);
    } else {
      FillKeeps(v, path, schema, p);
    }
  }

  /** The value 1 at `a`, where the schema has a default 2 for `a.b`, is gone: it becomes an
      object that holds the default. */
  lemma LeafIsReplaced()
    ensures var v, schema := Obj(map["a" := Atom(1)]),
        Schema(true, None, [Property("b", Schema(true, Some(Atom(2)), []))]);
      && Lookup(v, ["a"]) == Atom(1) && DefaultBelow(["a"], schema, ["a"])
      && Fill(v, ["a"], schema) == Obj(map["a" := Obj(map["b" := Atom(2)])])
  {
    var leaf := Schema(true, Some(Atom(2)), []);
    var v, props := Obj(map["a" := Atom(1)]), [Property("b", leaf)];
    var schema := Schema(true, None, props);
    assert ["a"] + [props[0].name] == ["a", "b"];
    assert IsDefaultIn(["a"], props, ["a", "b"]);
    assert IsDefault(["a"], schema, ["a", "b"]) && ["a"] < ["a", "b"];
    LeafPut(v);
    assert Fill(v, ["a", "b"], leaf) == Put(v, ["a", "b"], Atom(2));
    assert props[1..] == [];
  }

  lemma LeafPut(v: Value)
    requires v == Obj(map["a" := Atom(1)])
    ensures Lookup(v, ["a"]) == Atom(1) && !Has(v, ["a", "b"])
    ensures Put(v, ["a", "b"], Atom(2)) == Obj(map["a" := Obj(map["b" := Atom(2)])])
  {
    assert ["a", "b"][1..] == ["b"] && ["b"][1..] == [] && ["a"][1..] == [];
    assert Put(Atom(1), ["b"], Atom(2)) == Obj(map["b" := Atom(2)]);
  }

  // ----- The class -----

  /** What the values are after a write: the value put, and the defaults of its schema filled in. */
  function Written(v: Value, path: Path, x: Value, schema: Option<Schema>): Value {
    if schema.Some? && schema.value.typed then Fill(Put(v, path, x), path, schema.value) else Put(v, path, x)
  }

  /** After a write: what was put is there, where no default lies below; other paths are as they
      were; and with a typed schema every default exists. */
  lemma WrittenHolds(v: Value, path: Path, x: Value, schema: Option<Schema>, p: Path)
    ensures var after := Written(v, path, x, schema);
      && ((path <= p && Has(x, p[|path|..]) && (schema.None? || !DefaultBelow(path, schema.value, p))) ==>
            Lookup(after, p) == Lookup(x, p[|path|..]))
      && (!(path <= p) && !(p <= path) ==> Lookup(after, p) == Lookup(v, p) && Has(after, p) == Has(v, p))
      && (schema.Some? && schema.value.typed && IsDefault(path, schema.value, p) ==> Has(after, p))
      && (schema.None? || !schema.value.typed ==> after == Put(v, path, x))
  {
    hide Has, Lookup, Put, Fill, IsDefault;
    LookupAfterPut(v, path, x, p);
    var put := Put(v, path, x);
    if schema.Some? && schema.value.typed {
      FillHasDefaults(put, path, schema.value);
      if path <= p {
        if Has(x, p[|path|..]) && !DefaultBelow(path, schema.value, p) {
          FillKeeps(put, path, schema.value, p);
        }
      } else if !(p <= path) {
        FillElsewhere(put, path, schema.value, p);
      }
    }
  }

  function SchemaOrEmpty(root: Schema, path: Path): Schema {
    var at := SchemaAt(root, path);
    if at.Some? then at.value else Schema(false, None, [])
  }

  lemma {:induction false} FindOwn(props: seq<Property>, i: nat)
    requires i < |props| && forall j, k :: 0 <= j < k < |props| ==> props[j].name != props[k].name
    ensures Find(props, props[i].name) == Some(props[i].schema)
    decreases i
  {
    if i > 0 {
      FindOwn(props[1..], i - 1);
    }
  }

  lemma SchemaBelow(root: Schema, path: Path, schema: Schema, i: nat)
    requires SchemaAt(root, path) == Some(schema) && Keyed(schema) && i < |schema.properties|
    ensures var p := schema.properties[i];
      SchemaAt(root, path + [p.name]) == Some(p.schema) && Keyed(p.schema) && p.schema < schema
  {
    var p := schema.properties[i];
    assert (path + [p.name])[..|path|] == path;
    FindOwn(schema.properties, i);
    assert p in schema.properties;
  }

  class Config {
    var values: Value
    const schemas: Schema

    constructor (schemas: Schema)
      ensures this.schemas == schemas && values == Obj(map[])
    {
      this.schemas, values := schemas, Obj(map[]);
    }

    method HasPath(path: Path) returns (found: bool)
      requires path != []
      ensures found <==> Has(values, path)
    {
      var current := values;
      for i := 0 to |path| - 1
        invariant Has(values, path) <==> Has(current, path[i..])
      {
        assert path[i..][1..] == path[i + 1..];
        if !current.Obj? || path[i] !in current.fields || !current.fields[path[i]].Obj? {
          return false;
        }
        current := current.fields[path[i]];
      }
      assert path[|path| - 1..][1..] == [];
      return current.Obj? && path[|path| - 1] in current.fields;
    }

    method Get(path: Path, default: Value) returns (x: Value)
      requires path != []
      ensures var held := Lookup(values, path); x == if held.Undefined? || held.Null? then default else held
    {
      var current := values;
      for i := 0 to |path| - 1
        invariant Lookup(values, path) == Lookup(current, path[i..])
      {
        assert path[i..][1..] == path[i + 1..];
        if !Field(current, path[i]).Obj? {
          return default;
        }
        current := current.fields[path[i]];
      }
      assert path[|path| - 1..][1..] == [];
      x := Field(current, path[|path| - 1]);
      if x.Undefined? || x.Null? {
        x := default;
      }
    }

    method GetSchemaAtPath(path: Path) returns (schema: Option<Schema>)
      ensures var at := SchemaAt(schemas, path);
        schema == if at.Some? && at.value.typed then at else None
    {
      var current := schemas;
      assert path[..0] == [];
      for i := 0 to |path|
        invariant SchemaAt(schemas, path[..i]) == Some(current)
      {
        assert path[..i + 1][..i] == path[..i];
        var next := Find(current.properties, path[i]);
        if next.None? {
          NoSchemaBelow(schemas, path, i + 1);
          return None;
        }
        current := next.value;
      }
      assert path[..|path|] == path;
      return if current.typed then Some(current) else None;
    }

    /** Writes and fills in defaults again, which calls back for each default it writes. */
    method Set(path: Path, x: Value)
      requires path != [] && Keyed(SchemaOrEmpty(schemas, path))
      modifies this
      ensures values == Written(old(values), path, x, SchemaAt(schemas, path))
      decreases SchemaOrEmpty(schemas, path), 1
    {
      values := Put(values, path, x);
      LookupAfterPut(old(values), path, x, path);
      var schema := GetSchemaAtPath(path);
      if schema.Some? {
        ApplySchemaDefaults(path, schema.value);
      }
    }

    method ApplySchemaDefaults(path: Path, schema: Schema)
      requires path != [] && SchemaAt(schemas, path) == Some(schema) && Keyed(schema)
      modifies this
      ensures values == Fill(old(values), path, schema)
      decreases schema, if Has(values, path) then 0 else 2
    {
      if schema.default.Some? {
        var found := HasPath(path);
        if !found {
          Set(path, schema.default.value);
          LookupAfterPut(old(values), path, schema.default.value, path);
        }
      }
      ghost var start := SetDefault(old(values), path, schema);
      assert values == start || values == Fill(start, path, schema);
      ghost var all := FillAll(start, path, schema.properties);
      FilledOnce(start, path, schema);
      for i := 0 to |schema.properties|
        invariant FillAll(values, path, schema.properties[i..]) == all
      {
        var p := schema.properties[i];
        SchemaBelow(schemas, path, schema, i);
        assert schema.properties[i..][1..] == schema.properties[i + 1..];
        ApplySchemaDefaults(path + [p.name], p.schema);
      }
      assert schema.properties[|schema.properties|..] == [];
    }
  }

  /** The defaults of the properties are filled in twice, to no further effect. */
  lemma FilledOnce(start: Value, path: Path, schema: Schema)
    requires schema.default.Some? ==> Has(start, path)
    ensures FillAll(start, path, schema.properties) == FillAll(Fill(start, path, schema), path, schema.properties)
  {
    hide Has;
    FillAllHasDefaults(start, path, schema.properties);
    NothingMissingIn(Fill(start, path, schema), path, schema.properties);
  }

  lemma {:induction false} NoSchemaBelow(root: Schema, path: Path, n: nat)
    requires n <= |path| && SchemaAt(root, path[..n]).None?
    ensures SchemaAt(root, path).None?
    decreases |path| - n
  {
    if n < |path| {
      assert path[..n + 1][..n] == path[..n];
      NoSchemaBelow(root, path, n + 1);
    } else {
      assert path[..n] == path;
    }
  }
}
