/** The base model of server/services/database/models/_base.js: the schema
    every model starts from, the validate-on-save gate, and `serialize`,
    which flattens loaded relations named in the model's `flatten` map. */
module BaseModel {
  import opened Js

  /** A serialized value. */
  datatype Json = Prim(v: Value<()>) | Arr(items: seq<Json>) | Record(fields: map<string, Json>)

  /** A model's attributes. */
  type Attrs = map<string, Json>

  /** A loaded relation: one related model, or a collection of them. */
  datatype Relation = One(attrs: Attrs) | Many(members: seq<Attrs>)

  /** A `flatten` entry: one attribute name, or a list of them. */
  datatype Spec = Attr(name: string) | Attrs(names: seq<string>)

  /** The model's `flatten` property: None when it is null or missing, else
      the entries and their keys in `Object.keys` order. */
  datatype Flatten = Flatten(entries: map<string, Spec>, keys: seq<string>)

  /** `model.get(key)`: `undefined` for a missing attribute. */
  function Get(attrs: Attrs, key: string): Json
  {
    if key in attrs then attrs[key] else Prim(Undefined)
  }

  /** The property key an array becomes: its elements joined by commas. */
  function Join(names: seq<string>): string
  {
    if names == [] then ""
    else if |names| == 1 then names[0]
    else names[0] + "," + Join(names[1..])
  }

  /** `model.pick(names)`: the named attributes the model has. */
  function Pick(attrs: Attrs, names: seq<string>): (r: Attrs)
    ensures forall k :: k in r <==> k in attrs && k in names
    ensures forall k | k in r :: r[k] == attrs[k]
  {
    map k | k in attrs && k in names :: attrs[k]
  }

  /** What a loaded relation is flattened to: a collection plucks the entry
      from each member in order, a single model gives the attribute's
      value, or for a list of names an object of just those attributes. */
  function Flattened(rel: Relation, spec: Spec): Json
  {
    match rel
    case Many(members) =>
      var key := match spec case Attr(n) => n case Attrs(ns) => Join(ns);
      Arr(seq(|members|, i requires 0 <= i < |members| => Get(members[i], key)))
    case One(attrs) =>
      match spec
      case Attr(n) => Get(attrs, n)
      case Attrs(ns) => Record(Pick(attrs, ns))
  }

  /** The serializer's options: each `undefined` when not given. */
  datatype Options = Options(shallow: Value<()>, flatten: Value<()>)

  /** `serialize` returns the base serialization as it is when the model
      has no `flatten`, `shallow` is given and truthy, or `flatten` is
      given and falsy. */
  predicate KeepsBase(flatten: Option<Flatten>, opts: Options)
  {
    flatten.None?
    || (opts.shallow != Undefined && Truthy(opts.shallow))
    || (opts.flatten != Undefined && !Truthy(opts.flatten))
  }

  /** The object after the entries of `keys` are flattened in turn into
      `base`; an entry whose relation is not loaded is skipped. */
  function FlattenInto(base: map<string, Json>, entries: map<string, Spec>, keys: seq<string>, relations: map<string, Relation>): map<string, Json>
    requires forall k | k in keys :: k in entries
  {
    if keys == [] then base
    else
      var o := FlattenInto(base, entries, keys[..|keys| - 1], relations);
      var name := keys[|keys| - 1];
      if name in relations then o[name := Flattened(relations[name], entries[name])] else o
  }

  /** `serialize(options)`, given the base serialization. */
  method Serialize(base: map<string, Json>, flatten: Option<Flatten>, relations: map<string, Relation>, opts: Options)
    returns (obj: map<string, Json>)
    requires flatten.Some? ==> forall k | k in flatten.value.keys :: k in flatten.value.entries
    ensures KeepsBase(flatten, opts) ==> obj == base
    ensures !KeepsBase(flatten, opts) ==> obj == FlattenInto(base, flatten.value.entries, flatten.value.keys, relations)
  {
    obj := base;
    if KeepsBase(flatten, opts) {
      return;
    }
    var keys := flatten.value.keys;
    var entries := flatten.value.entries;
    var i := 0;
    while i < |keys|
      invariant 0 <= i <= |keys|
      invariant obj == FlattenInto(base, entries, keys[..i], relations)
    {
      assert keys[..i + 1][..i] == keys[..i];
      var name := keys[i];
      if name in relations {
        obj := obj[name := Flattened(relations[name], entries[name])];
      }
      i := i + 1;
    }
    assert keys[..i] == keys;
  }

  /** Each flattened field holds its relation's flattening; every other
      field, and every entry whose relation is not loaded, is left as the
      base serialization had it. */
  lemma {:induction false} FlattenIntoFields(base: map<string, Json>, entries: map<string, Spec>, keys: seq<string>,
                                              relations: map<string, Relation>, name: string)
    requires forall k | k in keys :: k in entries
    ensures var o := FlattenInto(base, entries, keys, relations);
            && (name in keys && name in relations ==> name in o && o[name] == Flattened(relations[name], entries[name]))
            && (name !in keys || name !in relations ==> (name in o <==> name in base) && (name in o ==> o[name] == base[name]))
  {
    if keys != [] {
      var init := keys[..|keys| - 1];
      FlattenIntoFields(base, entries, init, relations, name);
      assert name in keys <==> name in init || name == keys[|keys| - 1];
    }
  }

  /** A collection relation named in `flatten` becomes the list of the
      named attribute of its members, in order. */
  lemma FlattenCollection(members: seq<Attrs>, attr: string)
    ensures Flattened(Many(members), Attr(attr)) == Arr(seq(|members|, i requires 0 <= i < |members| => Get(members[i], attr)))
    ensures forall i | 0 <= i < |members| && attr in members[i] :: Flattened(Many(members), Attr(attr)).items[i] == members[i][attr]
  {
  }

  /** A single model becomes the named attribute's value, or the object of
      the listed attributes it has. */
  lemma FlattenModel(attrs: Attrs, spec: Spec)
    ensures spec.Attr? ==> Flattened(One(attrs), spec) == Get(attrs, spec.name)
    ensures spec.Attrs? ==> Flattened(One(attrs), spec).Record?
                            && forall k :: k in Flattened(One(attrs), spec).fields <==> k in attrs && k in spec.names
  {
  }

  /** A book whose pages are flattened to their content. */
  lemma BookPagesExample()
    ensures var pages := [map["content" := Prim(Str("abc")), "book_id" := Prim(Num(1))],
                          map["content" := Prim(Str("efg")), "book_id" := Prim(Num(1))]];
            Flattened(Many(pages), Attr("content")) == Arr([Prim(Str("abc")), Prim(Str("efg"))])
  {
  }

  /** A page whose book is flattened to its name and author loses the
      book's id. */
  lemma PageBookExample()
    ensures var book := map["id" := Prim(Num(1)), "name" := Prim(Str("book1")), "author" := Prim(Str("author1"))];
            Flattened(One(book), Attrs(["name", "author"])) == Record(map["name" := Prim(Str("book1")), "author" := Prim(Str("author1"))])
  {
    var book := map["id" := Prim(Num(1)), "name" := Prim(Str("book1")), "author" := Prim(Str("author1"))];
    var r := Pick(book, ["name", "author"]);
    assert "name" in r && "author" in r;
    assert r.Keys == {"name", "author"};
  }

  // ---------------------------------------------------------------------
  // The schema

  /** A schema rule: the id's integer rule or a timestamp's date rule. */
  datatype Rule = IntegerId | Timestamp

  /** The model's `hasTimestamps`: a list of fields, or a flag. */
  datatype Timestamps = Fields(fields: seq<string>) | Flag(on: bool)

  const DefaultTimestampKeys: seq<string> := ["created_at", "updated_at"]

  /** The timestamp fields: the listed ones, the default two when the flag
      is on, none when it is off. */
  function TimestampFields(ts: Timestamps): seq<string>
  {
    match ts
    case Fields(fs) => fs
    case Flag(on) => if on then DefaultTimestampKeys else []
  }

  /** `baseSchema()`: the id attribute, then each timestamp field assigned
      in turn. */
  method BaseSchema(idAttribute: string, ts: Timestamps) returns (schema: map<string, Rule>)
    ensures schema.Keys == {idAttribute} + set f | f in TimestampFields(ts)
    ensures forall f | f in TimestampFields(ts) :: schema[f] == Timestamp
    ensures idAttribute !in TimestampFields(ts) ==> schema[idAttribute] == IntegerId
  {
    schema := map[idAttribute := IntegerId];
    var fields := TimestampFields(ts);
    var i := 0;
    while i < |fields|
      invariant 0 <= i <= |fields|
      invariant schema.Keys == {idAttribute} + set f | f in fields[..i]
      invariant forall f | f in fields[..i] :: schema[f] == Timestamp
      invariant idAttribute !in fields[..i] ==> schema[idAttribute] == IntegerId
    {
      assert fields[..i + 1] == fields[..i] + [fields[i]];
      schema := schema[fields[i] := Timestamp];
      i := i + 1;
    }
    assert fields[..i] == fields;
  }

  /** The model's schema: the base schema with the model's own rules on
      top, the model's winning. */
  function ModelSchema(base: map<string, Rule>, own: map<string, Rule>): (r: map<string, Rule>)
    ensures r.Keys == base.Keys + own.Keys
    ensures forall k | k in r :: r[k] == if k in own then own[k] else base[k]
  {
    base + own
  }

  /** The `saving` hook validates unless `options.validate` is given and
      falsy. */
  predicate ValidatesOnSave(validate: Value<()>)
  {
    validate == Undefined || Truthy(validate)
  }

  /** How a save ends as far as the hook goes: with the validation's
      outcome when it runs, otherwise unhindered. */
  function SavingHook(validate: Value<()>, validation: Settled<()>): (r: Settled<()>)
    ensures r.Rejected? <==> ValidatesOnSave(validate) && validation.Rejected?
  {
    if ValidatesOnSave(validate) then validation else Resolved(())
  }

  /** Only an explicit `false` (or another falsy value) skips validation. */
  lemma ValidateGate()
    ensures ValidatesOnSave(Undefined) && ValidatesOnSave(Bool(true))
    ensures !ValidatesOnSave(Bool(false)) && !ValidatesOnSave(Null)
    ensures forall v: Value<()> | v != Undefined :: ValidatesOnSave(v) <==> Truthy(v)
  {
  }
}
