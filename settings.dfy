/** The key/value settings of server/settings.js: each setting is a row of
    the `settings` table holding its name, a type tag and the value as
    text; `set` upserts a whole object of settings and `get` reads them
    back into an object. */
module Settings {
  import opened Js

  /** A setting's value: what JSON can carry. Numbers are integers. */
  datatype Val =
    | VString(s: string)
    | VNumber(n: int)
    | VBool(b: bool)
    | VNull
    | VArray(items: seq<Val>)
    | VObject(fields: map<string, Val>)

  /** `JSON.stringify` and `JSON.parse`, supplied by the platform. */
  datatype Codec = Codec(stringify: Val -> string, parse: string -> Val)

  /** The codec reads back what it wrote for the given value. */
  predicate Reads(codec: Codec, v: Val)
  {
    codec.parse(codec.stringify(v)) == v
  }

  /** `toType(val)`: the lower-cased tag of `Object.prototype.toString`. */
  function TypeName(v: Val): (r: string)
    ensures r == "string" <==> v.VString?
  {
    match v
    case VString(_) => "string"
    case VNumber(_) => "number"
    case VBool(_) => "boolean"
    case VNull => "null"
    case VArray(_) => "array"
    case VObject(_) => "object"
  }

  /** `toString(val)`: a string as it is, anything else as JSON. */
  function ToText(codec: Codec, v: Val): string
  {
    if v.VString? then v.s else codec.stringify(v)
  }

  /** `toValue(str, type)`: the text itself for type `string`, otherwise
      the text read as JSON. */
  function ToValue(codec: Codec, text: string, typ: string): Val
  {
    if typ == "string" then VString(text) else codec.parse(text)
  }

  /** A value comes back from its stored form: always for a string, and
      for anything else when the codec reads back what it wrote. */
  lemma RoundTrip(codec: Codec, v: Val)
    requires v.VString? || Reads(codec, v)
    ensures ToValue(codec, ToText(codec, v), TypeName(v)) == v
  {
  }

  /** A string is stored as it is, whatever the codec. */
  lemma StringStoredAsIs(codec: Codec, s: string)
    ensures ToText(codec, VString(s)) == s && TypeName(VString(s)) == "string"
    ensures ToValue(codec, ToText(codec, VString(s)), TypeName(VString(s))) == VString(s)
  {
  }

  /** A row of the `settings` table. */
  datatype Row = Row(name: string, typ: string, value: string)

  /** The row holding `v` under `name`. */
  function Encode(codec: Codec, name: string, v: Val): Row
  {
    Row(name, TypeName(v), ToText(codec, v))
  }

  /** `parseSettings(settings)`: name to decoded value, a later row of the
      same name winning. */
  function Parsed(codec: Codec, rows: seq<Row>): map<string, Val>
  {
    if rows == [] then map[]
    else
      var last := rows[|rows| - 1];
      Parsed(codec, rows[..|rows| - 1])[last.name := ToValue(codec, last.value, last.typ)]
  }

  predicate NamesDistinct(rows: seq<Row>)
  {
    forall i, j | 0 <= i < j < |rows| :: rows[i].name != rows[j].name
  }

  /** The parsed object has a key for every row's name and no other, and
      with distinct names each row's decoded value. */
  lemma {:induction false} ParsedLookup(codec: Codec, rows: seq<Row>)
    ensures forall k :: k in Parsed(codec, rows) <==> exists i | 0 <= i < |rows| :: rows[i].name == k
    ensures NamesDistinct(rows) ==>
              forall i | 0 <= i < |rows| :: Parsed(codec, rows)[rows[i].name] == ToValue(codec, rows[i].value, rows[i].typ)
  {
    if rows != [] {
      var init := rows[..|rows| - 1];
      ParsedLookup(codec, init);
      forall k
        ensures k in Parsed(codec, rows) <==> exists i | 0 <= i < |rows| :: rows[i].name == k
      {
        if exists i | 0 <= i < |init| :: init[i].name == k {
          var i :| 0 <= i < |init| && init[i].name == k;
          assert rows[i].name == k;
        }
        if exists i | 0 <= i < |rows| :: rows[i].name == k {
          var i :| 0 <= i < |rows| && rows[i].name == k;
          if i < |init| {
            assert init[i].name == k;
          }
        }
      }
      if NamesDistinct(rows) {
        forall i | 0 <= i < |rows|
          ensures Parsed(codec, rows)[rows[i].name] == ToValue(codec, rows[i].value, rows[i].typ)
        {
          if i < |init| {
            assert init[i] == rows[i];
            assert rows[i].name != rows[|rows| - 1].name;
          }
        }
      }
    }
  }

  /** `parseSettings`, the `reduce` into `memo`. */
  method ParseSettings(codec: Codec, rows: seq<Row>) returns (memo: map<string, Val>)
    ensures memo == Parsed(codec, rows)
  {
    memo := map[];
    var i := 0;
    while i < |rows|
      invariant 0 <= i <= |rows|
      invariant memo == Parsed(codec, rows[..i])
    {
      assert rows[..i + 1][..i] == rows[..i];
      memo := memo[rows[i].name := ToValue(codec, rows[i].value, rows[i].typ)];
      i := i + 1;
    }
    assert rows[..i] == rows;
  }

  /** The rows whose name is one of the keys, in table order
      (`whereIn('name', keys)`, which an empty list matches nothing of). */
  function Fetched(rows: seq<Row>, keys: seq<string>): (r: seq<Row>)
    ensures forall row :: row in r <==> row in rows && row.name in keys
    ensures NamesDistinct(rows) ==> NamesDistinct(r)
  {
    if rows == [] then []
    else
      var rest := Fetched(rows[1..], keys);
      assert forall row | row in rest :: row in rows[1..];
      if rows[0].name in keys then [rows[0]] + rest else rest
  }

  /** The rows `get(keys)` reads: all of them for no keys. */
  function Selected(rows: seq<Row>, keys: seq<string>): (r: seq<Row>)
    ensures forall row :: row in r <==> row in rows && (keys == [] || row.name in keys)
    ensures NamesDistinct(rows) ==> NamesDistinct(r)
  {
    if keys == [] then rows else Fetched(rows, keys)
  }

  function Names(rows: seq<Row>): (r: seq<string>)
    ensures |r| == |rows|
    ensures forall i | 0 <= i < |rows| :: r[i] == rows[i].name
  {
    seq(|rows|, i requires 0 <= i < |rows| => rows[i].name)
  }

  /** The rows holding the hash's values under the given names. */
  function EncodeAll(codec: Codec, names: seq<string>, hash: map<string, Val>): (r: seq<Row>)
    requires forall k | k in names :: k in hash
    ensures |r| == |names|
    ensures forall i | 0 <= i < |names| :: r[i] == Encode(codec, names[i], hash[names[i]])
  {
    seq(|names|, i requires 0 <= i < |names| => Encode(codec, names[i], hash[names[i]]))
  }

  /** `keys.splice(keys.indexOf(name), 1)`: removes the first occurrence,
      or, for a name not there (`indexOf` is -1), the last key. */
  function Splice(keys: seq<string>, name: string): (r: seq<string>)
    ensures forall k | k in r :: k in keys
    ensures name in keys && Distinct(keys) ==> forall k :: k in r <==> k in keys && k != name
    ensures Distinct(keys) ==> Distinct(r)
  {
    if keys == [] then []
    else if name !in keys then keys[..|keys| - 1]
    else if keys[0] == name then keys[1..]
    else
      var rest := Splice(keys[1..], name);
      assert Distinct(keys) ==> Distinct(keys[1..]) && keys[0] !in keys[1..];
      [keys[0]] + rest
  }

  /** The keys after splicing out each fetched row's name in turn. */
  function SpliceAll(keys: seq<string>, fetched: seq<Row>): (r: seq<string>)
    ensures forall k | k in r :: k in keys
  {
    if fetched == [] then keys
    else Splice(SpliceAll(keys, fetched[..|fetched| - 1]), fetched[|fetched| - 1].name)
  }

  /** Splicing out names that are all among the keys, each once, leaves
      exactly the other keys, each once. */
  lemma {:induction false} SpliceAllMembers(keys: seq<string>, fetched: seq<Row>)
    requires Distinct(keys) && NamesDistinct(fetched)
    requires forall j | 0 <= j < |fetched| :: fetched[j].name in keys
    ensures Distinct(SpliceAll(keys, fetched))
    ensures forall k :: k in SpliceAll(keys, fetched) <==> k in keys && forall j | 0 <= j < |fetched| :: fetched[j].name != k
  {
    if fetched != [] {
      var init := fetched[..|fetched| - 1];
      var name := fetched[|fetched| - 1].name;
      SpliceAllMembers(keys, init);
      assert name in SpliceAll(keys, init) by {
        forall j | 0 <= j < |init|
          ensures init[j].name != name
        {
          assert init[j] == fetched[j];
        }
      }
      forall k
        ensures k in SpliceAll(keys, fetched) <==> k in keys && forall j | 0 <= j < |fetched| :: fetched[j].name != k
      {
        if k in keys && k != name && exists j | 0 <= j < |fetched| :: fetched[j].name == k {
          var j :| 0 <= j < |fetched| && fetched[j].name == k;
          assert init[j] == fetched[j];
        }
      }
    }
  }

  /** The keys no row is named by, in key order: the keys left after the
      fetched rows' names are spliced out. */
  function Missing(rows: seq<Row>, keys: seq<string>): seq<string>
  {
    SpliceAll(keys, Fetched(rows, keys))
  }

  lemma MissingMembers(rows: seq<Row>, keys: seq<string>)
    requires NamesDistinct(rows) && Distinct(keys)
    ensures Distinct(Missing(rows, keys))
    ensures forall k :: k in Missing(rows, keys) <==> k in keys && forall i | 0 <= i < |rows| :: rows[i].name != k
  {
    var fetched := Fetched(rows, keys);
    forall j | 0 <= j < |fetched|
      ensures fetched[j].name in keys
    {
      assert fetched[j] in fetched;
    }
    SpliceAllMembers(keys, fetched);
    forall k | k in keys
      ensures (forall j | 0 <= j < |fetched| :: fetched[j].name != k) <==> (forall i | 0 <= i < |rows| :: rows[i].name != k)
    {
      if exists i | 0 <= i < |rows| :: rows[i].name == k {
        var i :| 0 <= i < |rows| && rows[i].name == k;
        assert rows[i] in fetched;
      }
      if exists j | 0 <= j < |fetched| :: fetched[j].name == k {
        var j :| 0 <= j < |fetched| && fetched[j].name == k;
        assert fetched[j] in rows;
      }
    }
  }

  /** The rows `set(hash)` saves: the fetched rows, re-encoded from the
      hash, then a new row per key naming no row. */
  function Saved(codec: Codec, rows: seq<Row>, hash: map<string, Val>, keys: seq<string>): seq<Row>
    requires forall k | k in keys :: k in hash
  {
    var fetched := Fetched(rows, keys);
    assert forall j | 0 <= j < |fetched| :: fetched[j] in fetched;
    EncodeAll(codec, Names(fetched), hash) + EncodeAll(codec, Missing(rows, keys), hash)
  }

  /** The table after `set(hash)`: every row named by a key re-encoded in
      place, then the new rows. */
  function Upserted(codec: Codec, rows: seq<Row>, hash: map<string, Val>, keys: seq<string>): seq<Row>
    requires forall k | k in keys :: k in hash
  {
    Updated(codec, rows, hash, keys) + EncodeAll(codec, Missing(rows, keys), hash)
  }

  /** The table's rows with those named by a key re-encoded. */
  function Updated(codec: Codec, rows: seq<Row>, hash: map<string, Val>, keys: seq<string>): (r: seq<Row>)
    requires forall k | k in keys :: k in hash
    ensures |r| == |rows|
    ensures forall i | 0 <= i < |rows| :: r[i] == if rows[i].name in keys then Encode(codec, rows[i].name, hash[rows[i].name]) else rows[i]
  {
    seq(|rows|, i requires 0 <= i < |rows| => if rows[i].name in keys then Encode(codec, rows[i].name, hash[rows[i].name]) else rows[i])
  }

  /** The first loop of `set(hash)` over the fetched rows: each row's new
      encoding, and the keys with each fetched name spliced out. */
  method Reencode(codec: Codec, fetched: seq<Row>, hash: map<string, Val>, keys: seq<string>)
    returns (remaining: seq<string>, saved: seq<Row>)
    requires forall j | 0 <= j < |fetched| :: fetched[j].name in hash
    ensures remaining == SpliceAll(keys, fetched)
    ensures saved == EncodeAll(codec, Names(fetched), hash)
  {
    remaining := keys;
    saved := [];
    var i := 0;
    while i < |fetched|
      invariant 0 <= i <= |fetched|
      invariant remaining == SpliceAll(keys, fetched[..i])
      invariant |saved| == i
      invariant forall j | 0 <= j < i :: saved[j] == Encode(codec, fetched[j].name, hash[fetched[j].name])
    {
      var name := fetched[i].name;
      SpliceAllStep(keys, fetched, i);
      remaining := Splice(remaining, name);
      saved := saved + [Encode(codec, name, hash[name])];
      i := i + 1;
    }
    assert fetched[..i] == fetched;
    EncodedRows(codec, fetched, hash, saved);
  }

  /** Rows encoded one per fetched row are the encoding of the fetched
      names. */
  lemma EncodedRows(codec: Codec, fetched: seq<Row>, hash: map<string, Val>, saved: seq<Row>)
    requires forall j | 0 <= j < |fetched| :: fetched[j].name in hash
    requires |saved| == |fetched|
    requires forall j | 0 <= j < |fetched| :: saved[j] == Encode(codec, fetched[j].name, hash[fetched[j].name])
    ensures forall k | k in Names(fetched) :: k in hash
    ensures saved == EncodeAll(codec, Names(fetched), hash)
  {
    var names := Names(fetched);
    assert forall k | k in names :: k in hash;
    var all := EncodeAll(codec, names, hash);
    assert forall j | 0 <= j < |saved| :: saved[j] == all[j];
  }

  /** One more fetched row splices one more name out. */
  lemma SpliceAllStep(keys: seq<string>, fetched: seq<Row>, i: nat)
    requires i < |fetched|
    ensures SpliceAll(keys, fetched[..i + 1]) == Splice(SpliceAll(keys, fetched[..i]), fetched[i].name)
  {
    assert fetched[..i + 1][..i] == fetched[..i];
  }

  /** The settings table. Its `name` column is unique. */
  class Store {
    var rows: seq<Row>

    ghost predicate Valid()
      reads this
    {
      NamesDistinct(rows)
    }

    constructor ()
      ensures Valid() && rows == []
    {
      rows := [];
    }

    /** `get(keys)`. */
    method Get(codec: Codec, keys: seq<string>) returns (r: map<string, Val>)
      requires Valid()
      ensures r == Parsed(codec, Selected(rows, keys))
    {
      r := ParseSettings(codec, Selected(rows, keys));
    }

    /** `getValue(key)`: None for `undefined`. */
    method GetValue(codec: Codec, key: string) returns (r: Option<Val>)
      requires Valid()
      ensures var got := Parsed(codec, Selected(rows, [key]));
              r == if key in got then Some(got[key]) else None
    {
      var got := Get(codec, [key]);
      r := if key in got then Some(got[key]) else None;
    }

    /** `set(hash)`, with `keys` the hash's own keys in `Object.keys` order:
        each fetched row is re-encoded in place and its name spliced out of
        the keys; each key left gets a new row; the saved rows are parsed. */
    method Set(codec: Codec, hash: map<string, Val>, keys: seq<string>) returns (r: map<string, Val>)
      requires Valid() && Distinct(keys)
      requires forall k :: k in keys <==> k in hash
      modifies this
      ensures Valid()
      ensures rows == Upserted(codec, old(rows), hash, keys)
      ensures r == Parsed(codec, Saved(codec, old(rows), hash, keys))
    {
      var fetched := Fetched(rows, keys);
      var remaining, saved := Reencode(codec, fetched, hash, keys);
      var added := EncodeAll(codec, remaining, hash);
      UpdateInPlace(codec, hash, keys);
      rows := rows + added;
      SetUpserts(codec, old(rows), hash, keys);
      r := ParseSettings(codec, saved + added);
    }

    /** The fetched rows' writes, on the table they belong to. */
    method UpdateInPlace(codec: Codec, hash: map<string, Val>, keys: seq<string>)
      requires Valid()
      requires forall k | k in keys :: k in hash
      modifies this
      ensures Valid()
      ensures rows == Updated(codec, old(rows), hash, keys)
    {
      var i := 0;
      while i < |rows|
        invariant 0 <= i <= |rows| && |rows| == |old(rows)|
        invariant forall j | 0 <= j < i :: rows[j] == Updated(codec, old(rows), hash, keys)[j]
        invariant forall j | i <= j < |rows| :: rows[j] == old(rows)[j]
      {
        var name := rows[i].name;
        if name in keys {
          rows := rows[i := Encode(codec, name, hash[name])];
        }
        i := i + 1;
      }
      UpdatedKeepsNames(codec, old(rows), hash, keys);
    }
  }

  /** Re-encoding rows in place keeps every name where it was, so the
      names stay distinct. */
  lemma UpdatedKeepsNames(codec: Codec, rows: seq<Row>, hash: map<string, Val>, keys: seq<string>)
    requires NamesDistinct(rows)
    requires forall k | k in keys :: k in hash
    ensures var u := Updated(codec, rows, hash, keys);
            && (forall i | 0 <= i < |rows| :: u[i].name == rows[i].name)
            && NamesDistinct(u)
  {
  }

  /** The encoded row keeps its name and decodes to the value. */
  lemma EncodeDecodes(codec: Codec, name: string, v: Val)
    requires v.VString? || Reads(codec, v)
    ensures Encode(codec, name, v).name == name
    ensures ToValue(codec, Encode(codec, name, v).value, Encode(codec, name, v).typ) == v
  {
    RoundTrip(codec, v);
  }

  /** Two lists of rows with distinct names, none shared, join into one. */
  lemma AppendDistinct(a: seq<Row>, b: seq<Row>)
    requires NamesDistinct(a) && NamesDistinct(b)
    requires forall i, j | 0 <= i < |a| && 0 <= j < |b| :: a[i].name != b[j].name
    ensures NamesDistinct(a + b)
  {
    var t := a + b;
    forall i, j | 0 <= i < j < |t|
      ensures t[i].name != t[j].name
    {
      if j >= |a| && i < |a| {
        assert t[j] == b[j - |a|];
      } else if i >= |a| {
        assert t[i] == b[i - |a|] && t[j] == b[j - |a|];
      }
    }
  }

  /** The new rows of `set` are named by the missing keys. */
  lemma AddedRows(codec: Codec, rows: seq<Row>, hash: map<string, Val>, keys: seq<string>)
    requires NamesDistinct(rows) && Distinct(keys)
    requires forall k :: k in keys <==> k in hash
    ensures var a := EncodeAll(codec, Missing(rows, keys), hash);
            && NamesDistinct(a)
            && (forall j | 0 <= j < |a| :: a[j].name in hash && forall i | 0 <= i < |rows| :: rows[i].name != a[j].name)
            && (forall k | k in hash && (forall i | 0 <= i < |rows| :: rows[i].name != k) ::
                  exists j | 0 <= j < |a| :: a[j] == Encode(codec, k, hash[k]))
  {
    var m := Missing(rows, keys);
    var a := EncodeAll(codec, m, hash);
    MissingMembers(rows, keys);
    forall j | 0 <= j < |a|
      ensures a[j].name in hash && forall i | 0 <= i < |rows| :: rows[i].name != a[j].name
    {
      assert m[j] in m;
    }
    forall k | k in hash && (forall i | 0 <= i < |rows| :: rows[i].name != k)
      ensures exists j | 0 <= j < |a| :: a[j] == Encode(codec, k, hash[k])
    {
      var j :| 0 <= j < |m| && m[j] == k;
      assert a[j] == Encode(codec, k, hash[k]);
    }
  }

  /** The table after `set` from its two parts: the existing rows, some
      re-encoded under the same names, and rows under new names. */
  lemma JoinedTable(codec: Codec, rows: seq<Row>, hash: map<string, Val>, u: seq<Row>, a: seq<Row>)
    requires NamesDistinct(rows) && NamesDistinct(a)
    requires |u| == |rows|
    requires forall i | 0 <= i < |rows| :: u[i] == if rows[i].name in hash then Encode(codec, rows[i].name, hash[rows[i].name]) else rows[i]
    requires forall j | 0 <= j < |a| :: forall i | 0 <= i < |rows| :: rows[i].name != a[j].name
    requires forall k | k in hash && (forall i | 0 <= i < |rows| :: rows[i].name != k) ::
               exists j | 0 <= j < |a| :: a[j] == Encode(codec, k, hash[k])
    ensures var t := u + a;
            && NamesDistinct(t)
            && (forall k | k in hash :: exists i | 0 <= i < |t| :: t[i] == Encode(codec, k, hash[k]))
            && (forall i | 0 <= i < |rows| && rows[i].name !in hash :: t[i] == rows[i])
            && (forall i | |rows| <= i < |t| :: forall j | 0 <= j < |rows| :: t[i].name != rows[j].name)
  {
    var t := u + a;
    assert forall i | 0 <= i < |rows| :: u[i].name == rows[i].name;
    AppendDistinct(u, a);
    forall k | k in hash
      ensures exists i | 0 <= i < |t| :: t[i] == Encode(codec, k, hash[k])
    {
      if exists i | 0 <= i < |rows| :: rows[i].name == k {
        var i :| 0 <= i < |rows| && rows[i].name == k;
        assert t[i] == u[i];
      } else {
        var j :| 0 <= j < |a| && a[j] == Encode(codec, k, hash[k]);
        assert t[|u| + j] == a[j];
      }
    }
    assert forall i | |rows| <= i < |t| :: t[i] == a[i - |rows|];
  }

  /** After `set(hash)` the table has exactly one row per name, among them
      one per key of the hash holding its value; the rows of other names
      are untouched and rows are only added, under new names. */
  lemma SetUpserts(codec: Codec, rows: seq<Row>, hash: map<string, Val>, keys: seq<string>)
    requires NamesDistinct(rows) && Distinct(keys)
    requires forall k :: k in keys <==> k in hash
    ensures var t := Upserted(codec, rows, hash, keys);
            && NamesDistinct(t)
            && |rows| <= |t|
            && (forall k | k in hash :: exists i | 0 <= i < |t| :: t[i] == Encode(codec, k, hash[k]))
            && (forall i | 0 <= i < |rows| && rows[i].name !in hash :: t[i] == rows[i])
            && (forall i | |rows| <= i < |t| :: forall j | 0 <= j < |rows| :: t[i].name != rows[j].name)
  {
    AddedRows(codec, rows, hash, keys);
    JoinedTable(codec, rows, hash, Updated(codec, rows, hash, keys), EncodeAll(codec, Missing(rows, keys), hash));
  }

  /** The rows `set` saves from its two parts: re-encoded rows of the
      table and rows under new names. */
  lemma JoinedSaved(codec: Codec, rows: seq<Row>, hash: map<string, Val>, fetched: seq<Row>, f: seq<Row>, a: seq<Row>)
    requires NamesDistinct(fetched) && NamesDistinct(a)
    requires forall i | 0 <= i < |fetched| :: fetched[i] in rows && fetched[i].name in hash
    requires forall i | 0 <= i < |rows| :: rows[i].name in hash ==> rows[i] in fetched
    requires |f| == |fetched|
    requires forall i | 0 <= i < |f| :: f[i] == Encode(codec, fetched[i].name, hash[fetched[i].name])
    requires forall j | 0 <= j < |a| :: a[j].name in hash && a[j] == Encode(codec, a[j].name, hash[a[j].name])
    requires forall j | 0 <= j < |a| :: forall i | 0 <= i < |rows| :: rows[i].name != a[j].name
    requires forall k | k in hash && (forall i | 0 <= i < |rows| :: rows[i].name != k) ::
               exists j | 0 <= j < |a| :: a[j] == Encode(codec, k, hash[k])
    ensures var saved := f + a;
            && NamesDistinct(saved)
            && (forall k :: (exists i | 0 <= i < |saved| :: saved[i].name == k) <==> k in hash)
            && (forall i | 0 <= i < |saved| :: saved[i].name in hash && saved[i] == Encode(codec, saved[i].name, hash[saved[i].name]))
  {
    var saved := f + a;
    assert forall i | 0 <= i < |fetched| :: f[i].name == fetched[i].name;
    forall i, j | 0 <= i < |f| && 0 <= j < |a|
      ensures f[i].name != a[j].name
    {
      assert fetched[i] in rows;
    }
    AppendDistinct(f, a);
    forall k
      ensures (exists i | 0 <= i < |saved| :: saved[i].name == k) <==> k in hash
    {
      if k in hash {
        if exists i | 0 <= i < |rows| :: rows[i].name == k {
          var i :| 0 <= i < |rows| && rows[i].name == k;
          var p :| 0 <= p < |fetched| && fetched[p] == rows[i];
          assert saved[p] == f[p];
        } else {
          var j :| 0 <= j < |a| && a[j] == Encode(codec, k, hash[k]);
          assert saved[|f| + j] == a[j];
        }
      }
    }
    assert forall i | |f| <= i < |saved| :: saved[i] == a[i - |f|];
  }

  /** The rows `set` saves have distinct names, exactly the hash's keys. */
  lemma SavedNames(codec: Codec, rows: seq<Row>, hash: map<string, Val>, keys: seq<string>)
    requires NamesDistinct(rows) && Distinct(keys)
    requires forall k :: k in keys <==> k in hash
    ensures var saved := Saved(codec, rows, hash, keys);
            && NamesDistinct(saved)
            && (forall k :: (exists i | 0 <= i < |saved| :: saved[i].name == k) <==> k in hash)
            && (forall i | 0 <= i < |saved| :: saved[i].name in hash && saved[i] == Encode(codec, saved[i].name, hash[saved[i].name]))
  {
    var fetched := Fetched(rows, keys);
    assert forall i | 0 <= i < |fetched| :: fetched[i] in fetched;
    AddedRows(codec, rows, hash, keys);
    JoinedSaved(codec, rows, hash, fetched, EncodeAll(codec, Names(fetched), hash), EncodeAll(codec, Missing(rows, keys), hash));
  }

  /** `set(hash)` resolves to an object with exactly the hash's keys; with
      a codec that reads back what it writes, to the hash itself. */
  lemma SetResolvesToHash(codec: Codec, rows: seq<Row>, hash: map<string, Val>, keys: seq<string>)
    requires NamesDistinct(rows) && Distinct(keys)
    requires forall k :: k in keys <==> k in hash
    ensures Parsed(codec, Saved(codec, rows, hash, keys)).Keys == hash.Keys
    ensures (forall k | k in hash :: hash[k].VString? || Reads(codec, hash[k])) ==>
              Parsed(codec, Saved(codec, rows, hash, keys)) == hash
  {
    var saved := Saved(codec, rows, hash, keys);
    SavedNames(codec, rows, hash, keys);
    ParsedLookup(codec, saved);
    if forall k | k in hash :: hash[k].VString? || Reads(codec, hash[k]) {
      forall k | k in hash
        ensures Parsed(codec, saved)[k] == hash[k]
      {
        var i :| 0 <= i < |saved| && saved[i].name == k;
        EncodeDecodes(codec, k, hash[k]);
      }
    }
  }

  /** `get(keys)` reads every setting for no keys, else exactly the named
      ones that exist, each with its decoded value. */
  lemma GetSelects(codec: Codec, rows: seq<Row>, keys: seq<string>)
    requires NamesDistinct(rows)
    ensures forall k :: k in Parsed(codec, Selected(rows, keys)) <==>
                          (keys == [] || k in keys) && exists i | 0 <= i < |rows| :: rows[i].name == k
    ensures forall i | 0 <= i < |rows| && (keys == [] || rows[i].name in keys) ::
              Parsed(codec, Selected(rows, keys))[rows[i].name] == ToValue(codec, rows[i].value, rows[i].typ)
  {
    var sel := Selected(rows, keys);
    ParsedLookup(codec, sel);
    forall k
      ensures k in Parsed(codec, sel) <==> (keys == [] || k in keys) && exists i | 0 <= i < |rows| :: rows[i].name == k
    {
      if exists i | 0 <= i < |sel| :: sel[i].name == k {
        var i :| 0 <= i < |sel| && sel[i].name == k;
        assert sel[i] in sel;
        var j :| 0 <= j < |rows| && rows[j] == sel[i];
      }
      if (keys == [] || k in keys) && exists i | 0 <= i < |rows| :: rows[i].name == k {
        var i :| 0 <= i < |rows| && rows[i].name == k;
        assert rows[i] in sel;
        var j :| 0 <= j < |sel| && sel[j] == rows[i];
      }
    }
    forall i | 0 <= i < |rows| && (keys == [] || rows[i].name in keys)
      ensures Parsed(codec, sel)[rows[i].name] == ToValue(codec, rows[i].value, rows[i].typ)
    {
      assert rows[i] in sel;
      var j :| 0 <= j < |sel| && sel[j] == rows[i];
    }
  }

  // ---------------------------------------------------------------------
  // setValue

  /** `setValue(key, val)` as written: `{ key: val }` is an object whose
      one key is the literal `"key"`. */
  function SetValueHash(key: string, val: Val): (map<string, Val>, seq<string>)
  {
    (map["key" := val], ["key"])
  }

  /** `setValue` with the key computed from its argument. */
  function SetValueHashByName(key: string, val: Val): (map<string, Val>, seq<string>)
  {
    (map[key := val], [key])
  }

  /** As written, `setValue("twitter.list.youth", "2")` leaves the youth
      list setting as it was and adds a setting named `key`. */
  lemma SetValueWritesKey(codec: Codec)
    ensures var rows := [Row("twitter.list.youth", "string", "1")];
            var (hash, keys) := SetValueHash("twitter.list.youth", VString("2"));
            Upserted(codec, rows, hash, keys) == [Row("twitter.list.youth", "string", "1"), Row("key", "string", "2")]
  {
    var rows := [Row("twitter.list.youth", "string", "1")];
    var (hash, keys) := SetValueHash("twitter.list.youth", VString("2"));
    assert Fetched(rows, keys) == [];
    assert Missing(rows, keys) == ["key"];
  }

  /** As written, `setValue` never changes the setting it names, unless
      that is `key`. */
  lemma SetValueKeepsNamed(codec: Codec, rows: seq<Row>, key: string, val: Val)
    requires NamesDistinct(rows) && key != "key"
    ensures var (hash, keys) := SetValueHash(key, val);
            forall i | 0 <= i < |rows| && rows[i].name == key :: Upserted(codec, rows, hash, keys)[i] == rows[i]
  {
    var (hash, keys) := SetValueHash(key, val);
    SetUpserts(codec, rows, hash, keys);
  }

  /** By name, `setValue(key, val)` stores `val` under `key`, and a `get`
      of that key reads it back. */
  lemma SetValueByNameStores(codec: Codec, rows: seq<Row>, key: string, val: Val)
    requires NamesDistinct(rows)
    requires val.VString? || Reads(codec, val)
    ensures var (hash, keys) := SetValueHashByName(key, val);
            var t := Upserted(codec, rows, hash, keys);
            && key in Parsed(codec, Selected(t, [key]))
            && Parsed(codec, Selected(t, [key]))[key] == val
  {
    var (hash, keys) := SetValueHashByName(key, val);
    var t := Upserted(codec, rows, hash, keys);
    SetUpserts(codec, rows, hash, keys);
    var i :| 0 <= i < |t| && t[i] == Encode(codec, key, val);
    GetSelects(codec, t, [key]);
    EncodeDecodes(codec, key, val);
  }
}
