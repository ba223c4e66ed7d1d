/** JavaScript values as they travel through JSON: parsed snapshot documents, HTTP bodies
    and the column values the MySQL driver hands back. Numbers are integers here; an
    object is a finite map from field names to values (JSON objects are unordered). */
module Json {
  import opened Wrappers

  datatype Json =
    | JNull
    | JBool(b: bool)
    | JNum(n: int)
    | JStr(s: string)
    | JArr(elems: seq<Json>)
    | JObj(fields: map<string, Json>)

  /** A database row or a flat JSON object, keyed by column or field name. */
  type Row = map<string, Json>

  /** JavaScript truthiness: `null`, `false`, `0` and `""` are falsy, everything else is truthy. */
  predicate Truthy(v: Json) {
    match v
    case JNull => false
    case JBool(b) => b
    case JNum(n) => n != 0
    case JStr(s) => s != ""
    case JArr(_) => true
    case JObj(_) => true
  }

  /** JavaScript's `a || b`. */
  function Or(a: Json, b: Json): Json {
    if Truthy(a) then a else b
  }

  /** Property access `v?.key`, or `v.key` where `v` is known not to be null; a missing property
      (`undefined`) reads as null. */
  function Get(v: Json, key: string): Json {
    if v.JObj? && key in v.fields then v.fields[key] else JNull
  }

  /** Property access `v.key` on a value that may be null: reading a property of `null` (or of
      the `undefined` a missing key yields) throws a TypeError, None here; any other receiver
      answers `Get(v, key)`. */
  function Prop(v: Json, key: string): (r: Option<Json>)
    ensures r.None? <==> v.JNull?
    ensures r.Some? ==> r.value == Get(v, key)
  {
    if v.JNull? then None else Some(Get(v, key))
  }

  /** Database rows as the plain objects the driver hands back. */
  function Objects(rows: seq<Row>): (r: seq<Json>)
    ensures |r| == |rows|
    ensures forall i :: 0 <= i < |rows| ==> r[i] == JObj(rows[i])
  {
    seq(|rows|, i requires 0 <= i < |rows| => JObj(rows[i]))
  }

  /** A column of a row; a column the row does not carry reads as null. */
  function Column(row: Row, name: string): Json {
    if name in row then row[name] else JNull
  }

  /** The empty JSON list `[]` and the empty object `{}`. */
  const EmptyList: Json := JArr([])
  const EmptyObject: Json := JObj(map[])

  /** Normalisation of a JSON-typed column, `typeof v === 'string' ? JSON.parse(v) : v || dflt`.
      `JSON.parse` is opaque: `parse` returns None where it would throw. */
  function NormalizeColumn(v: Json, dflt: Json, parse: string -> Option<Json>): (r: Option<Json>)
    ensures r.None? ==> v.JStr? && parse(v.s).None?
    ensures !v.JStr? ==> r.Some? && (r.value == v || r.value == dflt)
    ensures !v.JStr? && Truthy(dflt) ==> Truthy(r.value)
  {
    if v.JStr? then parse(v.s)
    else Some(Or(v, dflt))
  }

  /** A null column becomes the default, whatever `JSON.parse` would do. */
  lemma NullColumnBecomesDefault(dflt: Json, parse: string -> Option<Json>)
    ensures NormalizeColumn(JNull, dflt, parse) == Some(dflt)
  {
  }

  /** Normalising a value that did not come from a string is idempotent when the default is
      truthy (as `[]` and `{}` are): the first pass already produced a truthy non-string. */
  lemma {:induction false} NormalizeIdempotent(v: Json, dflt: Json, parse: string -> Option<Json>)
    requires !v.JStr? && !dflt.JStr? && Truthy(dflt)
    ensures NormalizeColumn(v, dflt, parse).Some?
    ensures NormalizeColumn(NormalizeColumn(v, dflt, parse).value, dflt, parse) == NormalizeColumn(v, dflt, parse)
  {
    var once := NormalizeColumn(v, dflt, parse).value;
    assert once == v || once == dflt;
    assert Truthy(once);
  }

  /** `{...row, key: value}` for each key in turn: every listed column normalised to a list. */
  function OverlayLists(row: Row, keys: seq<string>, parse: string -> Option<Json>): (r: Option<Row>)
    ensures r.Some? ==> r.value.Keys == row.Keys + set k | k in keys
    ensures r.Some? ==> forall k :: k in row && k !in keys ==> r.value[k] == row[k]
    ensures r.Some? ==> forall k :: k in keys ==> NormalizeColumn(Column(row, k), EmptyList, parse) == Some(r.value[k])
    ensures r.None? <==> exists k :: k in keys && NormalizeColumn(Column(row, k), EmptyList, parse).None?
    decreases |keys|
  {
    if keys == [] then Some(row)
    else
      match NormalizeColumn(Column(row, keys[0]), EmptyList, parse)
      case None => None
      case Some(v) =>
        var rest := OverlayLists(row, keys[1..], parse);
        if rest.None? then None
        else Some(rest.value[keys[0] := v])
  }

  /** The `{ items }` body of the list endpoints. */
  function ItemsBody(items: seq<Json>): Json {
    JObj(map["items" := JArr(items)])
  }

  /** A `.map(...)` over rows whose callback builds one object per row and may throw: None when
      it throws on some row. */
  function MapRows(f: Row -> Option<Row>, rows: seq<Row>): (r: Option<seq<Json>>)
    ensures r.Some? ==> |r.value| == |rows|
    ensures r.Some? ==> forall i :: 0 <= i < |rows| ==> r.value[i].JObj? && f(rows[i]) == Some(r.value[i].fields)
    ensures r.None? <==> exists i :: 0 <= i < |rows| && f(rows[i]).None?
  {
    if rows == [] then Some([])
    else
      var first := f(rows[0]);
      var rest := MapRows(f, rows[1..]);
      if first.None? then None
      else if rest.None? then
        assert exists i :: 0 <= i < |rows| && f(rows[i]).None? by {
          var i :| 0 <= i < |rows[1..]| && f(rows[1..][i]).None?;
          assert rows[i + 1] == rows[1..][i];
        }
        None
      else
        assert forall i :: 1 <= i < |rows| ==> rows[i] == rows[1..][i - 1];
        Some([JObj(first.value)] + rest.value)
  }
}
