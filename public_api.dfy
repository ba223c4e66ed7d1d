/** The public read API of the site: every `router.get` handler of the public router.
    Each handler first tries MySQL and returns from inside its `try`; when the database is
    unreachable, a query throws, or a row the handler needs is missing, it falls through to a
    JSON snapshot under `public/data/<lang>/...`; when that file is absent too, it answers a
    fixed default. The database and the snapshot store are inputs: a `DbOutcome` says how the
    database part ended and a `Snapshot` maps file paths to their parsed documents. */
module PublicApi {
  import opened Wrappers
  import opened Json
  import Text
  import Order

  /** How the database part of a handler ended. */
  datatype DbOutcome<T> =
    | Unreachable    // isDbConnected() answered false
    | Threw          // a query threw inside the `try`
    | ParentMissing  // the country row (or the witness, resistor, analyst, event, article row) is absent
    | Found(value: T)

  /** The snapshot store: file path (relative to `public/`) to its parsed content. A file that is
      missing, unreadable or not valid JSON is not a key (`loadJsonFallback` returns null for it). */
  type Snapshot = map<string, Json>

  datatype Source = Database | SnapshotFile | BuiltInDefault

  /** What `res.json(...)` sends, and from where. */
  datatype Reply = Reply(source: Source, body: Json)

  /** `req.query.lang || 'es'`. */
  function Lang(param: Option<string>): (lang: string)
    ensures lang != ""
    ensures param.Some? && param.value != "" ==> lang == param.value
    ensures param.None? ==> lang == "es"
  {
    if param.Some? && param.value != "" then param.value else "es"
  }

  /** `loadJsonFallback(path)`: the parsed file, or null when there is none. */
  function LoadJsonFallback(snap: Snapshot, path: string): Option<Json> {
    if path in snap then Some(snap[path]) else None
  }

  /** The decision every handler makes: the database answer if the `try` returned one, else
      `fallback || dflt`. */
  function Respond(fromDb: Option<Json>, fallback: Option<Json>, dflt: Json): (r: Reply)
    ensures r.source == Database <==> fromDb.Some?
    ensures r.source == Database ==> r.body == fromDb.value
    ensures r.source == SnapshotFile <==> fromDb.None? && fallback.Some? && Truthy(fallback.value)
    ensures r.source == SnapshotFile ==> r.body == fallback.value
    ensures r.source == BuiltInDefault ==> r.body == dflt
  {
    if fromDb.Some? then Reply(Database, fromDb.value)
    else if fallback.Some? && Truthy(fallback.value) then Reply(SnapshotFile, fallback.value)
    else Reply(BuiltInDefault, dflt)
  }

  /** A handler: the database outcome shaped by `shape` (None when shaping throws, e.g. a
      JSON column that does not parse), else the snapshot at `path`, else `dflt`. */
  function Handle<T>(db: DbOutcome<T>, shape: T -> Option<Json>, snap: Snapshot, path: string, dflt: Json): (r: Reply)
    ensures r.source == Database <==> db.Found? && shape(db.value).Some?
    ensures r.source == Database ==> r.body == shape(db.value).value
    ensures r.source == SnapshotFile <==> !(db.Found? && shape(db.value).Some?) && path in snap && Truthy(snap[path])
    ensures r.source == SnapshotFile ==> LoadJsonFallback(snap, path) == Some(r.body)
    ensures r.source == BuiltInDefault ==> r.body == dflt
  {
    Respond(if db.Found? then shape(db.value) else None, LoadJsonFallback(snap, path), dflt)
  }

  /** Once the database answers, the snapshot store is never consulted. */
  lemma DatabaseAnswerIgnoresSnapshot<T>(v: T, shape: T -> Option<Json>, snap1: Snapshot, snap2: Snapshot, path: string, dflt: Json)
    requires shape(v).Some?
    ensures Handle(Found(v), shape, snap1, path, dflt) == Handle(Found(v), shape, snap2, path, dflt)
    ensures Handle(Found(v), shape, snap1, path, dflt) == Reply(Database, shape(v).value)
  {
  }

  /** An unreachable database, a query that throws and a missing parent row are handled alike. */
  lemma FailuresFallThroughAlike<T>(shape: T -> Option<Json>, snap: Snapshot, path: string, dflt: Json)
    ensures Handle(Unreachable, shape, snap, path, dflt) == Handle(Threw, shape, snap, path, dflt)
    ensures Handle(ParentMissing, shape, snap, path, dflt) == Handle(Threw, shape, snap, path, dflt)
    ensures Handle(Threw, shape, snap, path, dflt).source != Database
  {
  }

  /** With no snapshot file, a failed database part yields the fixed default. */
  lemma NoSourceGivesDefault<T>(db: DbOutcome<T>, shape: T -> Option<Json>, snap: Snapshot, path: string, dflt: Json)
    requires !db.Found? && path !in snap
    ensures Handle(db, shape, snap, path, dflt) == Reply(BuiltInDefault, dflt)
  {
  }

  // ---------------------------------------------------------------------------------------
  // Snapshot paths, as the handlers' template literals build them

  function CountriesPath(lang: string): string {
    "/data/" + lang + "/countries.json"
  }

  function MetaPath(lang: string, code: string): string {
    "/data/" + lang + "/" + code + "/meta.json"
  }

  function DescriptionPath(lang: string, code: string): string {
    "/data/" + lang + "/" + code + "/description.json"
  }

  /** The five per-country list routes. */
  datatype CountryList = TimelineList | TestimonyList | ResistanceList | FototecaList | AnalystList

  function ListPath(kind: CountryList, lang: string, code: string): string {
    match kind
    case TimelineList => "/data/" + lang + "/" + code + "/timeline/timeline.index.json"
    case TestimonyList => "/data/" + lang + "/" + code + "/testimonies.index.json"
    case ResistanceList => "/data/" + lang + "/" + code + "/resistance/resistance.index.json"
    case FototecaList => "/data/" + lang + "/" + code + "/fototeca/fototeca.index.json"
    case AnalystList => "/data/" + lang + "/" + code + "/analysts.index.json"
  }

  function EventPath(lang: string, code: string, eventId: string): string {
    "/data/" + lang + "/" + code + "/timeline/" + eventId + ".json"
  }

  /** The three profile kinds and their pieces: witnesses with testimonies, resistors with
      entries, analysts with analyses. */
  datatype ProfileKind = Witness | Resistor | Analyst

  function ProfilePath(kind: ProfileKind, lang: string, code: string, id: string): string {
    match kind
    case Witness => "/data/" + lang + "/" + code + "/testimonies/" + id + ".json"
    case Resistor => "/data/" + lang + "/" + code + "/resistance/" + id + ".json"
    case Analyst => "/data/" + lang + "/" + code + "/analysts/" + id + ".json"
  }

  function PiecePath(kind: ProfileKind, lang: string, code: string, parentId: string, id: string): string {
    match kind
    case Witness => "/data/" + lang + "/" + code + "/testimonies/" + parentId + "/" + id + ".json"
    case Resistor => "/data/" + lang + "/" + code + "/resistance/" + parentId + "/" + id + ".json"
    case Analyst => "/data/" + lang + "/" + code + "/analysts/" + parentId + "/" + id + ".json"
  }

  function VelumIndexPath(lang: string): string {
    "/data/" + lang + "/velum/velum.index.json"
  }

  function ArticlePath(lang: string, articleId: string): string {
    "/data/" + lang + "/velum/" + articleId + ".json"
  }

  function TerminologyPath(lang: string): string {
    "/data/" + lang + "/terminology.json"
  }

  function TerminologyIndexPath(lang: string): string {
    "/data/" + lang + "/terminology.index.json"
  }

  function ByLetterPath(lang: string, category: string, letter: string): string {
    "/data/" + lang + "/terminology/" + category + "/" + Text.Lower(letter) + ".json"
  }

  // ---------------------------------------------------------------------------------------
  // Shaping database rows into response bodies

  function Obj1(k: string, v: Json): Json {
    JObj(map[k := v])
  }

  /** How a response field is computed from its column. */
  datatype Norm = AsIs | ListColumn | ObjectColumn

  /** Response field `key` taken from column `column`. */
  datatype Field = Field(key: string, column: string, norm: Norm)

  function Plain(name: string): Field {
    Field(name, name, AsIs)
  }

  function NormalizeField(f: Field, row: Row, parse: string -> Option<Json>): Option<Json> {
    match f.norm
    case AsIs => Some(Column(row, f.column))
    case ListColumn => NormalizeColumn(Column(row, f.column), EmptyList, parse)
    case ObjectColumn => NormalizeColumn(Column(row, f.column), EmptyObject, parse)
  }

  /** The response keys of a field list. */
  function KeysOf(spec: seq<Field>): (keys: set<string>)
    ensures forall i :: 0 <= i < |spec| ==> spec[i].key in keys
  {
    if spec == [] then {} else KeysOf(spec[..|spec| - 1]) + {spec[|spec| - 1].key}
  }

  /** No later field of `spec` has the key of field `i` (so its value is the one the object
      literal keeps). */
  predicate LastWithKey(spec: seq<Field>, i: int)
    requires 0 <= i < |spec|
  {
    forall j :: i < j < |spec| ==> spec[j].key != spec[i].key
  }

  /** The object literal a handler builds from one row; None when a `JSON.parse` throws. */
  function ShapeRow(spec: seq<Field>, row: Row, parse: string -> Option<Json>): (r: Option<Row>)
    ensures r.None? <==> exists i :: 0 <= i < |spec| && NormalizeField(spec[i], row, parse).None?
    ensures r.Some? ==> r.value.Keys == KeysOf(spec)
    ensures r.Some? ==> forall i :: 0 <= i < |spec| && LastWithKey(spec, i) ==>
      NormalizeField(spec[i], row, parse) == Some(r.value[spec[i].key])
  {
    if spec == [] then Some(map[])
    else
      var init := spec[..|spec| - 1];
      var last := spec[|spec| - 1];
      var rest := ShapeRow(init, row, parse);
      var v := NormalizeField(last, row, parse);
      assert forall i :: 0 <= i < |init| ==> init[i] == spec[i];
      if v.None? || rest.None? then
        None
      else
        assert forall i :: 0 <= i < |init| && LastWithKey(spec, i) ==> LastWithKey(init, i);
        Some(rest.value[last.key := v.value])
  }

  // ---------------------------------------------------------------------------------------
  // GET /countries

  function CountriesBody(rows: seq<Json>): Json {
    Obj1("countries", JArr(rows))
  }

  function CountriesRoute(langParam: Option<string>, db: DbOutcome<seq<Json>>, snap: Snapshot): (r: Reply)
    ensures db.Found? ==> r == Reply(Database, CountriesBody(db.value))
    ensures r.source == SnapshotFile ==> LoadJsonFallback(snap, CountriesPath(Lang(langParam))) == Some(r.body)
    ensures r.source == BuiltInDefault ==> r.body == CountriesBody([])
  {
    Handle(db, (rows: seq<Json>) => Some(CountriesBody(rows)), snap, CountriesPath(Lang(langParam)), CountriesBody([]))
  }

  // ---------------------------------------------------------------------------------------
  // GET /countries/:code/meta

  const VelumSection: Json := JObj(map["id" := JStr("velum"), "label" := JStr("VELUM")])

  /** `s.id === 'velum'`. */
  predicate IsVelum(s: Json) {
    Get(s, "id") == JStr("velum")
  }

  predicate HasVelum(sections: seq<Json>) {
    exists i :: 0 <= i < |sections| && IsVelum(sections[i])
  }

  /** "Ensure VELUM is included": push the VELUM section when no section has id 'velum'. */
  function EnsureVelum(sections: seq<Json>): (r: seq<Json>)
    ensures HasVelum(r)
    ensures |sections| <= |r| <= |sections| + 1 && r[..|sections|] == sections
    ensures r == sections <==> HasVelum(sections)
    ensures |r| == |sections| + 1 ==> r[|sections|] == VelumSection
  {
    if HasVelum(sections) then sections
    else
      assert IsVelum((sections + [VelumSection])[|sections|]);
      sections + [VelumSection]
  }

  /** Ensuring the VELUM section twice is the same as once. */
  lemma EnsureVelumIdempotent(sections: seq<Json>)
    ensures EnsureVelum(EnsureVelum(sections)) == EnsureVelum(sections)
  {
  }

  /** `sections.some(s => s.id === 'velum')`: whether some section is VELUM, scanning from the
      front and stopping at the first one; None when the scan reaches a null section first,
      whose `s.id` throws. */
  function SomeVelum(sections: seq<Json>): (r: Option<bool>)
    ensures r.Some? ==> r.value == HasVelum(sections)
    ensures r.None? <==> exists i :: 0 <= i < |sections| && sections[i].JNull? && !HasVelum(sections[..i])
  {
    if sections == [] then Some(false)
    else
      match Prop(sections[0], "id")
      case None =>
        assert sections[..0] == [];
        None
      case Some(id) =>
        if id == JStr("velum") then Some(true)
        else
          var rest := sections[1..];
          assert forall i :: 0 <= i < |rest| ==> rest[i] == sections[i + 1];
          assert forall i :: 1 <= i <= |sections| ==> sections[..i] == [sections[0]] + rest[..i - 1];
          assert HasVelum(sections) <==> HasVelum(rest) by {
            if HasVelum(sections) {
              var i :| 0 <= i < |sections| && IsVelum(sections[i]);
              assert i != 0 && IsVelum(rest[i - 1]);
            }
          }
          SomeVelum(rest)
  }

  /** The rows of the meta route: the country row and its section rows in `sort_order`. */
  datatype MetaRows = MetaRows(country: Row, sections: seq<Row>)

  function MetaBody(code: Json, name: Json, sections: seq<Json>): Json {
    JObj(map["code" := code, "name" := name, "sections" := JArr(sections)])
  }

  /** The body when neither source has the country. */
  function DefaultMeta(code: string): Json {
    MetaBody(JStr(code), JStr(code), [VelumSection])
  }

  /** The snapshot document with VELUM ensured in its `sections`, pushed in place; None when
      the handler throws there: `fallback.sections` is not a list (`.some` is not a function),
      or `.some` reaches a null section before a VELUM one. */
  function PatchMetaSnapshot(doc: Json): (r: Option<Json>)
    ensures r.Some? <==> doc.JObj? && Get(doc, "sections").JArr? && SomeVelum(Get(doc, "sections").elems).Some?
    ensures r.Some? ==> r.value == JObj(doc.fields["sections" := JArr(EnsureVelum(Get(doc, "sections").elems))])
  {
    if doc.JObj? && "sections" in doc.fields && doc.fields["sections"].JArr? && SomeVelum(doc.fields["sections"].elems).Some? then
      Some(JObj(doc.fields["sections" := JArr(EnsureVelum(doc.fields["sections"].elems))]))
    else None
  }

  /** None when the handler throws outside its `try` (a truthy snapshot whose `sections` the
      VELUM check cannot scan), and Express never answers the request. The section rows of the
      database are objects, so its VELUM check cannot throw. */
  function MetaRoute(code: string, langParam: Option<string>, db: DbOutcome<MetaRows>, snap: Snapshot): (r: Option<Reply>)
    ensures db.Found? ==> r == Some(Reply(Database, MetaBody(Column(db.value.country, "code"), Column(db.value.country, "name"), EnsureVelum(Objects(db.value.sections)))))
    ensures r.Some? && r.value.source == SnapshotFile ==>
      MetaPath(Lang(langParam), code) in snap && PatchMetaSnapshot(snap[MetaPath(Lang(langParam), code)]) == Some(r.value.body)
    ensures r.Some? && r.value.source == BuiltInDefault ==> r.value.body == DefaultMeta(code)
    ensures r.None? <==> !db.Found? && MetaPath(Lang(langParam), code) in snap && Truthy(snap[MetaPath(Lang(langParam), code)])
                         && PatchMetaSnapshot(snap[MetaPath(Lang(langParam), code)]).None?
  {
    if db.Found? then
      Some(Reply(Database, MetaBody(Column(db.value.country, "code"), Column(db.value.country, "name"), EnsureVelum(Objects(db.value.sections)))))
    else
      match LoadJsonFallback(snap, MetaPath(Lang(langParam), code))
      case None => Some(Reply(BuiltInDefault, DefaultMeta(code)))
      case Some(doc) =>
        if !Truthy(doc) then Some(Reply(BuiltInDefault, DefaultMeta(code)))
        else match PatchMetaSnapshot(doc)
          case None => None
          case Some(patched) => Some(Reply(SnapshotFile, patched))
  }

  /** A null section before any VELUM one in the snapshot leaves the request unanswered when
      the database does not answer. */
  lemma NullSectionLeavesMetaUnanswered(code: string, langParam: Option<string>, snap: Snapshot)
    requires var path := MetaPath(Lang(langParam), code);
      path in snap && snap[path] == JObj(map["sections" := JArr([JNull, VelumSection])])
    ensures MetaRoute(code, langParam, Unreachable, snap).None?
  {
    var elems := [JNull, VelumSection];
    assert elems[0].JNull? && !HasVelum(elems[..0]);
  }

  /** Whatever source answers, the meta `sections` list includes a VELUM entry. */
  lemma MetaAlwaysListsVelum(code: string, langParam: Option<string>, db: DbOutcome<MetaRows>, snap: Snapshot)
    requires MetaRoute(code, langParam, db, snap).Some?
    ensures Get(MetaRoute(code, langParam, db, snap).value.body, "sections").JArr?
    ensures HasVelum(Get(MetaRoute(code, langParam, db, snap).value.body, "sections").elems)
  {
    var r := MetaRoute(code, langParam, db, snap).value;
    if r.source == BuiltInDefault {
      assert IsVelum([VelumSection][0]);
    }
  }

  // ---------------------------------------------------------------------------------------
  // GET /countries/:code/description

  function DescriptionBody(title: Json, chapters: Json): Json {
    JObj(map["title" := title, "chapters" := chapters])
  }

  /** A country that exists but has no description row. */
  const UntitledDescription: Json := DescriptionBody(JStr("Descripción del Conflicto"), EmptyList)

  /** Neither source has a description. */
  const EmptyDescription: Json := DescriptionBody(JStr(""), EmptyList)

  /** The description row, if the country has one. */
  function DescriptionShape(desc: Option<Row>, parse: string -> Option<Json>): Option<Json> {
    match desc
    case None => Some(UntitledDescription)
    case Some(d) =>
      match NormalizeColumn(Column(d, "chapters"), EmptyList, parse)
      case None => None
      case Some(chapters) => Some(DescriptionBody(Column(d, "title"), chapters))
  }

  function DescriptionRoute(code: string, langParam: Option<string>, db: DbOutcome<Option<Row>>,
                            parse: string -> Option<Json>, snap: Snapshot): (r: Reply)
    ensures db == Found(None) ==> r == Reply(Database, UntitledDescription)
    ensures db.Found? && db.value.Some? ==>
      (r.source == Database <==> NormalizeColumn(Column(db.value.value, "chapters"), EmptyList, parse).Some?)
    ensures db.Found? && db.value.Some? && r.source == Database ==>
      r.body == DescriptionBody(Column(db.value.value, "title"), NormalizeColumn(Column(db.value.value, "chapters"), EmptyList, parse).value)
    ensures !db.Found? ==> r.source != Database
    ensures r.source == SnapshotFile ==> LoadJsonFallback(snap, DescriptionPath(Lang(langParam), code)) == Some(r.body)
    ensures r.source == BuiltInDefault ==> r.body == EmptyDescription
  {
    Handle(db, (d: Option<Row>) => DescriptionShape(d, parse), snap, DescriptionPath(Lang(langParam), code), EmptyDescription)
  }

  /** A present country without a description row answers the fixed title from the database,
      whatever the snapshot holds. */
  lemma MissingDescriptionDoesNotFallBack(code: string, langParam: Option<string>, parse: string -> Option<Json>, snap1: Snapshot, snap2: Snapshot)
    ensures DescriptionRoute(code, langParam, Found(None), parse, snap1) == DescriptionRoute(code, langParam, Found(None), parse, snap2)
  {
  }

  // ---------------------------------------------------------------------------------------
  // GET /countries/:code/{timeline,testimonies,resistance,fototeca,analysts}

  /** `rows` are the child rows of a country that exists (possibly none). */
  function CountryListRoute(kind: CountryList, code: string, langParam: Option<string>, db: DbOutcome<seq<Json>>, snap: Snapshot): (r: Reply)
    ensures db.Found? ==> r == Reply(Database, ItemsBody(db.value))
    ensures !db.Found? ==> r.source != Database
    ensures r.source == SnapshotFile ==> LoadJsonFallback(snap, ListPath(kind, Lang(langParam), code)) == Some(r.body)
    ensures r.source == BuiltInDefault ==> r.body == ItemsBody([])
  {
    Handle(db, (rows: seq<Json>) => Some(ItemsBody(rows)), snap, ListPath(kind, Lang(langParam), code), ItemsBody([]))
  }

  /** A country that exists with no child rows answers `{items: []}` from the database and
      does not consult the snapshot; a missing country row falls through like an outage. */
  lemma EmptyCountryDoesNotFallBack(kind: CountryList, code: string, langParam: Option<string>, snap: Snapshot)
    ensures CountryListRoute(kind, code, langParam, Found([]), snap) == Reply(Database, ItemsBody([]))
    ensures CountryListRoute(kind, code, langParam, ParentMissing, snap) == CountryListRoute(kind, code, langParam, Unreachable, map[])
        <==> !(ListPath(kind, Lang(langParam), code) in snap && Truthy(snap[ListPath(kind, Lang(langParam), code)]))
  {
  }

  // ---------------------------------------------------------------------------------------
  // Detail routes

  const EventFields: seq<Field> := [
    Field("id", "event_id", AsIs), Plain("date"), Plain("year"), Plain("month"), Plain("title"),
    Plain("summary"), Plain("image"), Plain("video"), Field("paragraphs", "paragraphs", ListColumn),
    Field("contentBlocks", "content_blocks", ListColumn), Field("sources", "sources", ListColumn)]

  /** A testimony, a resistance entry or an analysis (selected with `<x>_id as id`). */
  const PieceFields: seq<Field> := [
    Plain("id"), Plain("title"), Plain("summary"), Plain("date"), Field("paragraphs", "paragraphs", ListColumn),
    Field("contentBlocks", "content_blocks", ListColumn), Field("media", "media", ListColumn)]

  function ProfileIdColumn(kind: ProfileKind): string {
    match kind
    case Witness => "witness_id"
    case Resistor => "resistor_id"
    case Analyst => "analyst_id"
  }

  function ChildrenKey(kind: ProfileKind): string {
    match kind
    case Witness => "testimonies"
    case Resistor => "entries"
    case Analyst => "analyses"
  }

  function ProfileFields(kind: ProfileKind): seq<Field> {
    [Field("id", ProfileIdColumn(kind), AsIs), Plain("name"), Plain("bio"), Plain("image"), Field("social", "social", ObjectColumn)]
  }

  const ArticleFields: seq<Field> := [
    Field("id", "article_id", AsIs), Plain("title"), Plain("subtitle"), Plain("author"),
    Field("authorImage", "author_image", AsIs), Field("coverImage", "cover_image", AsIs), Plain("date"),
    Plain("abstract"), Field("keywords", "keywords", ListColumn), Field("sections", "sections", ListColumn),
    Field("bibliography", "bibliography", ListColumn)]

  /** The term detail (selected with `term_id as id, related_terms as relatedTerms`). */
  const TermFields: seq<Field> := [
    Plain("id"), Plain("term"), Plain("definition"), Plain("category"),
    Field("relatedTerms", "relatedTerms", ListColumn), Field("sources", "sources", ListColumn)]

  function ShapeObject(spec: seq<Field>, row: Row, parse: string -> Option<Json>): Option<Json> {
    match ShapeRow(spec, row, parse)
    case None => None
    case Some(fields) => Some(JObj(fields))
  }

  /** GET /countries/:code/timeline/:eventId */
  function EventRoute(code: string, eventId: string, langParam: Option<string>, db: DbOutcome<Row>,
                      parse: string -> Option<Json>, snap: Snapshot): (r: Reply)
    ensures r.source == Database <==> db.Found? && ShapeRow(EventFields, db.value, parse).Some?
    ensures r.source == Database ==> r.body == JObj(ShapeRow(EventFields, db.value, parse).value)
    ensures r.source == SnapshotFile ==> LoadJsonFallback(snap, EventPath(Lang(langParam), code, eventId)) == Some(r.body)
    ensures r.source == BuiltInDefault ==> r.body == JNull
  {
    Handle(db, (row: Row) => ShapeObject(EventFields, row, parse), snap, EventPath(Lang(langParam), code, eventId), JNull)
  }

  /** The profile row and the rows of its pieces. */
  datatype ProfileRows = ProfileRows(profile: Row, children: seq<Row>)

  function ProfileShape(kind: ProfileKind, p: ProfileRows, parse: string -> Option<Json>): Option<Json> {
    match ShapeRow(ProfileFields(kind), p.profile, parse)
    case None => None
    case Some(fields) =>
      match MapRows(row => ShapeRow(PieceFields, row, parse), p.children)
      case None => None
      case Some(children) => Some(JObj(fields[ChildrenKey(kind) := JArr(children)]))
  }

  /** GET /countries/:code/{testimonies,resistance,analysts}/:id */
  function ProfileRoute(kind: ProfileKind, code: string, id: string, langParam: Option<string>, db: DbOutcome<ProfileRows>,
                        parse: string -> Option<Json>, snap: Snapshot): (r: Reply)
    ensures r.source == Database <==> db.Found? && ProfileShape(kind, db.value, parse).Some?
    ensures r.source == Database ==> r.body == ProfileShape(kind, db.value, parse).value
    ensures r.source == Database ==>
      Get(r.body, ChildrenKey(kind)).JArr? && |Get(r.body, ChildrenKey(kind)).elems| == |db.value.children|
    ensures r.source == SnapshotFile ==> LoadJsonFallback(snap, ProfilePath(kind, Lang(langParam), code, id)) == Some(r.body)
    ensures r.source == BuiltInDefault ==> r.body == JNull
  {
    Handle(db, (p: ProfileRows) => ProfileShape(kind, p, parse), snap, ProfilePath(kind, Lang(langParam), code, id), JNull)
  }

  /** GET /countries/:code/{testimonies,resistance,analysts}/:parentId/:id */
  function PieceRoute(kind: ProfileKind, code: string, parentId: string, id: string, langParam: Option<string>,
                      db: DbOutcome<Row>, parse: string -> Option<Json>, snap: Snapshot): (r: Reply)
    ensures r.source == Database <==> db.Found? && ShapeRow(PieceFields, db.value, parse).Some?
    ensures r.source == Database ==> r.body == JObj(ShapeRow(PieceFields, db.value, parse).value)
    ensures r.source == SnapshotFile ==> LoadJsonFallback(snap, PiecePath(kind, Lang(langParam), code, parentId, id)) == Some(r.body)
    ensures r.source == BuiltInDefault ==> r.body == JNull
  {
    Handle(db, (row: Row) => ShapeObject(PieceFields, row, parse), snap, PiecePath(kind, Lang(langParam), code, parentId, id), JNull)
  }

  /** GET /velum/:articleId */
  function ArticleRoute(articleId: string, langParam: Option<string>, db: DbOutcome<Row>,
                        parse: string -> Option<Json>, snap: Snapshot): (r: Reply)
    ensures r.source == Database <==> db.Found? && ShapeRow(ArticleFields, db.value, parse).Some?
    ensures r.source == Database ==> r.body == JObj(ShapeRow(ArticleFields, db.value, parse).value)
    ensures r.source == SnapshotFile ==> LoadJsonFallback(snap, ArticlePath(Lang(langParam), articleId)) == Some(r.body)
    ensures r.source == BuiltInDefault ==> r.body == JNull
  {
    Handle(db, (row: Row) => ShapeObject(ArticleFields, row, parse), snap, ArticlePath(Lang(langParam), articleId), JNull)
  }

  /** A JSON list column of a shaped row: a string is parsed (a string that does not parse
      sends the request to the snapshot), a truthy value is kept, a falsy one becomes `[]`. */
  lemma ListColumnValue(spec: seq<Field>, i: int, row: Row, parse: string -> Option<Json>)
    requires 0 <= i < |spec| && LastWithKey(spec, i) && spec[i].norm == ListColumn
    requires ShapeRow(spec, row, parse).Some?
    ensures var col := Column(row, spec[i].column);
      var v := ShapeRow(spec, row, parse).value[spec[i].key];
      (col.JStr? ==> parse(col.s) == Some(v)) &&
      (!col.JStr? && Truthy(col) ==> v == col) &&
      (!col.JStr? && !Truthy(col) ==> v == EmptyList)
  {
    assert NormalizeField(spec[i], row, parse) == Some(ShapeRow(spec, row, parse).value[spec[i].key]);
  }

  /** The timeline event's JSON columns and its renamed id, at their positions in the field list. */
  lemma EventFieldsLayout()
    ensures EventFields[0] == Field("id", "event_id", AsIs) && LastWithKey(EventFields, 0)
    ensures EventFields[8] == Field("paragraphs", "paragraphs", ListColumn) && LastWithKey(EventFields, 8)
    ensures EventFields[9] == Field("contentBlocks", "content_blocks", ListColumn) && LastWithKey(EventFields, 9)
    ensures EventFields[10] == Field("sources", "sources", ListColumn) && LastWithKey(EventFields, 10)
  {
  }

  /** An event's null `paragraphs` becomes `[]` and its `content_blocks` string is parsed. */
  lemma EventColumnsNormalised(row: Row, parse: string -> Option<Json>)
    requires ShapeRow(EventFields, row, parse).Some?
    ensures "paragraphs" in ShapeRow(EventFields, row, parse).value && "contentBlocks" in ShapeRow(EventFields, row, parse).value
    ensures Column(row, "paragraphs") == JNull ==> ShapeRow(EventFields, row, parse).value["paragraphs"] == EmptyList
    ensures Column(row, "content_blocks").JStr? ==>
      parse(Column(row, "content_blocks").s) == Some(ShapeRow(EventFields, row, parse).value["contentBlocks"])
  {
    EventFieldsLayout();
    ListColumnValue(EventFields, 8, row, parse);
    ListColumnValue(EventFields, 9, row, parse);
  }

  /** A profile's `social` column defaults to `{}`, not `[]`. */
  lemma SocialDefaultsToObject(kind: ProfileKind, row: Row, parse: string -> Option<Json>)
    requires Column(row, "social") == JNull
    requires ShapeRow(ProfileFields(kind), row, parse).Some?
    ensures ShapeRow(ProfileFields(kind), row, parse).value["social"] == EmptyObject
  {
    var spec := ProfileFields(kind);
    assert LastWithKey(spec, 4);
    assert NormalizeField(spec[4], row, parse) == Some(ShapeRow(spec, row, parse).value["social"]);
  }

  // ---------------------------------------------------------------------------------------
  // GET /velum and GET /terminology

  function VelumListRoute(langParam: Option<string>, db: DbOutcome<seq<Row>>, parse: string -> Option<Json>, snap: Snapshot): (r: Reply)
    ensures r.source == Database <==> db.Found? && forall i :: 0 <= i < |db.value| ==> OverlayLists(db.value[i], ["keywords"], parse).Some?
    ensures r.source == Database ==> Get(r.body, "items").JArr? && |Get(r.body, "items").elems| == |db.value|
    ensures r.source == Database ==> forall i :: 0 <= i < |db.value| ==>
      Some(Get(Get(r.body, "items").elems[i], "keywords")) == NormalizeColumn(Column(db.value[i], "keywords"), EmptyList, parse) &&
      Get(r.body, "items").elems[i] == JObj(OverlayLists(db.value[i], ["keywords"], parse).value)
    ensures r.source == SnapshotFile ==> LoadJsonFallback(snap, VelumIndexPath(Lang(langParam))) == Some(r.body)
    ensures r.source == BuiltInDefault ==> r.body == ItemsBody([])
  {
    Handle(db, (rows: seq<Row>) => match MapRows(row => OverlayLists(row, ["keywords"], parse), rows) case None => None case Some(items) => Some(ItemsBody(items)),
           snap, VelumIndexPath(Lang(langParam)), ItemsBody([]))
  }

  function TerminologyRoute(langParam: Option<string>, db: DbOutcome<seq<Row>>, parse: string -> Option<Json>, snap: Snapshot): (r: Reply)
    ensures r.source == Database <==> db.Found? && forall i :: 0 <= i < |db.value| ==> OverlayLists(db.value[i], ["relatedTerms", "sources"], parse).Some?
    ensures r.source == Database ==> Get(r.body, "items").JArr? && |Get(r.body, "items").elems| == |db.value|
    ensures r.source == Database ==> forall i :: 0 <= i < |db.value| ==>
      Get(r.body, "items").elems[i] == JObj(OverlayLists(db.value[i], ["relatedTerms", "sources"], parse).value)
    ensures r.source == SnapshotFile ==> LoadJsonFallback(snap, TerminologyPath(Lang(langParam))) == Some(r.body)
    ensures r.source == BuiltInDefault ==> r.body == ItemsBody([])
  {
    Handle(db, (rows: seq<Row>) => match MapRows(row => OverlayLists(row, ["relatedTerms", "sources"], parse), rows) case None => None case Some(items) => Some(ItemsBody(items)),
           snap, TerminologyPath(Lang(langParam)), ItemsBody([]))
  }

  // ---------------------------------------------------------------------------------------
  // Category ids: GET /terminology/index renames singular database categories to plural ids,
  // GET /terminology/category/:category/:letter maps them back.

  /** `categoryMapping[c] || c` of the index route. */
  function IndexCategory(c: string): string {
    if c == "personaje" then "personajes"
    else if c == "organizacion" then "organizaciones"
    else if c == "concepto" then "conceptos"
    else if c == "general" then "general"
    else if c == "lugar" then "lugares"
    else if c == "evento" then "eventos"
    else c
  }

  /** `categoryMapping[c] || c` of the category/letter route. */
  function DbCategory(c: string): string {
    if c == "personajes" then "personaje"
    else if c == "organizaciones" then "organizacion"
    else if c == "conceptos" then "concepto"
    else if c == "general" then "general"
    else if c == "lugares" then "lugar"
    else if c == "eventos" then "evento"
    else c
  }

  const DbCategories: set<string> := {"personaje", "organizacion", "concepto", "general", "lugar", "evento"}
  const IndexIds: set<string> := {"personajes", "organizaciones", "conceptos", "general", "lugares", "eventos"}

  /** The two mappings are inverse on the six known categories, and every other id passes
      through either of them unchanged. */
  lemma CategoryMappingsInverse(c: string)
    ensures c in DbCategories ==> IndexCategory(c) in IndexIds && DbCategory(IndexCategory(c)) == c
    ensures c in IndexIds ==> DbCategory(c) in DbCategories && IndexCategory(DbCategory(c)) == c
    ensures c !in DbCategories ==> IndexCategory(c) == c
    ensures c !in IndexIds ==> DbCategory(c) == c
  {
  }

  /** The parameters the category/letter route binds into its query: language, database
      category and lower-cased letter. */
  datatype LetterQuery = LetterQuery(lang: string, category: string, letter: string)

  function ByLetterQuery(category: string, letter: string, langParam: Option<string>): (q: LetterQuery)
    ensures q.letter == Text.Lower(letter) && q.lang == Lang(langParam)
    ensures category in IndexIds ==> q.category in DbCategories
  {
    LetterQuery(Lang(langParam), DbCategory(category), Text.Lower(letter))
  }

  function ByLetterRoute(category: string, letter: string, langParam: Option<string>, db: DbOutcome<seq<Row>>,
                         parse: string -> Option<Json>, snap: Snapshot): (r: Reply)
    ensures r.source == Database <==> db.Found? && forall i :: 0 <= i < |db.value| ==> OverlayLists(db.value[i], ["relatedTerms", "sources"], parse).Some?
    ensures r.source == Database ==> Get(r.body, "items").JArr? && |Get(r.body, "items").elems| == |db.value|
    ensures r.source == Database ==> forall i :: 0 <= i < |db.value| ==>
      Get(r.body, "items").elems[i] == JObj(OverlayLists(db.value[i], ["relatedTerms", "sources"], parse).value)
    ensures r.source == SnapshotFile ==> LoadJsonFallback(snap, ByLetterPath(Lang(langParam), category, letter)) == Some(r.body)
    ensures r.source == BuiltInDefault ==> r.body == ItemsBody([])
  {
    Handle(db, (rows: seq<Row>) => match MapRows(row => OverlayLists(row, ["relatedTerms", "sources"], parse), rows) case None => None case Some(items) => Some(ItemsBody(items)),
           snap, ByLetterPath(Lang(langParam), category, letter), ItemsBody([]))
  }

  /** The letter is lower-cased alike for the query and the snapshot path, while the snapshot
      path keeps the plural category of the URL. */
  lemma ByLetterLowercasesBoth(category: string, letter: string, langParam: Option<string>)
    ensures ByLetterQuery(category, letter, langParam).letter == Text.Lower(letter)
    ensures ByLetterPath(Lang(langParam), category, letter) == ByLetterPath(Lang(langParam), category, Text.Lower(letter))
  {
    Text.LowerIdempotent(letter);
  }

  // ---------------------------------------------------------------------------------------
  // GET /terminology/:termId has no snapshot: a database miss answers null.

  function TermRoute(termId: string, langParam: Option<string>, db: DbOutcome<Row>, parse: string -> Option<Json>): (r: Reply)
    ensures r.source != SnapshotFile
    ensures r.source == Database <==> db.Found? && ShapeRow(TermFields, db.value, parse).Some?
    ensures r.source == Database ==> r.body == JObj(ShapeRow(TermFields, db.value, parse).value)
    ensures r.source == BuiltInDefault ==> r.body == JNull
  {
    if db.Found? && ShapeObject(TermFields, db.value, parse).Some? then Reply(Database, ShapeObject(TermFields, db.value, parse).value)
    else Reply(BuiltInDefault, JNull)
  }

  // ---------------------------------------------------------------------------------------
  // GET /terminology/index

  /** The two columns the index route selects. */
  datatype TermRow = TermRow(term: string, category: string)

  /** `t.term.charAt(0).toLowerCase()`. */
  function FirstLetter(term: string): string {
    if term == "" then "" else [Text.LowerChar(term[0])]
  }

  /** `/[a-z]/.test(letter)` for a string of at most one character. */
  predicate IsIndexLetter(letter: string) {
    |letter| == 1 && 'a' <= letter[0] <= 'z'
  }

  /** The renamed category ids in order of first appearance (the key order of `categoriesMap`). */
  function CategoryIds(terms: seq<TermRow>): seq<string> {
    if terms == [] then []
    else
      var prev := CategoryIds(terms[..|terms| - 1]);
      var id := IndexCategory(terms[|terms| - 1].category);
      if id in prev then prev else prev + [id]
  }

  /** The qualifying first letters of the terms of category `id`, in order of first appearance
      (the insertion order of that category's `Set`). */
  function LettersSeen(terms: seq<TermRow>, id: string): seq<string> {
    if terms == [] then []
    else
      var prev := LettersSeen(terms[..|terms| - 1], id);
      var t := terms[|terms| - 1];
      var letter := FirstLetter(t.term);
      if IndexCategory(t.category) == id && IsIndexLetter(letter) && letter !in prev then prev + [letter] else prev
  }

  /** The index: each category id with its letters sorted. */
  function IndexSpec(terms: seq<TermRow>): seq<(string, seq<string>)> {
    var ids := CategoryIds(terms);
    seq(|ids|, k requires 0 <= k < |ids| => (ids[k], Order.Sort(LettersSeen(terms, ids[k]))))
  }

  function IndexBody(categories: seq<(string, seq<string>)>): Json {
    Obj1("categories", JArr(seq(|categories|, k requires 0 <= k < |categories| =>
      JObj(map["id" := JStr(categories[k].0),
               "letters" := JArr(seq(|categories[k].1|, j requires 0 <= j < |categories[k].1| => JStr(categories[k].1[j])))]))))
  }

  /** The accumulators after the terms `seen`: the category ids in order and, for each, its
      letters so far. */
  ghost predicate IndexState(seen: seq<TermRow>, keys: seq<string>, letters: map<string, seq<string>>) {
    keys == CategoryIds(seen) &&
    (forall k :: k in letters <==> k in keys) &&
    (forall k :: k in letters ==> letters[k] == LettersSeen(seen, k))
  }

  /** One term of the `forEach`: its category id is added when new (with no letters), then its
      first letter when it qualifies and is new for that category. */
  lemma IndexStep(seen: seq<TermRow>, t: TermRow, keys: seq<string>, letters: map<string, seq<string>>,
                  keys': seq<string>, letters': map<string, seq<string>>)
    requires IndexState(seen, keys, letters)
    requires var id := IndexCategory(t.category);
      var base := if id in letters then letters[id] else [];
      var l := FirstLetter(t.term);
      keys' == (if id in letters then keys else keys + [id]) &&
      letters' == letters[id := if IsIndexLetter(l) && l !in base then base + [l] else base]
    ensures IndexState(seen + [t], keys', letters')
  {
    var all := seen + [t];
    assert all[..|all| - 1] == seen && all[|all| - 1] == t;
    var id := IndexCategory(t.category);
    if id !in letters {
      LettersOfAbsentCategory(seen, id);
    }
  }

  /** The `terms.forEach` that fills `categoriesMap`, then `Object.keys(...).map` with each
      letter set sorted. */
  method BuildIndex(terms: seq<TermRow>) returns (categories: seq<(string, seq<string>)>)
    ensures categories == IndexSpec(terms)
  {
    var keys: seq<string> := [];
    var letters: map<string, seq<string>> := map[];
    var i := 0;
    while i < |terms|
      invariant 0 <= i <= |terms|
      invariant IndexState(terms[..i], keys, letters)
    {
      var t := terms[i];
      ghost var keys0, letters0 := keys, letters;
      var catId := IndexCategory(t.category);
      if catId !in letters {
        keys := keys + [catId];
        letters := letters[catId := []];
      }
      var firstLetter := FirstLetter(t.term);
      if IsIndexLetter(firstLetter) && firstLetter !in letters[catId] {
        letters := letters[catId := letters[catId] + [firstLetter]];
      }
      IndexStep(terms[..i], t, keys0, letters0, keys, letters);
      assert terms[..i + 1] == terms[..i] + [t];
      i := i + 1;
    }
    assert terms[..i] == terms;
    categories := seq(|keys|, k requires 0 <= k < |keys| => (keys[k], Order.Sort(letters[keys[k]])));
  }

  /** A category that no term maps to has no letters. */
  lemma {:induction false} LettersOfAbsentCategory(terms: seq<TermRow>, id: string)
    requires id !in CategoryIds(terms)
    ensures LettersSeen(terms, id) == []
  {
    if terms != [] {
      LettersOfAbsentCategory(terms[..|terms| - 1], id);
    }
  }

  /** The category ids are distinct, and an id is listed exactly when some term's category
      maps to it, whether or not any of its terms yields a letter. */
  lemma {:induction false} CategoryIdsCorrect(terms: seq<TermRow>)
    ensures Order.Distinct(CategoryIds(terms))
    ensures forall id :: id in CategoryIds(terms) <==> exists i :: 0 <= i < |terms| && IndexCategory(terms[i].category) == id
  {
    if terms != [] {
      var init := terms[..|terms| - 1];
      CategoryIdsCorrect(init);
      forall id ensures id in CategoryIds(terms) <==> exists i :: 0 <= i < |terms| && IndexCategory(terms[i].category) == id {
        if id in CategoryIds(init) {
          var i :| 0 <= i < |init| && IndexCategory(init[i].category) == id;
          assert terms[i] == init[i];
        }
        if exists i :: 0 <= i < |terms| && IndexCategory(terms[i].category) == id {
          var i :| 0 <= i < |terms| && IndexCategory(terms[i].category) == id;
          if i < |init| {
            assert init[i] == terms[i];
          }
        }
      }
    }
  }

  /** The letters seen for a category are distinct single letters a-z, and a letter is seen
      exactly when some term of that category starts with it (in either case). */
  lemma {:induction false} LettersSeenCorrect(terms: seq<TermRow>, id: string)
    ensures Order.Distinct(LettersSeen(terms, id))
    ensures forall l :: l in LettersSeen(terms, id) <==>
      IsIndexLetter(l) && exists i :: 0 <= i < |terms| && IndexCategory(terms[i].category) == id && FirstLetter(terms[i].term) == l
  {
    if terms != [] {
      var init := terms[..|terms| - 1];
      LettersSeenCorrect(init, id);
      forall l ensures l in LettersSeen(terms, id) <==>
        IsIndexLetter(l) && exists i :: 0 <= i < |terms| && IndexCategory(terms[i].category) == id && FirstLetter(terms[i].term) == l
      {
        if l in LettersSeen(init, id) {
          var i :| 0 <= i < |init| && IndexCategory(init[i].category) == id && FirstLetter(init[i].term) == l;
          assert terms[i] == init[i];
        }
        if IsIndexLetter(l) && exists i :: 0 <= i < |terms| && IndexCategory(terms[i].category) == id && FirstLetter(terms[i].term) == l {
          var i :| 0 <= i < |terms| && IndexCategory(terms[i].category) == id && FirstLetter(terms[i].term) == l;
          if i < |init| {
            assert init[i] == terms[i];
          }
        }
      }
    }
  }

  /** Each entry of the index: distinct ids in order of first appearance, each with its
      qualifying letters sorted and without repetition. */
  lemma IndexCorrect(terms: seq<TermRow>, k: int)
    requires 0 <= k < |IndexSpec(terms)|
    ensures IndexSpec(terms)[k].0 == CategoryIds(terms)[k]
    ensures Order.Sorted(IndexSpec(terms)[k].1) && Order.Distinct(IndexSpec(terms)[k].1)
    ensures forall l :: l in IndexSpec(terms)[k].1 <==>
      IsIndexLetter(l) && exists i :: 0 <= i < |terms| && IndexCategory(terms[i].category) == IndexSpec(terms)[k].0 && FirstLetter(terms[i].term) == l
  {
    var id := CategoryIds(terms)[k];
    LettersSeenCorrect(terms, id);
    Order.SortDistinct(LettersSeen(terms, id));
  }

  /** GET /terminology/index */
  method TerminologyIndexRoute(langParam: Option<string>, db: DbOutcome<seq<TermRow>>, snap: Snapshot) returns (r: Reply)
    ensures r == Handle(db, (terms: seq<TermRow>) => Some(IndexBody(IndexSpec(terms))), snap,
                        TerminologyIndexPath(Lang(langParam)), Obj1("categories", EmptyList))
  {
    var fromDb: Option<Json> := None;
    if db.Found? {
      var categories := BuildIndex(db.value);
      fromDb := Some(IndexBody(categories));
    }
    r := Respond(fromDb, LoadJsonFallback(snap, TerminologyIndexPath(Lang(langParam))), Obj1("categories", EmptyList));
  }
}
