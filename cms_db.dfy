/** The CMS router backed by MySQL (server/routes/cms-db.js): the fototeca of a country
    (list, create, update, delete), the country description (read and upsert), a witness
    with its testimonies, the image gallery and the country list of the editor.
    Every handler runs inside one `try`: `fault` is Some(message) when the database cannot
    answer at all, and the handler then replies 500 with that message; `rejection` is the
    message MySQL gives when it refuses a statement, and `syntaxError` the message
    `JSON.parse` throws. */
module CmsDb {
  import opened Wrappers
  import opened Json
  import opened Schema
  import opened Http

  // ---------------------------------------------------------------------------------------
  // getCountryId

  /** `getCountryId(code)` followed by the handlers' `if (!countryId)`: the id of the first
      country with that code, unless it is missing or 0 (falsy). */
  function KnownCountry(countries: seq<Country>, code: string): (r: Option<nat>)
    ensures r.Some? <==> CountryIdByCode(countries, code).Some? && CountryIdByCode(countries, code).value != 0
    ensures r.Some? ==> r == CountryIdByCode(countries, code) && HasCountry(countries, r.value)
  {
    var found := CountryIdByCode(countries, code);
    if found.Some? && found.value != 0 then found else None
  }

  /** In a valid database no country has id 0, so the truthiness test only catches a
      missing country. */
  lemma KnownCountryInValidTables(countries: seq<Country>, fototeca: seq<Photo>, descriptions: seq<Description>,
                                  nextPhotoId: nat, code: string)
    requires TablesValid(countries, fototeca, descriptions, nextPhotoId)
    ensures KnownCountry(countries, code) == CountryIdByCode(countries, code)
  {
  }

  // ---------------------------------------------------------------------------------------
  // GET /countries/:countryCode/fototeca

  /** `ORDER BY created_at DESC`. */
  predicate NewestFirst(rows: seq<Photo>) {
    forall i, j :: 0 <= i < j < |rows| ==> rows[i].createdAt >= rows[j].createdAt
  }

  /** A row no older than every row of a newest-first list can head it. */
  lemma ConsNewestFirst(x: Photo, rest: seq<Photo>)
    requires NewestFirst(rest)
    requires forall q :: q in rest ==> q.createdAt <= x.createdAt
    ensures NewestFirst([x] + rest)
  {
    var r := [x] + rest;
    forall i, j | 0 <= i < j < |r| ensures r[i].createdAt >= r[j].createdAt {
      assert r[j] == rest[j - 1];
      if i > 0 {
        assert r[i] == rest[i - 1];
      }
    }
  }

  /** The head of a newest-first list is no older than any of its rows. */
  lemma HeadIsNewest(rows: seq<Photo>)
    requires NewestFirst(rows) && rows != []
    ensures forall q :: q in rows[1..] ==> q.createdAt <= rows[0].createdAt
  {
    forall q | q in rows[1..] ensures q.createdAt <= rows[0].createdAt {
      var k :| 0 <= k < |rows[1..]| && rows[1..][k] == q;
      assert rows[k + 1] == q;
    }
  }

  /** A row no older than the head of a newest-first list can go in front of it. */
  lemma NewerHead(p: Photo, rows: seq<Photo>)
    requires NewestFirst(rows) && (rows == [] || rows[0].createdAt <= p.createdAt)
    ensures NewestFirst([p] + rows)
  {
    if rows != [] {
      HeadIsNewest(rows);
    }
    ConsNewestFirst(p, rows);
  }

  /** Places `p` before the first row that is not newer than it. */
  function InsertByDate(p: Photo, rows: seq<Photo>): (r: seq<Photo>)
    requires NewestFirst(rows)
    ensures NewestFirst(r)
    ensures multiset(r) == multiset(rows) + multiset{p}
    ensures forall q :: q in r ==> q == p || q in rows
  {
    if rows == [] || rows[0].createdAt <= p.createdAt then
      NewerHead(p, rows);
      [p] + rows
    else
      var rest := InsertByDate(p, rows[1..]);
      assert rows == [rows[0]] + rows[1..];
      HeadIsNewest(rows);
      ConsNewestFirst(rows[0], rest);
      [rows[0]] + rest
  }

  /** The rows of a query sorted newest first (an insertion sort, stable on ties). */
  function SortNewestFirst(rows: seq<Photo>): (r: seq<Photo>)
    ensures NewestFirst(r)
    ensures multiset(r) == multiset(rows)
  {
    if rows == [] then []
    else
      assert rows == [rows[0]] + rows[1..];
      InsertByDate(rows[0], SortNewestFirst(rows[1..]))
  }

  /** A nullable text column in a response body. */
  function Nullable(v: Option<string>): Json {
    match v
    case None => JNull
    case Some(s) => JStr(s)
  }

  /** `SELECT item_id as id, title, description, date, type, url`. */
  function ItemJson(p: Photo): Json {
    JObj(map["id" := JStr(p.itemId), "title" := JStr(p.title), "description" := Nullable(p.description),
             "date" := Nullable(p.date), "type" := Nullable(p.mediaType), "url" := JStr(p.url)])
  }

  function ItemsJson(rows: seq<Photo>): seq<Json> {
    seq(|rows|, i requires 0 <= i < |rows| => ItemJson(rows[i]))
  }

  function OfCountry(countryId: nat): Photo -> bool {
    (p: Photo) => p.countryId == countryId
  }

  /** `WHERE country_id = ? ORDER BY created_at DESC`. */
  function CountryItems(fototeca: seq<Photo>, countryId: nat): seq<Photo> {
    SortNewestFirst(Where(fototeca, OfCountry(countryId)))
  }

  /** The listing handler: `{ items: [] }` for an unknown country, otherwise the country's
      items. */
  function ListFototeca(countries: seq<Country>, fototeca: seq<Photo>, code: string, fault: Option<string>): (r: Response)
    ensures fault.Some? ==> r == Failure(500, fault.value)
    ensures fault.None? ==> r.status == 200
    ensures fault.None? && KnownCountry(countries, code).None? ==> r == Ok(ItemsBody([]))
  {
    if fault.Some? then Failure(500, fault.value)
    else
      match KnownCountry(countries, code)
      case None => Ok(ItemsBody([]))
      case Some(id) => Ok(ItemsBody(ItemsJson(CountryItems(fototeca, id))))
  }

  /** For a known country the listing holds exactly that country's rows, each once, newest
      first. */
  lemma ListFototecaItems(countries: seq<Country>, fototeca: seq<Photo>, code: string)
    requires KnownCountry(countries, code).Some?
    ensures var rows := CountryItems(fototeca, KnownCountry(countries, code).value);
      ListFototeca(countries, fototeca, code, None) == Ok(ItemsBody(ItemsJson(rows))) &&
      NewestFirst(rows) &&
      multiset(rows) == multiset(Where(fototeca, OfCountry(KnownCountry(countries, code).value))) &&
      forall p :: p in rows <==> p in fototeca && p.countryId == KnownCountry(countries, code).value
  {
    var id := KnownCountry(countries, code).value;
    var rows := CountryItems(fototeca, id);
    var selected := Where(fototeca, OfCountry(id));
    forall p ensures p in rows <==> p in selected {
      assert p in rows <==> p in multiset(rows);
      assert p in selected <==> p in multiset(selected);
    }
  }

  // ---------------------------------------------------------------------------------------
  // POST /countries/:countryCode/fototeca

  /** JavaScript's `value || fallback` on a text field. */
  function OrText(v: Option<string>, fallback: string): (r: Option<string>)
    ensures r.Some?
    ensures v.Some? && v.value != "" ==> r == v
    ensures v.None? || v.value == "" ==> r == Some(fallback)
  {
    if v.Some? && v.value != "" then v else Some(fallback)
  }

  /** The insert of the create handler: `description || ''`, `date || ''`, `type || 'image'`;
      title and url as sent. */
  function CreateInsert(countryId: nat, itemId: string, body: PhotoValues): (ins: PhotoInsert)
    ensures ins.itemId == itemId && ins.countryId == countryId && ins.title == body.title && ins.url == body.url
    ensures ins.description.Some? && ins.date.Some? && ins.mediaType.Some?
    ensures body.description.None? ==> ins.description == Some("")
    ensures body.date.None? ==> ins.date == Some("")
    ensures body.mediaType.None? ==> ins.mediaType == Some("image")
  {
    PhotoInsert(itemId, countryId, body.title, OrText(body.description, ""), OrText(body.date, ""),
                OrText(body.mediaType, "image"), body.url)
  }

  /** `{ success: true }`. */
  const SuccessBody: Json := JObj(map["success" := JBool(true)])

  /** `{ success: true, item: { id: itemId, title, url } }`. */
  function CreatedBody(itemId: string, title: string, url: string): Json {
    JObj(map["success" := JBool(true),
             "item" := JObj(map["id" := JStr(itemId), "title" := JStr(title), "url" := JStr(url)])])
  }

  /** With a fresh item id, creating an item succeeds exactly when the body has a title and a
      url and its type is missing, empty, 'image' or 'video'. */
  lemma CreateFreshSucceeds(fototeca: seq<Photo>, nextPhotoId: nat, countryId: nat, itemId: string, body: PhotoValues, now: int)
    requires forall p :: p in fototeca && p.countryId == countryId ==> !SqlEq(p.itemId, itemId)
    ensures InsertedRow(fototeca, nextPhotoId, CreateInsert(countryId, itemId, body), now).Some? <==>
              body.title.Some? && body.url.Some? &&
              (body.mediaType.None? || body.mediaType.value in {"", "image", "video"})
  {
  }

  /** The create handler. `itemId` is the `uuidv4()` it draws, `now` the insert's timestamp. */
  method CreateItem(db: Database, code: string, body: PhotoValues, itemId: string, now: int,
                    fault: Option<string>, rejection: string) returns (r: Response)
    requires db.Valid()
    modifies db
    ensures db.Valid() && db.countries == old(db.countries) && db.descriptions == old(db.descriptions)
    ensures fault.Some? ==> r == Failure(500, fault.value) && db.fototeca == old(db.fototeca)
    ensures fault.None? && KnownCountry(old(db.countries), code).None? ==>
              r == Failure(404, "País no encontrado") && db.fototeca == old(db.fototeca) && db.nextPhotoId == old(db.nextPhotoId)
    ensures fault.None? && KnownCountry(old(db.countries), code).Some? ==>
              var row := InsertedRow(old(db.fototeca), old(db.nextPhotoId),
                                     CreateInsert(KnownCountry(old(db.countries), code).value, itemId, body), now);
              (row.Some? ==> db.fototeca == old(db.fototeca) + [row.value] &&
                             r == Ok(CreatedBody(itemId, body.title.value, body.url.value))) &&
              (row.None? ==> db.fototeca == old(db.fototeca) && r == Failure(500, rejection))
  {
    if fault.Some? {
      return Failure(500, fault.value);
    }
    var countryId := KnownCountry(db.countries, code);
    if countryId.None? {
      return Failure(404, "País no encontrado");
    }
    var ok := db.InsertPhoto(CreateInsert(countryId.value, itemId, body), now);
    if !ok {
      return Failure(500, rejection);
    }
    r := Ok(CreatedBody(itemId, body.title.value, body.url.value));
  }

  // ---------------------------------------------------------------------------------------
  // PUT and DELETE /countries/:countryCode/fototeca/:itemId

  /** The update handler: the country id goes into the WHERE as found (NULL for an unknown
      code), and the reply is a success whenever the statement runs, matched or not. */
  method UpdateItem(db: Database, code: string, itemId: string, body: PhotoValues,
                    fault: Option<string>, rejection: string) returns (r: Response)
    requires db.Valid()
    modifies db
    ensures db.Valid() && db.countries == old(db.countries) && db.descriptions == old(db.descriptions)
    ensures db.nextPhotoId == old(db.nextPhotoId)
    ensures fault.Some? ==> r == Failure(500, fault.value) && db.fototeca == old(db.fototeca)
    ensures fault.None? ==>
              var u := UpdateMatching(old(db.fototeca), CountryIdByCode(old(db.countries), code), itemId, body);
              (u.Some? ==> db.fototeca == u.value && r == Ok(SuccessBody)) &&
              (u.None? ==> db.fototeca == old(db.fototeca) && r == Failure(500, rejection))
  {
    if fault.Some? {
      return Failure(500, fault.value);
    }
    var countryId := CountryIdByCode(db.countries, code);
    var ok := db.UpdatePhotos(countryId, itemId, body);
    if !ok {
      return Failure(500, rejection);
    }
    r := Ok(SuccessBody);
  }

  /** An update for an unknown country code matches nothing: success, table unchanged. */
  lemma UpdateUnknownCountry(countries: seq<Country>, fototeca: seq<Photo>, code: string, itemId: string, body: PhotoValues)
    requires CountryIdByCode(countries, code).None?
    ensures UpdateMatching(fototeca, CountryIdByCode(countries, code), itemId, body) == Some(fototeca)
  {
    assert forall p :: p in fototeca ==> !ItemMatches(p, None, itemId);
  }

  /** The delete handler; like the update, it succeeds whether or not a row matched. */
  method DeleteItem(db: Database, code: string, itemId: string, fault: Option<string>) returns (r: Response)
    requires db.Valid()
    modifies db
    ensures db.Valid() && db.countries == old(db.countries) && db.descriptions == old(db.descriptions)
    ensures db.nextPhotoId == old(db.nextPhotoId)
    ensures fault.Some? ==> r == Failure(500, fault.value) && db.fototeca == old(db.fototeca)
    ensures fault.None? ==> r == Ok(SuccessBody)
    ensures fault.None? ==>
              db.fototeca == Where(old(db.fototeca), (p: Photo) => !ItemMatches(p, CountryIdByCode(old(db.countries), code), itemId))
  {
    if fault.Some? {
      return Failure(500, fault.value);
    }
    var countryId := CountryIdByCode(db.countries, code);
    db.DeletePhotos(countryId, itemId);
    r := Ok(SuccessBody);
  }

  /** The delete removes exactly the rows with that item id in that country; in a valid table
      that is at most one row. */
  lemma DeleteItemRemovesMatch(fototeca: seq<Photo>, countryId: Option<nat>, itemId: string)
    requires UniqueKey(fototeca, PhotoId) && UniqueKey(fototeca, PhotoKey)
    ensures var r := Where(fototeca, (p: Photo) => !ItemMatches(p, countryId, itemId));
      (forall p :: p in r <==> p in fototeca && !ItemMatches(p, countryId, itemId)) &&
      |fototeca| - 1 <= |r| <= |fototeca|
  {
    var keep := (p: Photo) => !ItemMatches(p, countryId, itemId);
    if exists k :: 0 <= k < |fototeca| && !keep(fototeca[k]) {
      var k :| 0 <= k < |fototeca| && !keep(fototeca[k]);
      forall p | p in fototeca ensures keep(p) <==> p.id != fototeca[k].id {
        if !keep(p) {
          UniqueKeyMembers(fototeca, PhotoKey, p, fototeca[k]);
        }
        if p.id == fototeca[k].id {
          UniqueKeyMembers(fototeca, PhotoId, p, fototeca[k]);
        }
      }
      DeleteOneId(fototeca, k, keep);
    } else {
      assert forall p :: p in fototeca ==> keep(p);
    }
  }

  // ---------------------------------------------------------------------------------------
  // GET and PUT /countries/:countryCode/description

  function DescriptionBody(title: Json, chapters: Json): Json {
    JObj(map["title" := title, "chapters" := chapters])
  }

  /** `{ title: '', chapters: [] }`. */
  const EmptyDescription: Json := DescriptionBody(JStr(""), EmptyList)

  /** The description handler: the default for an unknown country or a missing row, otherwise
      the stored title and the chapters column normalised to a list. */
  function GetDescription(countries: seq<Country>, descriptions: seq<Description>, code: string,
                          parse: string -> Option<Json>, fault: Option<string>, syntaxError: string): (r: Response)
    ensures fault.Some? ==> r == Failure(500, fault.value)
    ensures fault.None? && KnownCountry(countries, code).None? ==> r == Ok(EmptyDescription)
    ensures fault.None? && KnownCountry(countries, code).Some? ==>
              (DescriptionOf(descriptions, KnownCountry(countries, code).value).None? ==> r == Ok(EmptyDescription))
    ensures fault.None? && KnownCountry(countries, code).Some? && DescriptionOf(descriptions, KnownCountry(countries, code).value).Some? ==>
              var d := DescriptionOf(descriptions, KnownCountry(countries, code).value).value;
              (NormalizeColumn(d.chapters, EmptyList, parse).None? ==> r == Failure(500, syntaxError)) &&
              (NormalizeColumn(d.chapters, EmptyList, parse).Some? ==>
                 r == Ok(DescriptionBody(Nullable(d.title), NormalizeColumn(d.chapters, EmptyList, parse).value)))
  {
    if fault.Some? then Failure(500, fault.value)
    else
      match KnownCountry(countries, code)
      case None => Ok(EmptyDescription)
      case Some(id) =>
        match DescriptionOf(descriptions, id)
        case None => Ok(EmptyDescription)
        case Some(d) =>
          match NormalizeColumn(d.chapters, EmptyList, parse)
          case None => Failure(500, syntaxError)
          case Some(chapters) => Ok(DescriptionBody(Nullable(d.title), chapters))
  }

  /** The upsert handler. `chapters` is `req.body.chapters`, stored through
      `JSON.stringify` into the JSON column (a missing value stores NULL). An unknown code
      binds a NULL `country_id`, which the NOT NULL column refuses. */
  method PutDescription(db: Database, code: string, title: Option<string>, chapters: Json,
                        fault: Option<string>, rejection: string) returns (r: Response)
    requires db.Valid()
    modifies db
    ensures db.Valid() && db.countries == old(db.countries) && db.fototeca == old(db.fototeca)
    ensures db.nextPhotoId == old(db.nextPhotoId)
    ensures fault.Some? ==> r == Failure(500, fault.value) && db.descriptions == old(db.descriptions)
    ensures fault.None? && CountryIdByCode(old(db.countries), code).None? ==>
              r == Failure(500, rejection) && db.descriptions == old(db.descriptions)
    ensures fault.None? && CountryIdByCode(old(db.countries), code).Some? ==>
              r == Ok(SuccessBody) &&
              db.descriptions == Upsert(old(db.descriptions), CountryIdByCode(old(db.countries), code).value, title, chapters)
  {
    if fault.Some? {
      return Failure(500, fault.value);
    }
    var countryId := CountryIdByCode(db.countries, code);
    if countryId.None? {
      return Failure(500, rejection);
    }
    db.UpsertDescription(countryId.value, title, chapters);
    r := Ok(SuccessBody);
  }

  /** Reading a description back after writing it returns what was written: the title, and
      the chapters unless they are falsy (then `[]`). A chapters value that is itself a JSON
      string would come back as a string and be parsed again, so it is excluded. */
  lemma DescriptionRoundTrip(countries: seq<Country>, descriptions: seq<Description>, code: string, title: Option<string>,
                             chapters: Json, parse: string -> Option<Json>, syntaxError: string)
    requires KnownCountry(countries, code).Some? && !chapters.JStr?
    ensures GetDescription(countries, Upsert(descriptions, KnownCountry(countries, code).value, title, chapters), code, parse, None, syntaxError)
            == Ok(DescriptionBody(Nullable(title), Or(chapters, EmptyList)))
  {
    UpsertReadBack(descriptions, KnownCountry(countries, code).value, title, chapters);
  }

  /** Writing one country's description does not change what another country reads. */
  lemma DescriptionWriteIsolated(countries: seq<Country>, descriptions: seq<Description>, code: string, other: string,
                                 title: Option<string>, chapters: Json, parse: string -> Option<Json>, syntaxError: string)
    requires KnownCountry(countries, code).Some? && KnownCountry(countries, other).Some?
    requires KnownCountry(countries, code) != KnownCountry(countries, other)
    ensures GetDescription(countries, Upsert(descriptions, KnownCountry(countries, code).value, title, chapters), other, parse, None, syntaxError)
            == GetDescription(countries, descriptions, other, parse, None, syntaxError)
  {
    UpsertLeavesOthers(descriptions, KnownCountry(countries, code).value, title, chapters, KnownCountry(countries, other).value);
  }

  // ---------------------------------------------------------------------------------------
  // GET /countries/:countryCode/testimonies/:witnessId

  /** A testimony row with `contentBlocks` and `media` normalised to lists. */
  function TestimonyJson(t: Row, parse: string -> Option<Json>): Option<Row> {
    OverlayLists(t, ["contentBlocks", "media"], parse)
  }

  /** The witness detail handler. `witnesses` are the rows of `SELECT * FROM witnesses WHERE
      id = ?`, `testimonies` those of the witness's testimonies: the first witness row, with
      `social` normalised to an object and its testimonies attached. */
  function WitnessDetail(witnesses: seq<Row>, testimonies: seq<Row>, parse: string -> Option<Json>,
                         fault: Option<string>, syntaxError: string): (r: Response)
    ensures fault.Some? ==> r == Failure(500, fault.value)
    ensures fault.None? ==> (r == Failure(404, "No encontrado") <==> witnesses == [])
    ensures r.status == 200 ==> witnesses != [] && r.body.JObj?
    ensures r.status == 200 ==> r.body.fields.Keys == witnesses[0].Keys + {"social", "testimonies"}
    ensures r.status == 200 ==> forall k :: k in witnesses[0] && k !in ["social", "testimonies"] ==> r.body.fields[k] == witnesses[0][k]
    ensures r.status == 200 ==> NormalizeColumn(Column(witnesses[0], "social"), EmptyObject, parse) == Some(r.body.fields["social"])
    ensures r.status == 200 ==> r.body.fields["testimonies"].JArr? && |r.body.fields["testimonies"].elems| == |testimonies|
    ensures r.status == 200 ==> forall i :: 0 <= i < |testimonies| ==>
              r.body.fields["testimonies"].elems[i].JObj? &&
              TestimonyJson(testimonies[i], parse) == Some(r.body.fields["testimonies"].elems[i].fields)
    ensures fault.None? && witnesses != [] && r.status != 200 ==> r == Failure(500, syntaxError)
  {
    if fault.Some? then Failure(500, fault.value)
    else if witnesses == [] then Failure(404, "No encontrado")
    else
      match NormalizeColumn(Column(witnesses[0], "social"), EmptyObject, parse)
      case None => Failure(500, syntaxError)
      case Some(social) =>
        match MapRows(t => TestimonyJson(t, parse), testimonies)
        case None => Failure(500, syntaxError)
        case Some(items) => Ok(JObj(witnesses[0]["social" := social]["testimonies" := JArr(items)]))
  }

  /** When no column holds JSON text, the detail always answers, and a witness whose social
      column is empty gets `{}`. */
  lemma WitnessDetailWithoutText(witnesses: seq<Row>, testimonies: seq<Row>, parse: string -> Option<Json>, syntaxError: string)
    requires witnesses != [] && !Column(witnesses[0], "social").JStr?
    requires forall i :: 0 <= i < |testimonies| ==> !Column(testimonies[i], "contentBlocks").JStr? && !Column(testimonies[i], "media").JStr?
    ensures var r := WitnessDetail(witnesses, testimonies, parse, None, syntaxError);
      r.status == 200 &&
      (!Truthy(Column(witnesses[0], "social")) ==> r.body.fields["social"] == EmptyObject)
  {
    forall i | 0 <= i < |testimonies| ensures TestimonyJson(testimonies[i], parse).Some? {
      assert forall k :: k in ["contentBlocks", "media"] ==> !Column(testimonies[i], k).JStr?;
    }
  }

  // ---------------------------------------------------------------------------------------
  // GET /gallery/images

  const GalleryLimit: nat := 50

  predicate IsImageRow(p: Photo) {
    p.mediaType == Some("image")
  }

  /** `SELECT url, title as name`. */
  function GalleryEntry(p: Photo): Json {
    JObj(map["url" := JStr(p.url), "name" := JStr(p.title)])
  }

  /** `WHERE type = "image" ORDER BY created_at DESC LIMIT 50`. */
  function GalleryRows(fototeca: seq<Photo>): seq<Photo> {
    Take(SortNewestFirst(Where(fototeca, IsImageRow)), GalleryLimit)
  }

  function GalleryImages(fototeca: seq<Photo>, fault: Option<string>): (r: Response)
    ensures fault.Some? ==> r == Failure(500, fault.value)
    ensures fault.None? ==> r.status == 200 && Get(r.body, "images").JArr?
    ensures fault.None? ==> var rows := GalleryRows(fototeca); var list := Get(r.body, "images").elems;
              |list| == |rows| &&
              forall i :: 0 <= i < |rows| ==> Get(list[i], "url") == JStr(rows[i].url) && Get(list[i], "name") == JStr(rows[i].title)
  {
    if fault.Some? then Failure(500, fault.value)
    else
      var rows := GalleryRows(fototeca);
      Ok(JObj(map["images" := JArr(seq(|rows|, i requires 0 <= i < |rows| => GalleryEntry(rows[i])))]))
  }

  /** The first n rows of a newest-first list are among its rows, and every row after them is
      no newer than any of them. */
  lemma TakeKeepsNewest(sorted: seq<Photo>, n: nat)
    requires NewestFirst(sorted)
    ensures multiset(Take(sorted, n)) <= multiset(sorted)
    ensures forall p, q :: p in Take(sorted, n) && q in multiset(sorted) - multiset(Take(sorted, n)) ==> q.createdAt <= p.createdAt
  {
    var rows := Take(sorted, n);
    var left := sorted[|rows|..];
    assert sorted == rows + left;
    assert multiset(sorted) == multiset(rows) + multiset(left);
    assert multiset(sorted) - multiset(rows) == multiset(left);
    forall p: Photo, q: Photo | p in rows && q in multiset(left) ensures q.createdAt <= p.createdAt {
      var i :| 0 <= i < |rows| && rows[i] == p;
      var j :| 0 <= j < |left| && left[j] == q;
      assert sorted[i] == p && sorted[|rows| + j] == q;
    }
  }

  /** The gallery lists the 50 newest image rows of the table, newest first, and all of them
      when there are no more than 50: the rows are image rows of the table, as many as the
      limit allows, and every image row left out is no newer than every row listed. */
  lemma GalleryRowsCorrect(fototeca: seq<Photo>)
    ensures var rows := GalleryRows(fototeca);
      |rows| <= GalleryLimit && NewestFirst(rows) &&
      (forall p :: p in rows ==> p in fototeca && IsImageRow(p)) &&
      (|Where(fototeca, IsImageRow)| <= GalleryLimit ==> multiset(rows) == multiset(Where(fototeca, IsImageRow)))
    ensures var rows := GalleryRows(fototeca);
      var images := Where(fototeca, IsImageRow);
      multiset(rows) <= multiset(images) &&
      |rows| == (if |images| <= GalleryLimit then |images| else GalleryLimit) &&
      forall p, q :: p in rows && q in multiset(images) - multiset(rows) ==> q.createdAt <= p.createdAt
  {
    var images := Where(fototeca, IsImageRow);
    var sorted := SortNewestFirst(images);
    var rows := GalleryRows(fototeca);
    assert |sorted| == |images| by {
      assert |multiset(sorted)| == |multiset(images)|;
    }
    TakeKeepsNewest(sorted, GalleryLimit);
    forall p | p in rows ensures p in fototeca && IsImageRow(p) {
      assert p in sorted;
      assert p in multiset(sorted);
    }
  }

  // ---------------------------------------------------------------------------------------
  // GET /countries

  function Section(id: string, caption: string): Json {
    JObj(map["id" := JStr(id), "label" := JStr(caption)])
  }

  /** The five editor sections every country offers. */
  const SectionsJson: Json :=
    JArr([Section("description", "Descripción"), Section("timeline", "Timeline"), Section("testimonies", "Testimonios"),
          Section("resistance", "Resistencia"), Section("media-gallery", "Fototeca")])

  function CountryEntry(c: Country): Json {
    JObj(map["code" := JStr(c.code), "name" := JStr(c.name), "sections" := SectionsJson])
  }

  /** The editor's country list; `rows` are the countries in the query's `ORDER BY name`. */
  function CountriesWithSections(rows: seq<Country>, fault: Option<string>): (r: Response)
    ensures fault.Some? ==> r == Failure(500, fault.value)
  {
    if fault.Some? then Failure(500, fault.value)
    else Ok(JObj(map["countries" := JArr(seq(|rows|, i requires 0 <= i < |rows| => CountryEntry(rows[i])))]))
  }

  /** One entry per country, in order, each with its code and name and the same five
      sections. */
  lemma CountriesWithSectionsCorrect(rows: seq<Country>)
    ensures var list := Get(CountriesWithSections(rows, None).body, "countries");
      list.JArr? && |list.elems| == |rows| &&
      forall i :: 0 <= i < |rows| ==>
        Get(list.elems[i], "code") == JStr(rows[i].code) && Get(list.elems[i], "name") == JStr(rows[i].name) &&
        Get(list.elems[i], "sections") == SectionsJson && |SectionsJson.elems| == 5
  {
  }
}
