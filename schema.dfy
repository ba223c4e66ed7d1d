/** The MySQL tables that the CMS routes, the upload registration and the cleanup script
    change (server/db.js): `countries`, `fototeca` and `descriptions`, with the keys the DDL
    declares. Strings compare under the server's default collation, `utf8mb4_0900_ai_ci`,
    which for the ASCII text here means case-insensitive equality without trailing-space
    padding. */
module Schema {
  import opened Wrappers
  import opened Json
  import Text

  /** A `countries` row (AUTO_INCREMENT ids start at 1). */
  datatype Country = Country(id: nat, code: string, name: string, lang: string)

  /** A `fototeca` row. `title` and `url` are NOT NULL; `description`, `date` and `type` may
      be NULL. `createdAt` is the `created_at` timestamp as a number. */
  datatype Photo = Photo(id: nat, countryId: nat, itemId: string, title: string, description: Option<string>,
                         date: Option<string>, mediaType: Option<string>, url: string, createdAt: int)

  /** A `descriptions` row; `chapters` is the stored JSON document (JNull for SQL NULL). */
  datatype Description = Description(countryId: nat, title: Option<string>, chapters: Json)

  /** `ENUM('image', 'video')` accepts these two values or NULL. */
  predicate ValidMediaType(t: Option<string>) {
    t.None? || t.value == "image" || t.value == "video"
  }

  /** Column equality under the default collation (ASCII case folding, no padding). */
  predicate SqlEq(a: string, b: string) {
    Text.Lower(a) == Text.Lower(b)
  }

  function PhotoId(p: Photo): nat {
    p.id
  }

  /** The `unique_item (country_id, item_id)` key; `item_id` compares under the collation. */
  function PhotoKey(p: Photo): (nat, string) {
    (p.countryId, Text.Lower(p.itemId))
  }

  /** No two rows share a value of `key`. */
  predicate UniqueKey<K(==)>(rows: seq<Photo>, key: Photo -> K) {
    forall i, j :: 0 <= i < j < |rows| ==> key(rows[i]) != key(rows[j])
  }

  /** A `WHERE` that keeps rows in table order. */
  function Where(rows: seq<Photo>, keep: Photo -> bool): (r: seq<Photo>)
    ensures |r| <= |rows|
    ensures forall p :: p in r <==> p in rows && keep(p)
    ensures multiset(r) <= multiset(rows)
    ensures (forall p :: p in rows ==> keep(p)) ==> r == rows
  {
    if rows == [] then []
    else
      assert rows == [rows[0]] + rows[1..];
      (if keep(rows[0]) then [rows[0]] else []) + Where(rows[1..], keep)
  }

  lemma UniqueKeyTail<K>(rows: seq<Photo>, key: Photo -> K)
    requires rows != [] && UniqueKey(rows, key)
    ensures UniqueKey(rows[1..], key)
    ensures forall p :: p in rows[1..] ==> key(p) != key(rows[0])
  {
    forall i, j | 0 <= i < j < |rows[1..]| ensures key(rows[1..][i]) != key(rows[1..][j]) {
      assert rows[1..][i] == rows[i + 1] && rows[1..][j] == rows[j + 1];
    }
    forall p | p in rows[1..] ensures key(p) != key(rows[0]) {
      var k :| 0 <= k < |rows[1..]| && rows[1..][k] == p;
      assert rows[k + 1] == p;
    }
  }

  /** Two rows of a table with a unique key that agree on the key are the same row. */
  lemma UniqueKeyMembers<K>(rows: seq<Photo>, key: Photo -> K, x: Photo, y: Photo)
    requires UniqueKey(rows, key) && x in rows && y in rows && key(x) == key(y)
    ensures x == y
  {
    var i :| 0 <= i < |rows| && rows[i] == x;
    var j :| 0 <= j < |rows| && rows[j] == y;
    assert !(i < j) && !(j < i);
  }

  /** Deleting rows keeps every key unique. */
  lemma {:induction false} WhereKeepsUnique<K>(rows: seq<Photo>, keep: Photo -> bool, key: Photo -> K)
    requires UniqueKey(rows, key)
    ensures UniqueKey(Where(rows, keep), key)
  {
    if rows != [] {
      UniqueKeyTail(rows, key);
      WhereKeepsUnique(rows[1..], keep, key);
      var rest := Where(rows[1..], keep);
      if keep(rows[0]) {
        forall j | 0 <= j < |rest| ensures key(rows[0]) != key(rest[j]) {
          assert rest[j] in rows[1..];
        }
        assert Where(rows, keep) == [rows[0]] + rest;
      }
    }
  }

  /** Two conditions that agree on every row select the same rows. */
  lemma {:induction false} WhereSame(rows: seq<Photo>, a: Photo -> bool, b: Photo -> bool)
    requires forall p :: p in rows ==> a(p) == b(p)
    ensures Where(rows, a) == Where(rows, b)
  {
    if rows != [] {
      assert forall p :: p in rows[1..] ==> p in rows;
      WhereSame(rows[1..], a, b);
    }
  }

  /** Filters commute. */
  lemma {:induction false} WhereCommute(rows: seq<Photo>, a: Photo -> bool, b: Photo -> bool)
    ensures Where(Where(rows, a), b) == Where(Where(rows, b), a)
  {
    if rows != [] {
      WhereCommute(rows[1..], a, b);
      var x := rows[0];
      if a(x) {
        assert Where(rows, a) == [x] + Where(rows[1..], a);
        assert ([x] + Where(rows[1..], a))[1..] == Where(rows[1..], a);
      } else {
        assert Where(rows, a) == Where(rows[1..], a);
      }
      if b(x) {
        assert Where(rows, b) == [x] + Where(rows[1..], b);
        assert ([x] + Where(rows[1..], b))[1..] == Where(rows[1..], b);
      } else {
        assert Where(rows, b) == Where(rows[1..], b);
      }
    }
  }

  /** Deleting the one row with a given id from a table with unique ids removes exactly one row. */
  lemma {:induction false} DeleteOneId(rows: seq<Photo>, k: int, keep: Photo -> bool)
    requires UniqueKey(rows, PhotoId) && 0 <= k < |rows|
    requires forall p :: p in rows ==> (keep(p) <==> p.id != rows[k].id)
    ensures |Where(rows, keep)| == |rows| - 1
  {
    UniqueKeyTail(rows, PhotoId);
    if k == 0 {
      assert forall p :: p in rows[1..] ==> p in rows && keep(p);
    } else {
      assert rows[1..][k - 1] == rows[k];
      assert rows[0] != rows[k] by {
        assert PhotoId(rows[0]) != PhotoId(rows[k]);
      }
      assert forall p :: p in rows[1..] ==> p in rows;
      DeleteOneId(rows[1..], k - 1, keep);
    }
  }

  /** `LIMIT n`: the first n rows. */
  function Take(rows: seq<Photo>, n: nat): (r: seq<Photo>)
    ensures |r| <= n && |r| <= |rows| && r == rows[..|r|]
    ensures |rows| <= n ==> r == rows
  {
    if |rows| <= n then rows else rows[..n]
  }

  /** An `UPDATE` that rewrites each row with `f` in place. */
  function Update(rows: seq<Photo>, f: Photo -> Photo): (r: seq<Photo>)
    ensures |r| == |rows| && forall i :: 0 <= i < |rows| ==> r[i] == f(rows[i])
  {
    seq(|rows|, i requires 0 <= i < |rows| => f(rows[i]))
  }

  /** An update that leaves a key alone keeps it unique. */
  lemma UpdateKeepsUnique<K>(rows: seq<Photo>, f: Photo -> Photo, key: Photo -> K)
    requires UniqueKey(rows, key)
    requires forall p :: p in rows ==> key(f(p)) == key(p)
    ensures UniqueKey(Update(rows, f), key)
  {
    var r := Update(rows, f);
    forall i, j | 0 <= i < j < |r| ensures key(r[i]) != key(r[j]) {
      assert rows[i] in rows && rows[j] in rows;
    }
  }

  predicate HasCountry(countries: seq<Country>, id: nat) {
    exists i :: 0 <= i < |countries| && countries[i].id == id
  }

  /** The keys of db.js as invariants: country ids positive and unique, country codes unique
      (`code VARCHAR(50) UNIQUE`), fototeca ids unique and below the AUTO_INCREMENT counter,
      `unique_item`, `unique_desc`, and the `country_id` foreign keys. */
  predicate TablesValid(countries: seq<Country>, fototeca: seq<Photo>, descriptions: seq<Description>, nextPhotoId: nat) {
    (forall i :: 0 <= i < |countries| ==> countries[i].id >= 1) &&
    (forall i, j :: 0 <= i < j < |countries| ==> countries[i].id != countries[j].id && !SqlEq(countries[i].code, countries[j].code)) &&
    UniqueKey(fototeca, PhotoId) && UniqueKey(fototeca, PhotoKey) &&
    (forall i :: 0 <= i < |fototeca| ==> fototeca[i].id < nextPhotoId && HasCountry(countries, fototeca[i].countryId)) &&
    (forall i, j :: 0 <= i < j < |descriptions| ==> descriptions[i].countryId != descriptions[j].countryId) &&
    (forall i :: 0 <= i < |descriptions| ==> HasCountry(countries, descriptions[i].countryId))
  }

  /** Appending a row whose key is new keeps the key unique. */
  lemma UniqueKeySnoc<K>(rows: seq<Photo>, key: Photo -> K, p: Photo)
    requires UniqueKey(rows, key)
    requires forall q :: q in rows ==> key(q) != key(p)
    ensures UniqueKey(rows + [p], key)
  {
    var r := rows + [p];
    forall i, j | 0 <= i < j < |r| ensures key(r[i]) != key(r[j]) {
      assert r[i] == rows[i] && rows[i] in rows;
      if j < |rows| {
        assert r[j] == rows[j];
      }
    }
  }

  /** Appending a row with the next id, an existing country and a new item key keeps the
      tables valid once the counter advances. */
  lemma AppendPhotoKeepsValid(countries: seq<Country>, fototeca: seq<Photo>, descriptions: seq<Description>, nextPhotoId: nat, p: Photo)
    requires TablesValid(countries, fototeca, descriptions, nextPhotoId)
    requires p.id == nextPhotoId && HasCountry(countries, p.countryId)
    requires forall q :: q in fototeca ==> PhotoKey(q) != PhotoKey(p)
    ensures TablesValid(countries, fototeca + [p], descriptions, nextPhotoId + 1)
  {
    forall q | q in fototeca ensures PhotoId(q) != PhotoId(p) {
      var i :| 0 <= i < |fototeca| && fototeca[i] == q;
    }
    UniqueKeySnoc(fototeca, PhotoId, p);
    UniqueKeySnoc(fototeca, PhotoKey, p);
    var r := fototeca + [p];
    forall i | 0 <= i < |r| ensures r[i].id < nextPhotoId + 1 && HasCountry(countries, r[i].countryId) {
      if i < |fototeca| {
        assert r[i] == fototeca[i];
      }
    }
  }

  /** Removing fototeca rows keeps the tables valid. */
  lemma DeletePhotosKeepsValid(countries: seq<Country>, fototeca: seq<Photo>, descriptions: seq<Description>, nextPhotoId: nat, keep: Photo -> bool)
    requires TablesValid(countries, fototeca, descriptions, nextPhotoId)
    ensures TablesValid(countries, Where(fototeca, keep), descriptions, nextPhotoId)
  {
    WhereKeepsUnique(fototeca, keep, PhotoId);
    WhereKeepsUnique(fototeca, keep, PhotoKey);
    var r := Where(fototeca, keep);
    forall i | 0 <= i < |r| ensures r[i].id < nextPhotoId && HasCountry(countries, r[i].countryId) {
      assert r[i] in fototeca;
    }
  }

  /** Rewriting fototeca rows without touching id, country or item id keeps the tables valid. */
  lemma UpdatePhotosKeepsValid(countries: seq<Country>, fototeca: seq<Photo>, descriptions: seq<Description>, nextPhotoId: nat, f: Photo -> Photo)
    requires TablesValid(countries, fototeca, descriptions, nextPhotoId)
    requires forall p :: p in fototeca ==> f(p).id == p.id && f(p).countryId == p.countryId && f(p).itemId == p.itemId
    ensures TablesValid(countries, Update(fototeca, f), descriptions, nextPhotoId)
  {
    UpdateKeepsUnique(fototeca, f, PhotoId);
    UpdateKeepsUnique(fototeca, f, PhotoKey);
    var r := Update(fototeca, f);
    forall i | 0 <= i < |r| ensures r[i].id < nextPhotoId && HasCountry(countries, r[i].countryId) {
      assert fototeca[i] in fototeca;
    }
  }

  /** `SELECT id FROM countries WHERE code = ? LIMIT 1`: the first row with that code (in any
      language), or None. */
  function CountryIdByCode(countries: seq<Country>, code: string): (r: Option<nat>)
    ensures r.Some? <==> exists i :: 0 <= i < |countries| && SqlEq(countries[i].code, code)
    ensures r.Some? ==> exists i :: 0 <= i < |countries| && SqlEq(countries[i].code, code) && countries[i].id == r.value
                          && forall j :: 0 <= j < i ==> !SqlEq(countries[j].code, code)
  {
    if countries == [] then None
    else if SqlEq(countries[0].code, code) then Some(countries[0].id)
    else
      var r := CountryIdByCode(countries[1..], code);
      assert forall i :: 1 <= i < |countries| ==> countries[i] == countries[1..][i - 1];
      if r.Some? then
        ghost var k :| 0 <= k < |countries[1..]| && SqlEq(countries[1..][k].code, code) && countries[1..][k].id == r.value
                       && forall j :: 0 <= j < k ==> !SqlEq(countries[1..][j].code, code);
        assert SqlEq(countries[k + 1].code, code) && countries[k + 1].id == r.value;
        r
      else r
  }

  /** The values an `INSERT INTO fototeca (item_id, country_id, title, description, date, type, url)`
      binds; None is SQL NULL. */
  datatype PhotoInsert = PhotoInsert(itemId: string, countryId: nat, title: Option<string>, description: Option<string>,
                                     date: Option<string>, mediaType: Option<string>, url: Option<string>)

  /** The row an insert adds, or None when MySQL (in strict mode) rejects it: a NULL title or
      url, a type outside the ENUM, or an existing (country_id, item_id). */
  function InsertedRow(fototeca: seq<Photo>, nextPhotoId: nat, ins: PhotoInsert, now: int): (r: Option<Photo>)
    ensures r.Some? <==> ins.title.Some? && ins.url.Some? && ValidMediaType(ins.mediaType) &&
                         forall p :: p in fototeca ==> PhotoKey(p) != (ins.countryId, Text.Lower(ins.itemId))
    ensures r.Some? ==> r.value.id == nextPhotoId && PhotoKey(r.value) == (ins.countryId, Text.Lower(ins.itemId))
    ensures r.Some? ==> r.value.title == ins.title.value && r.value.url == ins.url.value && r.value.createdAt == now
    ensures r.Some? ==> r.value.description == ins.description && r.value.date == ins.date && r.value.mediaType == ins.mediaType
  {
    if ins.title.Some? && ins.url.Some? && ValidMediaType(ins.mediaType) &&
       forall p :: p in fototeca ==> PhotoKey(p) != (ins.countryId, Text.Lower(ins.itemId)) then
      Some(Photo(nextPhotoId, ins.countryId, ins.itemId, ins.title.value, ins.description, ins.date, ins.mediaType, ins.url.value, now))
    else None
  }

  /** `WHERE item_id = ? AND country_id = ?`; a NULL country id (None) matches no row. */
  predicate ItemMatches(p: Photo, countryId: Option<nat>, itemId: string) {
    countryId == Some(p.countryId) && SqlEq(p.itemId, itemId)
  }

  /** The values `UPDATE fototeca SET title = ?, description = ?, date = ?, type = ?, url = ?`
      binds, and the fields a request body carries; None is NULL / absent. */
  datatype PhotoValues = PhotoValues(title: Option<string>, description: Option<string>, date: Option<string>,
                                     mediaType: Option<string>, url: Option<string>)

  /** Values MySQL in strict mode can store in a row: NOT NULL title and url, a type of the ENUM. */
  predicate StorableValues(v: PhotoValues) {
    v.title.Some? && v.url.Some? && ValidMediaType(v.mediaType)
  }

  function Rewrite(p: Photo, v: PhotoValues): Photo
    requires StorableValues(v)
  {
    p.(title := v.title.value, description := v.description, date := v.date, mediaType := v.mediaType, url := v.url.value)
  }

  /** The table after the UPDATE, or None when a matched row cannot take the values (the
      statement fails and, being atomic, changes nothing). */
  function UpdateMatching(rows: seq<Photo>, countryId: Option<nat>, itemId: string, v: PhotoValues): Option<seq<Photo>> {
    if forall p :: p in rows ==> !ItemMatches(p, countryId, itemId) then Some(rows)
    else if StorableValues(v) then Some(Update(rows, (p: Photo) => if ItemMatches(p, countryId, itemId) then Rewrite(p, v) else p))
    else None
  }

  /** The UPDATE fails exactly when some row matches and the values are not storable; otherwise
      every matched row takes the new values and keeps its id, country, item id and creation
      time, and every other row is untouched. */
  lemma UpdateMatchingSpec(rows: seq<Photo>, countryId: Option<nat>, itemId: string, v: PhotoValues)
    ensures UpdateMatching(rows, countryId, itemId, v).None? <==>
              (exists p :: p in rows && ItemMatches(p, countryId, itemId)) && !StorableValues(v)
    ensures var r := UpdateMatching(rows, countryId, itemId, v);
      r.Some? ==> |r.value| == |rows|
    ensures var r := UpdateMatching(rows, countryId, itemId, v);
      forall i :: r.Some? && 0 <= i < |rows| && ItemMatches(rows[i], countryId, itemId) ==>
        r.value[i].id == rows[i].id && r.value[i].countryId == rows[i].countryId &&
        r.value[i].itemId == rows[i].itemId && r.value[i].createdAt == rows[i].createdAt &&
        Some(r.value[i].title) == v.title && r.value[i].description == v.description &&
        r.value[i].date == v.date && r.value[i].mediaType == v.mediaType && Some(r.value[i].url) == v.url
    ensures var r := UpdateMatching(rows, countryId, itemId, v);
      forall i :: r.Some? && 0 <= i < |rows| && !ItemMatches(rows[i], countryId, itemId) ==> r.value[i] == rows[i]
  {
    var r := UpdateMatching(rows, countryId, itemId, v);
    if r.Some? && !(forall p :: p in rows ==> !ItemMatches(p, countryId, itemId)) {
      forall i | 0 <= i < |rows| && ItemMatches(rows[i], countryId, itemId)
        ensures Some(r.value[i].title) == v.title && Some(r.value[i].url) == v.url
      {
      }
    }
    if r.Some? && (forall p :: p in rows ==> !ItemMatches(p, countryId, itemId)) {
      forall i | 0 <= i < |rows| ensures !ItemMatches(rows[i], countryId, itemId) {
        assert rows[i] in rows;
      }
    }
  }

  /** A successful UPDATE keeps the tables valid. */
  lemma UpdateMatchingKeepsValid(countries: seq<Country>, fototeca: seq<Photo>, descriptions: seq<Description>, nextPhotoId: nat,
                                 countryId: Option<nat>, itemId: string, v: PhotoValues)
    requires TablesValid(countries, fototeca, descriptions, nextPhotoId)
    requires UpdateMatching(fototeca, countryId, itemId, v).Some?
    ensures TablesValid(countries, UpdateMatching(fototeca, countryId, itemId, v).value, descriptions, nextPhotoId)
  {
    if !(forall p :: p in fototeca ==> !ItemMatches(p, countryId, itemId)) {
      UpdatePhotosKeepsValid(countries, fototeca, descriptions, nextPhotoId,
        (p: Photo) => if ItemMatches(p, countryId, itemId) then Rewrite(p, v) else p);
    }
  }

  /** The description row of a country, if any. */
  function DescriptionOf(descriptions: seq<Description>, countryId: nat): (r: Option<Description>)
    ensures r.Some? ==> r.value in descriptions && r.value.countryId == countryId
    ensures r.None? <==> forall d :: d in descriptions ==> d.countryId != countryId
  {
    if descriptions == [] then None
    else if descriptions[0].countryId == countryId then Some(descriptions[0])
    else DescriptionOf(descriptions[1..], countryId)
  }

  /** `INSERT INTO descriptions … ON DUPLICATE KEY UPDATE title = VALUES(title), chapters =
      VALUES(chapters)` under `unique_desc (country_id)`: the country's row is rewritten in
      place, or a new row is appended. */
  function Upsert(descriptions: seq<Description>, countryId: nat, title: Option<string>, chapters: Json): seq<Description>
  {
    if descriptions == [] then [Description(countryId, title, chapters)]
    else if descriptions[0].countryId == countryId then [Description(countryId, title, chapters)] + descriptions[1..]
    else [descriptions[0]] + Upsert(descriptions[1..], countryId, title, chapters)
  }

  /** After the upsert the country's description is exactly the one written. */
  lemma {:induction false} UpsertReadBack(descriptions: seq<Description>, countryId: nat, title: Option<string>, chapters: Json)
    ensures DescriptionOf(Upsert(descriptions, countryId, title, chapters), countryId) == Some(Description(countryId, title, chapters))
  {
    if descriptions != [] && descriptions[0].countryId != countryId {
      UpsertReadBack(descriptions[1..], countryId, title, chapters);
    }
  }

  /** The upsert leaves every other country's description alone. */
  lemma {:induction false} UpsertLeavesOthers(descriptions: seq<Description>, countryId: nat, title: Option<string>, chapters: Json, other: nat)
    requires other != countryId
    ensures DescriptionOf(Upsert(descriptions, countryId, title, chapters), other) == DescriptionOf(descriptions, other)
  {
    if descriptions != [] && descriptions[0].countryId != countryId {
      UpsertLeavesOthers(descriptions[1..], countryId, title, chapters, other);
    }
  }

  /** The upsert adds a row only when the country had none, and every row it leaves is the
      written one or an old one. */
  lemma {:induction false} UpsertRows(descriptions: seq<Description>, countryId: nat, title: Option<string>, chapters: Json)
    ensures var r := Upsert(descriptions, countryId, title, chapters);
      |r| == |descriptions| + (if DescriptionOf(descriptions, countryId).None? then 1 else 0) &&
      forall d :: d in r ==> d == Description(countryId, title, chapters) || d in descriptions
  {
    if descriptions != [] && descriptions[0].countryId != countryId {
      UpsertRows(descriptions[1..], countryId, title, chapters);
      assert forall d :: d in descriptions[1..] ==> d in descriptions;
    }
  }

  /** At most one description per country. */
  predicate DistinctCountries(ds: seq<Description>) {
    forall i, j :: 0 <= i < j < |ds| ==> ds[i].countryId != ds[j].countryId
  }

  lemma DistinctCountriesTail(ds: seq<Description>)
    requires ds != [] && DistinctCountries(ds)
    ensures DistinctCountries(ds[1..])
    ensures forall d :: d in ds[1..] ==> d.countryId != ds[0].countryId
  {
    var tail := ds[1..];
    forall i, j | 0 <= i < j < |tail| ensures tail[i].countryId != tail[j].countryId {
      assert tail[i] == ds[i + 1] && tail[j] == ds[j + 1];
    }
    forall d | d in tail ensures d.countryId != ds[0].countryId {
      var k :| 0 <= k < |tail| && tail[k] == d;
      assert ds[k + 1] == d;
    }
  }

  lemma DistinctCountriesCons(x: Description, rest: seq<Description>)
    requires DistinctCountries(rest)
    requires forall d :: d in rest ==> d.countryId != x.countryId
    ensures DistinctCountries([x] + rest)
  {
    var r := [x] + rest;
    forall i, j | 0 <= i < j < |r| ensures r[i].countryId != r[j].countryId {
      assert r[j] == rest[j - 1] && rest[j - 1] in rest;
      if i > 0 {
        assert r[i] == rest[i - 1];
      }
    }
  }

  /** The upsert keeps `unique_desc`: at most one description per country. */
  lemma {:induction false} UpsertKeepsUnique(descriptions: seq<Description>, countryId: nat, title: Option<string>, chapters: Json)
    requires forall i, j :: 0 <= i < j < |descriptions| ==> descriptions[i].countryId != descriptions[j].countryId
    ensures var r := Upsert(descriptions, countryId, title, chapters);
      forall i, j :: 0 <= i < j < |r| ==> r[i].countryId != r[j].countryId
  {
    var written := Description(countryId, title, chapters);
    if descriptions == [] {
      assert Upsert(descriptions, countryId, title, chapters) == [written];
    } else {
      var tail := descriptions[1..];
      DistinctCountriesTail(descriptions);
      if descriptions[0].countryId != countryId {
        UpsertKeepsUnique(tail, countryId, title, chapters);
        UpsertRows(tail, countryId, title, chapters);
        DistinctCountriesCons(descriptions[0], Upsert(tail, countryId, title, chapters));
      } else {
        DistinctCountriesCons(written, tail);
      }
    }
  }

  /** The upsert of an existing country's description keeps the tables valid. */
  lemma UpsertKeepsValid(countries: seq<Country>, fototeca: seq<Photo>, descriptions: seq<Description>, nextPhotoId: nat,
                         countryId: nat, title: Option<string>, chapters: Json)
    requires TablesValid(countries, fototeca, descriptions, nextPhotoId) && HasCountry(countries, countryId)
    ensures TablesValid(countries, fototeca, Upsert(descriptions, countryId, title, chapters), nextPhotoId)
  {
    UpsertKeepsUnique(descriptions, countryId, title, chapters);
    UpsertRows(descriptions, countryId, title, chapters);
    var r := Upsert(descriptions, countryId, title, chapters);
    forall i | 0 <= i < |r| ensures HasCountry(countries, r[i].countryId) {
      assert r[i] in r;
      if r[i] != Description(countryId, title, chapters) {
        var k :| 0 <= k < |descriptions| && descriptions[k] == r[i];
      }
    }
  }

  /** The database state the routes and scripts share. */
  class Database {
    var countries: seq<Country>
    var fototeca: seq<Photo>
    var descriptions: seq<Description>
    var nextPhotoId: nat

    ghost predicate Valid()
      reads this
    {
      TablesValid(countries, fototeca, descriptions, nextPhotoId)
    }

    /** A database holding only the given countries. */
    constructor (countries: seq<Country>)
      requires forall i :: 0 <= i < |countries| ==> countries[i].id >= 1
      requires forall i, j :: 0 <= i < j < |countries| ==> countries[i].id != countries[j].id && !SqlEq(countries[i].code, countries[j].code)
      ensures Valid()
      ensures this.countries == countries && fototeca == [] && descriptions == [] && nextPhotoId == 1
    {
      this.countries := countries;
      fototeca := [];
      descriptions := [];
      nextPhotoId := 1;
    }

    /** One INSERT into `fototeca`; on success the row is appended and the counter advances,
        on failure nothing changes. */
    method InsertPhoto(ins: PhotoInsert, now: int) returns (ok: bool)
      requires Valid() && HasCountry(countries, ins.countryId)
      modifies this
      ensures Valid()
      ensures ok <==> InsertedRow(old(fototeca), old(nextPhotoId), ins, now).Some?
      ensures ok ==> fototeca == old(fototeca) + [InsertedRow(old(fototeca), old(nextPhotoId), ins, now).value]
                     && nextPhotoId == old(nextPhotoId) + 1
      ensures !ok ==> fototeca == old(fototeca) && nextPhotoId == old(nextPhotoId)
      ensures countries == old(countries) && descriptions == old(descriptions)
    {
      var row := InsertedRow(fototeca, nextPhotoId, ins, now);
      if row.None? {
        return false;
      }
      AppendPhotoKeepsValid(countries, fototeca, descriptions, nextPhotoId, row.value);
      fototeca := fototeca + [row.value];
      nextPhotoId := nextPhotoId + 1;
      return true;
    }
    /** `UPDATE fototeca SET … WHERE item_id = ? AND country_id = ?`. */
    method UpdatePhotos(countryId: Option<nat>, itemId: string, v: PhotoValues) returns (ok: bool)
      requires Valid()
      modifies this
      ensures Valid()
      ensures ok <==> UpdateMatching(old(fototeca), countryId, itemId, v).Some?
      ensures ok ==> fototeca == UpdateMatching(old(fototeca), countryId, itemId, v).value
      ensures !ok ==> fototeca == old(fototeca)
      ensures countries == old(countries) && descriptions == old(descriptions) && nextPhotoId == old(nextPhotoId)
    {
      var r := UpdateMatching(fototeca, countryId, itemId, v);
      if r.None? {
        return false;
      }
      UpdateMatchingKeepsValid(countries, fototeca, descriptions, nextPhotoId, countryId, itemId, v);
      fototeca := r.value;
      return true;
    }

    /** `DELETE FROM fototeca WHERE item_id = ? AND country_id = ?`. */
    method DeletePhotos(countryId: Option<nat>, itemId: string)
      requires Valid()
      modifies this
      ensures Valid()
      ensures fototeca == Where(old(fototeca), (p: Photo) => !ItemMatches(p, countryId, itemId))
      ensures countries == old(countries) && descriptions == old(descriptions) && nextPhotoId == old(nextPhotoId)
    {
      DeletePhotosKeepsValid(countries, fototeca, descriptions, nextPhotoId, (p: Photo) => !ItemMatches(p, countryId, itemId));
      fototeca := Where(fototeca, (p: Photo) => !ItemMatches(p, countryId, itemId));
    }

    /** The `descriptions` upsert for an existing country. */
    method UpsertDescription(countryId: nat, title: Option<string>, chapters: Json)
      requires Valid() && HasCountry(countries, countryId)
      modifies this
      ensures Valid()
      ensures descriptions == Upsert(old(descriptions), countryId, title, chapters)
      ensures countries == old(countries) && fototeca == old(fototeca) && nextPhotoId == old(nextPhotoId)
    {
      UpsertKeepsValid(countries, fototeca, descriptions, nextPhotoId, countryId, title, chapters);
      descriptions := Upsert(descriptions, countryId, title, chapters);
    }
  }
}
