/** The media upload routes (server/routes/upload.js): the name under which an uploaded file is
    stored, the MIME allow-list, the single- and multi-file upload answers (the latter also
    registers each file in `fototeca`), the image/video listing and the guarded delete. */
module Upload {
  import opened Wrappers
  import opened Json
  import Text
  import opened Schema
  import opened Http

  // ---------------------------------------------------------------------------------------
  // POSIX `path.basename` and `path.extname`

  function StripTrailingSlashes(p: string): (r: string)
    ensures |r| <= |p| && r == p[..|r|]
    ensures r == [] || r[|r| - 1] != '/'
    ensures forall i :: |r| <= i < |p| ==> p[i] == '/'
  {
    if p != [] && p[|p| - 1] == '/' then StripTrailingSlashes(p[..|p| - 1]) else p
  }

  function AfterLastSlash(p: string): (r: string)
    ensures |r| <= |p| && r == p[|p| - |r|..]
    ensures '/' !in r
    ensures |r| < |p| ==> p[|p| - |r| - 1] == '/'
  {
    if p == [] || p[|p| - 1] == '/' then []
    else
      var r := AfterLastSlash(p[..|p| - 1]) + [p[|p| - 1]];
      assert p[..|p| - 1][|p| - |r|..] + [p[|p| - 1]] == p[|p| - |r|..];
      r
  }

  /** `path.basename(p)`: the last segment, trailing slashes ignored. */
  function BaseName(p: string): (r: string)
    ensures '/' !in r
  {
    AfterLastSlash(StripTrailingSlashes(p))
  }

  /** A name without a slash is its own basename. */
  lemma BaseNameOfSegment(p: string)
    requires '/' !in p
    ensures BaseName(p) == p
  {
    assert StripTrailingSlashes(p) == p;
  }

  /** The position of the last '.' of `s`, or -1. */
  function LastDot(s: string): (k: int)
    ensures -1 <= k < |s|
    ensures k >= 0 ==> s[k] == '.'
    ensures forall i :: k < i < |s| ==> s[i] != '.'
  {
    if s == [] then -1
    else if s[|s| - 1] == '.' then |s| - 1
    else LastDot(s[..|s| - 1])
  }

  /** The extension of one path segment `s`: from its last '.', or '' when it has no dot,
      starts with its only dot, or is '..'. */
  function ExtOf(s: string): string {
    var d := LastDot(s);
    if d <= 0 || s == ".." then "" else s[d..]
  }

  /** The segment `s` without its extension. */
  function StemOf(s: string): string {
    var d := LastDot(s);
    if d <= 0 || s == ".." then s else s[..d]
  }

  /** `path.extname(p)`. */
  function ExtName(p: string): string {
    ExtOf(BaseName(p))
  }

  /** `path.basename(p, path.extname(p))`: the last segment without its extension. */
  function Stem(p: string): string {
    StemOf(BaseName(p))
  }

  lemma SegmentSplit(s: string)
    ensures StemOf(s) + ExtOf(s) == s
  {
    var d := LastDot(s);
    if !(d <= 0 || s == "..") {
      assert s[..d] + s[d..] == s;
    }
  }

  lemma SegmentExtensionShape(s: string)
    ensures ExtOf(s) == "" || (ExtOf(s)[0] == '.' && forall i :: 1 <= i < |ExtOf(s)| ==> ExtOf(s)[i] != '.')
    ensures ExtOf(s) != "" ==> StemOf(s) != ""
  {
    var d := LastDot(s);
    if !(d <= 0 || s == "..") {
      assert forall i :: 0 <= i < |s| - d ==> s[d..][i] == s[d + i];
    }
  }

  lemma SegmentParts(s: string)
    requires '/' !in s
    ensures '/' !in StemOf(s) && '/' !in ExtOf(s)
  {
    SegmentSplit(s);
    assert forall c :: c in StemOf(s) || c in ExtOf(s) ==> c in s;
  }

  /** Stem and extension split the basename. */
  lemma StemAndExtensionSplit(p: string)
    ensures Stem(p) + ExtName(p) == BaseName(p)
  {
    SegmentSplit(BaseName(p));
  }

  /** An extension is a dot followed by no other dot, and leaves a non-empty stem. */
  lemma ExtensionShape(p: string)
    ensures ExtName(p) == "" || (ExtName(p)[0] == '.' && forall i :: 1 <= i < |ExtName(p)| ==> ExtName(p)[i] != '.')
    ensures ExtName(p) != "" ==> Stem(p) != ""
  {
    SegmentExtensionShape(BaseName(p));
  }

  /** Neither part holds a '/'. */
  lemma StemAndExtensionSegments(p: string)
    ensures '/' !in Stem(p) && '/' !in ExtName(p)
  {
    SegmentParts(BaseName(p));
  }

  // ---------------------------------------------------------------------------------------
  // The stored file name (`storage.filename`)

  predicate SafeChar(c: char) {
    'a' <= c <= 'z' || 'A' <= c <= 'Z' || '0' <= c <= '9' || c == '_' || c == '-'
  }

  /** `.replace(/[^a-zA-Z0-9_-]/g, '_').toLowerCase()` for one character. */
  function SanitizeChar(c: char): char {
    Text.LowerChar(if SafeChar(c) then c else '_')
  }

  function Sanitize(s: string): (r: string)
    ensures |r| == |s|
    ensures forall i :: 0 <= i < |s| ==> r[i] == SanitizeChar(s[i])
  {
    if s == [] then [] else [SanitizeChar(s[0])] + Sanitize(s[1..])
  }

  predicate StoredChar(c: char) {
    'a' <= c <= 'z' || '0' <= c <= '9' || c == '_' || c == '-'
  }

  /** The sanitised name keeps the length and uses only `[a-z0-9_-]`; a name already of that
      form is kept, so sanitising twice is sanitising once. */
  lemma SanitizeCorrect(s: string)
    ensures forall i :: 0 <= i < |Sanitize(s)| ==> StoredChar(Sanitize(s)[i])
    ensures (forall i :: 0 <= i < |s| ==> StoredChar(s[i])) ==> Sanitize(s) == s
    ensures Sanitize(Sanitize(s)) == Sanitize(s)
  {
  }

  /** `uuidv4().slice(0, 8)`. */
  function UuidPrefix(uuid: string): string {
    if |uuid| <= 8 then uuid else uuid[..8]
  }

  /** `${name}_${uuid.slice(0, 8)}${ext}`. */
  function StoredName(originalName: string, uuid: string): string {
    Sanitize(Stem(originalName)) + "_" + UuidPrefix(uuid) + ExtName(originalName)
  }

  predicate NoDot(s: string) {
    forall i :: 0 <= i < |s| ==> s[i] != '.'
  }

  /** Where the last dot of a dot-free head followed by an extension lies. */
  lemma LastDotOfJoined(head: string, ext: string)
    requires NoDot(head)
    requires ext == "" || (ext[0] == '.' && forall i :: 1 <= i < |ext| ==> ext[i] != '.')
    ensures LastDot(head + ext) == if ext == "" then -1 else |head|
  {
    var name := head + ext;
    var k := LastDot(name);
    if ext == "" {
      assert name == head;
    } else {
      assert name[|head|] == '.';
    }
  }

  /** A non-empty, dot-free, slash-free head followed by an extension has that extension. */
  lemma ExtNameOfJoined(head: string, ext: string)
    requires |head| >= 1 && NoDot(head) && '/' !in head && '/' !in ext
    requires ext == "" || (ext[0] == '.' && forall i :: 1 <= i < |ext| ==> ext[i] != '.')
    ensures '/' !in head + ext
    ensures ExtName(head + ext) == ext && Stem(head + ext) == head
  {
    var name := head + ext;
    assert forall i :: 0 <= i < |name| ==> name[i] != '/' by {
      forall i | 0 <= i < |name| ensures name[i] != '/' {
        if i < |head| {
          assert name[i] == head[i] && head[i] in head;
        } else {
          assert name[i] == ext[i - |head|] && ext[i - |head|] in ext;
        }
      }
    }
    BaseNameOfSegment(name);
    LastDotOfJoined(head, ext);
    if ext != "" {
      assert name[0] == head[0] && head[0] != '.';
      assert name[|head|..] == ext && name[..|head|] == head;
    }
  }

  predicate Plain(c: char) {
    c != '.' && c != '/'
  }

  /** A string whose characters are neither '.' nor '/' holds no dot and no slash. */
  lemma PlainChars(s: string)
    requires forall i :: 0 <= i < |s| ==> Plain(s[i])
    ensures NoDot(s) && '/' !in s
  {
  }

  /** The first eight characters of a dot-free, slash-free uuid are plain. */
  lemma UuidPrefixPlain(uuid: string)
    requires NoDot(uuid) && '/' !in uuid
    ensures forall i :: 0 <= i < |UuidPrefix(uuid)| ==> Plain(UuidPrefix(uuid)[i])
  {
    var u := UuidPrefix(uuid);
    forall i | 0 <= i < |u| ensures Plain(u[i]) {
      assert u[i] == uuid[i] && uuid[i] in uuid;
    }
  }

  /** A sanitised name, '_' and plain characters make a non-empty plain string. */
  lemma JoinedPlain(st: string, u: string)
    requires forall i :: 0 <= i < |st| ==> StoredChar(st[i])
    requires forall i :: 0 <= i < |u| ==> Plain(u[i])
    ensures |st + "_" + u| >= 1 && NoDot(st + "_" + u) && '/' !in st + "_" + u
  {
    var head := st + "_" + u;
    forall i | 0 <= i < |head| ensures Plain(head[i]) {
      if i < |st| {
        assert head[i] == st[i];
      } else if i > |st| {
        assert head[i] == u[i - |st| - 1];
      }
    }
    PlainChars(head);
  }

  /** The sanitised stem, '_' and a dot-free uuid prefix have neither dot nor slash. */
  lemma StoredHead(originalName: string, uuid: string)
    requires NoDot(uuid) && '/' !in uuid
    ensures var head := Sanitize(Stem(originalName)) + "_" + UuidPrefix(uuid);
      |head| >= 1 && NoDot(head) && '/' !in head
  {
    SanitizeCorrect(Stem(originalName));
    UuidPrefixPlain(uuid);
    JoinedPlain(Sanitize(Stem(originalName)), UuidPrefix(uuid));
  }

  /** With a uuid made of hex digits and dashes (no '.' and no '/'), the stored name is a
      single segment that keeps the extension of the uploaded name. */
  lemma StoredNameKeepsExtension(originalName: string, uuid: string)
    requires NoDot(uuid) && '/' !in uuid
    ensures '/' !in StoredName(originalName, uuid)
    ensures ExtName(StoredName(originalName, uuid)) == ExtName(originalName)
    ensures Stem(StoredName(originalName, uuid)) == Sanitize(Stem(originalName)) + "_" + UuidPrefix(uuid)
  {
    ExtensionShape(originalName);
    StemAndExtensionSegments(originalName);
    StoredHead(originalName, uuid);
    ExtNameOfJoined(Sanitize(Stem(originalName)) + "_" + UuidPrefix(uuid), ExtName(originalName));
  }

  // ---------------------------------------------------------------------------------------
  // `fileFilter`

  const AllowedTypes: seq<string> := [
    "image/jpeg", "image/png", "image/gif", "image/webp",
    "video/mp4", "video/webm", "video/ogg",
    "audio/mpeg", "audio/ogg", "audio/wav", "audio/mp3", "audio/m4a"
  ]

  datatype FilterVerdict = Accept | Reject(message: string)

  /** The multer file filter: a MIME type on the list is accepted, any other is rejected with
      an error. */
  function FileFilter(mimetype: string): (v: FilterVerdict)
    ensures v.Accept? <==> mimetype in AllowedTypes
    ensures v.Reject? ==> v.message == "Tipo de archivo no permitido"
  {
    if mimetype in AllowedTypes then Accept else Reject("Tipo de archivo no permitido")
  }

  /** Only images, videos and audio pass the filter. */
  lemma FileFilterAcceptsMediaOnly(mimetype: string)
    ensures FileFilter(mimetype).Accept? ==>
      Text.StartsWith(mimetype, "image/") || Text.StartsWith(mimetype, "video/") || Text.StartsWith(mimetype, "audio/")
  {
    if mimetype in AllowedTypes {
      var i :| 0 <= i < |AllowedTypes| && AllowedTypes[i] == mimetype;
      assert mimetype[..6] == AllowedTypes[i][..6];
    }
  }

  /** The list holds twelve distinct types. */
  lemma AllowedTypesDistinct()
    ensures |AllowedTypes| == 12
    ensures forall i, j :: 0 <= i < j < |AllowedTypes| ==> AllowedTypes[i] != AllowedTypes[j]
  {
  }

  /** The comparison is exact: a differently cased type, or an image type off the list, is
      rejected. */
  lemma FileFilterIsExact()
    ensures FileFilter("IMAGE/JPEG").Reject? && FileFilter("image/svg+xml").Reject?
  {
    assert "IMAGE/JPEG"[0] == 'I' && "image/svg+xml"[6] == 's';
  }

  // ---------------------------------------------------------------------------------------
  // `GET /list`

  /** `/\.(jpg|jpeg|png|gif|webp)$/i`. */
  predicate IsImageName(f: string) {
    var l := Text.Lower(f);
    Text.EndsWith(l, ".jpg") || Text.EndsWith(l, ".jpeg") || Text.EndsWith(l, ".png") ||
    Text.EndsWith(l, ".gif") || Text.EndsWith(l, ".webp")
  }

  /** `/\.(mp4|webm)$/i`. */
  predicate IsVideoName(f: string) {
    var l := Text.Lower(f);
    Text.EndsWith(l, ".mp4") || Text.EndsWith(l, ".webm")
  }

  lemma EndsWithLast(s: string, e: string)
    requires e != [] && Text.EndsWith(s, e)
    ensures s[|s| - 1] == e[|e| - 1]
  {
    assert s[|s| - |e|..][|e| - 1] == s[|s| - 1];
  }

  /** No name is listed both as an image and as a video: the endings differ in their last
      character. */
  lemma ImagesAndVideosDisjoint(f: string)
    ensures !(IsImageName(f) && IsVideoName(f))
  {
    var l := Text.Lower(f);
    if IsVideoName(f) {
      if Text.EndsWith(l, ".mp4") { EndsWithLast(l, ".mp4"); } else { EndsWithLast(l, ".webm"); }
      if Text.EndsWith(l, ".jpg") { EndsWithLast(l, ".jpg"); }
      if Text.EndsWith(l, ".jpeg") { EndsWithLast(l, ".jpeg"); }
      if Text.EndsWith(l, ".png") { EndsWithLast(l, ".png"); }
      if Text.EndsWith(l, ".gif") { EndsWithLast(l, ".gif"); }
      if Text.EndsWith(l, ".webp") { EndsWithLast(l, ".webp"); }
    }
  }

  /** The url under which a stored file is served. */
  function PublicUrl(filename: string): string {
    "/imagenes/" + filename
  }

  datatype ListedFile = ListedFile(filename: string, url: string)

  /** `files.filter(keep).map(f => ({ filename: f, url: `/imagenes/${f}` }))`. */
  function ListWhere(files: seq<string>, keep: string -> bool): (r: seq<ListedFile>)
    ensures forall e :: e in r <==> e.filename in files && keep(e.filename) && e.url == PublicUrl(e.filename)
    ensures |r| <= |files|
  {
    if files == [] then []
    else
      var rest := ListWhere(files[..|files| - 1], keep);
      var f := files[|files| - 1];
      assert forall g :: g in files <==> g in files[..|files| - 1] || g == f by {
        assert files == files[..|files| - 1] + [f];
      }
      if keep(f) then rest + [ListedFile(f, PublicUrl(f))] else rest
  }

  /** The listing keeps directory order: listing two runs of names lists each in turn. */
  lemma {:induction false} ListWhereConcat(a: seq<string>, b: seq<string>, keep: string -> bool)
    ensures ListWhere(a + b, keep) == ListWhere(a, keep) + ListWhere(b, keep)
  {
    if b == [] {
      assert a + b == a;
    } else {
      assert (a + b)[..|a + b| - 1] == a + b[..|b| - 1];
      assert (a + b)[|a + b| - 1] == b[|b| - 1];
      ListWhereConcat(a, b[..|b| - 1], keep);
    }
  }

  function IsImage(): string -> bool { f => IsImageName(f) }
  function IsVideo(): string -> bool { f => IsVideoName(f) }

  function ListedJson(e: ListedFile): Json {
    JObj(map["filename" := JStr(e.filename), "url" := JStr(e.url)])
  }

  function ListJson(es: seq<ListedFile>): (r: Json)
    ensures r.JArr? && |r.elems| == |es|
    ensures forall i :: 0 <= i < |es| ==> r.elems[i] == ListedJson(es[i])
  {
    JArr(seq(|es|, i requires 0 <= i < |es| => ListedJson(es[i])))
  }

  /** `GET /list` over the directory entries `files` (in `readdirSync` order). */
  function ListMedia(files: seq<string>): (r: Response)
    ensures r.status == 200
    ensures Get(r.body, "images") == ListJson(ListWhere(files, IsImage()))
    ensures Get(r.body, "videos") == ListJson(ListWhere(files, IsVideo()))
  {
    Ok(JObj(map["images" := ListJson(ListWhere(files, IsImage())), "videos" := ListJson(ListWhere(files, IsVideo()))]))
  }

  /** Every image or video entry is listed exactly under its kind, and never under both. */
  lemma ListMediaCorrect(files: seq<string>, f: string)
    ensures ListedFile(f, PublicUrl(f)) in ListWhere(files, IsImage()) <==> f in files && IsImageName(f)
    ensures ListedFile(f, PublicUrl(f)) in ListWhere(files, IsVideo()) <==> f in files && IsVideoName(f)
    ensures !(ListedFile(f, PublicUrl(f)) in ListWhere(files, IsImage()) && ListedFile(f, PublicUrl(f)) in ListWhere(files, IsVideo()))
  {
    ImagesAndVideosDisjoint(f);
  }

  // ---------------------------------------------------------------------------------------
  // `POST /image`, `/video`, `/media`

  /** What multer leaves in `req.file` / `req.files`. */
  datatype StoredFile = StoredFile(originalName: string, mimetype: string, filename: string, size: nat)

  /** `POST /image` and `POST /video` (`withMimetype` false) and `POST /media` (true). */
  function UploadOne(file: Option<StoredFile>, withMimetype: bool): (r: Response)
    ensures r.status == 400 <==> file.None?
    ensures file.None? ==> r == Failure(400, "No se subió ningún archivo")
    ensures file.Some? ==> r.status == 200 && Get(r.body, "success") == JBool(true)
    ensures file.Some? ==> Get(r.body, "filename") == JStr(file.value.filename) && Get(r.body, "url") == JStr(PublicUrl(file.value.filename))
    ensures file.Some? ==> Get(r.body, "size") == JNum(file.value.size)
    ensures file.Some? ==> (Get(r.body, "mimetype") == JNull <==> !withMimetype)
  {
    match file
    case None => Failure(400, "No se subió ningún archivo")
    case Some(f) =>
      var fields := map["success" := JBool(true), "filename" := JStr(f.filename), "url" := JStr(PublicUrl(f.filename)), "size" := JNum(f.size)];
      Ok(JObj(if withMimetype then fields["mimetype" := JStr(f.mimetype)] else fields))
  }

  // ---------------------------------------------------------------------------------------
  // `POST /images`

  function UploadedJson(f: StoredFile): Json {
    JObj(map["filename" := JStr(f.filename), "url" := JStr(PublicUrl(f.filename)), "size" := JNum(f.size)])
  }

  /** The answer of `POST /images`, which depends on the files only. */
  function UploadManyReply(files: seq<StoredFile>): (r: Response)
    ensures r.status == 400 <==> files == []
    ensures files == [] ==> r == Failure(400, "No se subieron archivos")
    ensures files != [] ==> r.status == 200 && Get(r.body, "success") == JBool(true)
    ensures files != [] ==> Get(r.body, "files").JArr? && |Get(r.body, "files").elems| == |files|
    ensures files != [] ==> forall i :: 0 <= i < |files| ==>
      Get(Get(r.body, "files").elems[i], "url") == JStr(PublicUrl(files[i].filename)) &&
      Get(Get(r.body, "files").elems[i], "filename") == JStr(files[i].filename) &&
      Get(Get(r.body, "files").elems[i], "size") == JNum(files[i].size)
  {
    if files == [] then Failure(400, "No se subieron archivos")
    else Ok(JObj(map["success" := JBool(true), "files" := JArr(seq(|files|, i requires 0 <= i < |files| => UploadedJson(files[i])))]))
  }

  /** The country the files are registered under: none without files, without a truthy
      `countryCode` string (query first, then body), without a connection, or when no country
      has that code. */
  function RegistrationTarget(countries: seq<Country>, files: seq<StoredFile>, queryCode: Json, bodyCode: Json, connected: bool): (r: Option<nat>)
    ensures r.Some? ==> files != [] && connected && Truthy(Or(queryCode, bodyCode)) && HasCountry(countries, r.value)
    ensures r.Some? ==> Or(queryCode, bodyCode).JStr? && r == CountryIdByCode(countries, Or(queryCode, bodyCode).s)
  {
    var code := Or(queryCode, bodyCode);
    if files == [] || !Truthy(code) || !code.JStr? || !connected then None
    else CountryIdByCode(countries, code.s)
  }

  /** The values one registration binds: a fresh item id, the original name as title, an
      empty description, today's date, type 'image' and the public url. */
  function FileInsert(countryId: nat, f: StoredFile, itemId: string, today: string): PhotoInsert {
    PhotoInsert(itemId, countryId, Some(f.originalName), Some(""), Some(today), Some("image"), Some(PublicUrl(f.filename)))
  }

  datatype TableState = TableState(rows: seq<Photo>, nextId: nat, failed: bool)

  /** The expected row for a registered file. */
  function RegisteredRow(countryId: nat, f: StoredFile, itemId: string, today: string, now: int, id: nat): Photo {
    Photo(id, countryId, itemId, f.originalName, Some(""), Some(today), Some("image"), PublicUrl(f.filename), now)
  }

  /** One iteration of the loop: nothing after a failure; otherwise the file's insert, which
      appends its row with the next id unless the country already has that item id. */
  function Step(s: TableState, countryId: nat, f: StoredFile, itemId: string, today: string, now: int): (t: TableState)
    ensures s.failed ==> t == s
    ensures !s.failed ==> (!t.failed <==> forall p :: p in s.rows ==> PhotoKey(p) != (countryId, Text.Lower(itemId)))
    ensures t.failed ==> t.rows == s.rows && t.nextId == s.nextId
    ensures !t.failed ==> t.rows == s.rows + [RegisteredRow(countryId, f, itemId, today, now, s.nextId)] && t.nextId == s.nextId + 1
  {
    if s.failed then s
    else
      match InsertedRow(s.rows, s.nextId, FileInsert(countryId, f, itemId, today), now)
      case None => s.(failed := true)
      case Some(p) => TableState(s.rows + [p], s.nextId + 1, false)
  }

  /** What an insert reports and leaves in the table is one step of the loop. */
  lemma StepByInsert(s: TableState, countryId: nat, f: StoredFile, itemId: string, today: string, now: int,
                     ok: bool, rows: seq<Photo>, nextId: nat)
    requires !s.failed
    requires var r := InsertedRow(s.rows, s.nextId, FileInsert(countryId, f, itemId, today), now);
      (ok <==> r.Some?) &&
      (ok ==> rows == s.rows + [r.value] && nextId == s.nextId + 1) &&
      (!ok ==> rows == s.rows && nextId == s.nextId)
    ensures Step(s, countryId, f, itemId, today, now) == TableState(rows, nextId, !ok)
  {
  }

  /** The table after the loop has tried the first `n` files; the first failing insert throws
      out of the loop, so nothing after it is tried. `uuid(i)` is the i-th `uuidv4()`. */
  function Register(start: TableState, countryId: nat, files: seq<StoredFile>, uuid: nat -> string, today: string, now: int, n: nat): TableState
    requires n <= |files|
  {
    if n == 0 then start
    else Step(Register(start, countryId, files, uuid, today, now, n - 1), countryId, files[n - 1], uuid(n - 1), today, now)
  }

  /** `s` is `start` with the rows of the first `|s.rows| - |start.rows|` files appended, each
      with the next id. */
  ghost predicate AppendedFrom(start: TableState, s: TableState, countryId: nat, files: seq<StoredFile>, uuid: nat -> string, today: string, now: int) {
    |start.rows| <= |s.rows| <= |start.rows| + |files| &&
    s.rows[..|start.rows|] == start.rows &&
    s.nextId == start.nextId + (|s.rows| - |start.rows|) &&
    forall j :: 0 <= j < |s.rows| - |start.rows| ==>
      s.rows[|start.rows| + j] == RegisteredRow(countryId, files[j], uuid(j), today, now, start.nextId + j)
  }

  /** A successful step keeps `AppendedFrom` with one more row. */
  lemma AppendedStep(start: TableState, s: TableState, countryId: nat, files: seq<StoredFile>, uuid: nat -> string, today: string, now: int)
    requires AppendedFrom(start, s, countryId, files, uuid, today, now)
    requires |s.rows| < |start.rows| + |files|
    ensures var k := |s.rows| - |start.rows|;
      AppendedFrom(start, TableState(s.rows + [RegisteredRow(countryId, files[k], uuid(k), today, now, s.nextId)], s.nextId + 1, false),
                   countryId, files, uuid, today, now)
  {
    var k := |s.rows| - |start.rows|;
    var rows := s.rows + [RegisteredRow(countryId, files[k], uuid(k), today, now, s.nextId)];
    assert rows[..|start.rows|] == s.rows[..|start.rows|];
    forall j | 0 <= j < |rows| - |start.rows|
      ensures rows[|start.rows| + j] == RegisteredRow(countryId, files[j], uuid(j), today, now, start.nextId + j)
    {
      if j < k {
        assert rows[|start.rows| + j] == s.rows[|start.rows| + j];
      }
    }
  }

  /** Registration only appends, one row per file in file order, each with the next id, until
      the first failure; without a failure every file has its row. */
  lemma {:induction false} RegisterAppends(start: TableState, countryId: nat, files: seq<StoredFile>, uuid: nat -> string, today: string, now: int, n: nat)
    requires n <= |files| && !start.failed
    ensures var s := Register(start, countryId, files, uuid, today, now, n);
      AppendedFrom(start, s, countryId, files, uuid, today, now) && |s.rows| <= |start.rows| + n &&
      (!s.failed ==> |s.rows| == |start.rows| + n)
  {
    if n == 0 {
      assert start.rows[..|start.rows|] == start.rows;
    } else {
      RegisterAppends(start, countryId, files, uuid, today, now, n - 1);
      var s := Register(start, countryId, files, uuid, today, now, n - 1);
      if !s.failed && !Register(start, countryId, files, uuid, today, now, n).failed {
        AppendedStep(start, s, countryId, files, uuid, today, now);
      }
    }
  }

  /** Once an insert fails, later iterations change nothing. */
  lemma {:induction false} RegisterStopped(start: TableState, countryId: nat, files: seq<StoredFile>, uuid: nat -> string, today: string, now: int, i: nat, n: nat)
    requires i <= n <= |files| && Register(start, countryId, files, uuid, today, now, i).failed
    ensures Register(start, countryId, files, uuid, today, now, n) == Register(start, countryId, files, uuid, today, now, i)
  {
    if n > i {
      RegisterStopped(start, countryId, files, uuid, today, now, i, n - 1);
    }
  }

  /** Every row after `n` steps was already there or carries the item id of one of the first
      `n` files, under the target country. */
  lemma {:induction false} RegisterRowsOrigin(start: TableState, countryId: nat, files: seq<StoredFile>, uuid: nat -> string, today: string, now: int, n: nat)
    requires n <= |files|
    ensures forall p :: p in Register(start, countryId, files, uuid, today, now, n).rows ==>
      p in start.rows || exists j :: 0 <= j < n && PhotoKey(p) == (countryId, Text.Lower(uuid(j)))
  {
    if n > 0 {
      RegisterRowsOrigin(start, countryId, files, uuid, today, now, n - 1);
      var s := Register(start, countryId, files, uuid, today, now, n - 1);
      var t := Register(start, countryId, files, uuid, today, now, n);
      forall p | p in t.rows
        ensures p in start.rows || exists j :: 0 <= j < n && PhotoKey(p) == (countryId, Text.Lower(uuid(j)))
      {
        if p !in s.rows {
          assert PhotoKey(p) == (countryId, Text.Lower(uuid(n - 1)));
        }
      }
    }
  }

  /** With fresh item ids (none already used by the country, no two alike), every file is
      registered. */
  lemma {:induction false} RegisterFreshSucceeds(start: TableState, countryId: nat, files: seq<StoredFile>, uuid: nat -> string, today: string, now: int, n: nat)
    requires n <= |files| && !start.failed
    requires forall p, j :: p in start.rows && 0 <= j < n ==> PhotoKey(p) != (countryId, Text.Lower(uuid(j)))
    requires forall j, k :: 0 <= j < k < n ==> Text.Lower(uuid(j)) != Text.Lower(uuid(k))
    ensures !Register(start, countryId, files, uuid, today, now, n).failed
  {
    if n > 0 {
      RegisterFreshSucceeds(start, countryId, files, uuid, today, now, n - 1);
      RegisterRowsOrigin(start, countryId, files, uuid, today, now, n - 1);
    }
  }

  /** The registration loop of `POST /images` for a known country: one insert per file,
      stopping at the first insert that fails. */
  method InsertFiles(db: Database, countryId: nat, files: seq<StoredFile>, uuid: nat -> string, today: string, now: int)
    requires db.Valid() && HasCountry(db.countries, countryId)
    modifies db
    ensures db.Valid() && db.countries == old(db.countries) && db.descriptions == old(db.descriptions)
    ensures var s := Register(TableState(old(db.fototeca), old(db.nextPhotoId), false), countryId, files, uuid, today, now, |files|);
      db.fototeca == s.rows && db.nextPhotoId == s.nextId
  {
    ghost var start := TableState(db.fototeca, db.nextPhotoId, false);
    var i := 0;
    var failed := false;
    while i < |files| && !failed
      invariant 0 <= i <= |files|
      invariant Register(start, countryId, files, uuid, today, now, i) == TableState(db.fototeca, db.nextPhotoId, failed)
      invariant db.Valid() && db.countries == old(db.countries) && db.descriptions == old(db.descriptions)
    {
      ghost var s := TableState(db.fototeca, db.nextPhotoId, false);
      var ok := db.InsertPhoto(FileInsert(countryId, files[i], uuid(i), today), now);
      StepByInsert(s, countryId, files[i], uuid(i), today, now, ok, db.fototeca, db.nextPhotoId);
      failed := !ok;
      i := i + 1;
    }
    if failed {
      RegisterStopped(start, countryId, files, uuid, today, now, i, |files|);
    }
  }

  /** `POST /images`: answers from the files alone; when a target country is found, inserts
      one row per file until the first failing insert. */
  method RegisterImages(db: Database, files: seq<StoredFile>, queryCode: Json, bodyCode: Json, connected: bool,
                        uuid: nat -> string, today: string, now: int) returns (r: Response)
    requires db.Valid()
    modifies db
    ensures db.Valid()
    ensures r == UploadManyReply(files)
    ensures db.countries == old(db.countries) && db.descriptions == old(db.descriptions)
    ensures RegistrationTarget(old(db.countries), files, queryCode, bodyCode, connected).None? ==>
      db.fototeca == old(db.fototeca) && db.nextPhotoId == old(db.nextPhotoId)
    ensures RegistrationTarget(old(db.countries), files, queryCode, bodyCode, connected).Some? ==>
      var s := Register(TableState(old(db.fototeca), old(db.nextPhotoId), false),
                        RegistrationTarget(old(db.countries), files, queryCode, bodyCode, connected).value, files, uuid, today, now, |files|);
      db.fototeca == s.rows && db.nextPhotoId == s.nextId
  {
    r := UploadManyReply(files);
    var target := RegistrationTarget(db.countries, files, queryCode, bodyCode, connected);
    if target.Some? {
      InsertFiles(db, target.value, files, uuid, today, now);
    }
  }

  // ---------------------------------------------------------------------------------------
  // `DELETE /:filename`

  /** The first check: the name is its own basename and holds no '..', '/' or '\'. */
  predicate PlainName(filename: string) {
    BaseName(filename) == filename && !Text.Contains(filename, "..") &&
    !Text.Contains(filename, "/") && !Text.Contains(filename, "\\")
  }

  /** The parent directory of an absolute path. */
  function Parent(dir: string): string {
    var p := StripTrailingSlashes(dir);
    var last := AfterLastSlash(p);
    var up := StripTrailingSlashes(p[..|p| - |last|]);
    if up == "" then "/" else up
  }

  /** `path.resolve(path.join(dir, segment))` for a normalised absolute `dir` and a segment
      without '/': the empty name and '.' stay at `dir`, '..' goes up. */
  function Resolve(dir: string, segment: string): string
    requires '/' !in segment
  {
    if segment == "" || segment == "." then dir
    else if segment == ".." then Parent(dir)
    else dir + "/" + segment
  }

  /** A normalised absolute directory other than the root. */
  predicate DirectoryPath(dir: string) {
    |dir| >= 2 && dir[0] == '/' && dir[|dir| - 1] != '/'
  }

  /** The HTTP outcome of a delete, check by check in the order the handler makes them. */
  function DeleteResponse(dir: string, names: set<string>, filename: string, unlinkOk: bool): (r: Response)
    ensures r.status in {200, 400, 403, 404, 500}
    ensures r.status == 400 <==> !PlainName(filename)
    ensures r.status == 403 <==> PlainName(filename) && !Text.StartsWith(Resolve(dir, filename), dir + "/")
    ensures r.status == 404 <==> PlainName(filename) && Text.StartsWith(Resolve(dir, filename), dir + "/") && filename !in names
    ensures r.status == 500 <==> PlainName(filename) && Text.StartsWith(Resolve(dir, filename), dir + "/") && filename in names && !unlinkOk
    ensures r.status == 200 <==> PlainName(filename) && Text.StartsWith(Resolve(dir, filename), dir + "/") && filename in names && unlinkOk
  {
    if !PlainName(filename) then Failure(400, "Nombre de archivo inválido")
    else if !Text.StartsWith(Resolve(dir, filename), dir + "/") then Failure(403, "Acceso denegado")
    else if filename !in names then Failure(404, "Archivo no encontrado")
    else if !unlinkOk then Failure(500, "Error al eliminar el archivo")
    else Ok(JObj(map["success" := JBool(true)]))
  }

  /** A name equal to its basename has no '/', so the '/' test never decides. */
  lemma SlashTestRedundant(filename: string)
    requires BaseName(filename) == filename
    ensures !Text.Contains(filename, "/")
  {
    Text.ContainsIff(filename, "/");
    forall k | 0 <= k <= |filename| - 1 ensures !Text.OccursAt(filename, "/", k) {
      assert filename[k] in filename;
      assert filename[k..k + 1] == [filename[k]];
    }
  }

  /** After the first check, the directory check only refuses '' and '.', which resolve to the
      directory itself. */
  lemma DirectoryCheck(dir: string, filename: string)
    requires DirectoryPath(dir) && PlainName(filename)
    ensures Text.StartsWith(Resolve(dir, filename), dir + "/") <==> filename != "" && filename != "."
  {
  }

  /** The directory check alone would also refuse '..', which resolves to the parent. */
  lemma ParentIsOutside(dir: string)
    requires DirectoryPath(dir)
    ensures !Text.StartsWith(Resolve(dir, ".."), dir + "/")
  {
    var last := AfterLastSlash(dir);
    var up := StripTrailingSlashes(dir[..|dir| - |last|]);
    assert StripTrailingSlashes(dir) == dir;
    assert |up| <= |dir|;
  }

  /** The folder `public/imagenes`: its resolved path and the names directly in it. */
  class MediaFolder {
    const dir: string
    var names: set<string>

    ghost predicate Valid()
      reads this
    {
      DirectoryPath(dir) && forall n :: n in names ==> n != "" && '/' !in n
    }

    constructor (dir: string, names: set<string>)
      requires DirectoryPath(dir) && forall n :: n in names ==> n != "" && '/' !in n
      ensures Valid() && this.dir == dir && this.names == names
    {
      this.dir := dir;
      this.names := names;
    }

    /** `DELETE /:filename`; `unlinkOk` is whether `unlinkSync` succeeds. Only a plain name
        directly inside the folder is ever removed. */
    method Delete(filename: string, unlinkOk: bool) returns (r: Response)
      requires Valid()
      modifies this
      ensures Valid()
      ensures r == DeleteResponse(dir, old(names), filename, unlinkOk)
      ensures r.status == 200 ==> names == old(names) - {filename}
      ensures r.status == 200 ==> PlainName(filename) && Resolve(dir, filename) == dir + "/" + filename && filename != "" && filename != "."
      ensures r.status != 200 ==> names == old(names)
    {
      r := DeleteResponse(dir, names, filename, unlinkOk);
      if r.status == 200 {
        DirectoryCheck(dir, filename);
        names := names - {filename};
      }
    }
  }
}
