# Wiki Conflicts content layer — a Dafny model

This project models the sequential core of the Wiki Conflicts site: the public read API
with its database-then-snapshot fallback, the client's fetch-then-mirror chain, the
upload routes and their filename rules, the fototeca cleanup script, the CMS's fototeca
and description tables, and the logic inside four admin screens (dashboard, country
editor, fototeca editor, terminology editor).

Every I/O result becomes an input:
- whether the database answers, throws or lacks the parent row;
- which snapshot files exist;
- how a `fetch` ended;
- what `JSON.parse`, `uuidv4` and `new Date()` return.

What the handlers and screens do with those inputs is modelled exactly, branch by branch.

Modules, one per source file plus shared ones:

- `Wrappers`, `Json`, `Text`, `Order`, `Seqs` cover shared notions:
  - `Option`;
  - JSON values with JavaScript truthiness (`||`, missing keys read as `null`, a property read of `null` throws);
  - `toLowerCase`, `trim`, `includes`;
  - the character-code string order of `Array.prototype.sort`;
  - `filter` and subsequences.
- `Schema` holds the MySQL tables `countries`, `descriptions` and `fototeca`:
  - their keys (`unique_desc`, `unique_item`, the primary keys);
  - the collation used to compare strings;
  - the `Database` class whose methods are the INSERT, UPDATE, DELETE and upsert statements.
- `PublicApi` models `server/routes/public-api.js`. Every `GET` handler is a pure function of the database
  outcome and the snapshot store.
- `ClientApi` models `src/utils/api.js`.
- `Upload` models `server/routes/upload.js`:
  - the stored filename;
  - the MIME filter;
  - `/list`;
  - `/images` registration, as a loop over the `Database` class;
  - the guarded delete, on a `MediaFolder` class.
- `CleanDatabase` models `server/cleanDatabase.js`. It does the four passes as methods over the
  `Database` class, specified by functions on the row sequence.
- `CmsDb` models the fototeca, description, witness, gallery and country routes of
  `server/routes/cms-db.js`.
- `AdminDashboard`, `AdminCountry`, `FototecaEditor` and `TerminologyEditor` model the admin screens. Each
  screen's React state is a class; each handler is a method; derived values are functions.

## Model

| member | source | states |
|---|---|---|
| Json.NormalizeColumn | server/routes/public-api.js:184-186 | a string column is parsed (None exactly when the parse fails); a non-string is kept when truthy, replaced by the default otherwise; a truthy default gives a truthy result |
| Json.NullColumnBecomesDefault | server/routes/public-api.js:184-186 | a NULL JSON column always becomes the default, `[]` or `{}` |
| Json.Prop | attached_assets/TerminologyEditor_1767000183209.js:101-106 | reading a property throws exactly on a `null` receiver; otherwise it reads the property, or null when missing |
| Json.NormalizeIdempotent | server/routes/public-api.js:184-186 | normalising an already-normalised non-string value changes nothing |
| Json.OverlayLists | server/routes/public-api.js:607-611 | `{...row, k: normalise(row.k)}` keeps every other key's value, adds exactly the listed keys, normalises each of them, and fails exactly when one of them fails to parse |
| Json.MapRows | server/routes/public-api.js:607-611 | mapping rows gives one object per row, in order, and fails exactly when the callback throws on some row |
| Text.Lower | attached_assets/TerminologyEditor_1767000183209.js:174-175 | lower-casing keeps the length and maps each character |
| Text.LowerIdempotent | attached_assets/TerminologyEditor_1767000183209.js:174-175 | lower-casing twice equals lower-casing once |
| Text.ContainsIff | attached_assets/TerminologyEditor_1767000183209.js:174-175 | `includes` holds exactly when the needle occurs at some offset |
| Text.TrimProperties | attached_assets/TerminologyEditor_1767000183209.js:134-137 | `trim()` is empty exactly for all-blank input; otherwise it is a contiguous piece of the input that starts and ends non-blank |
| Text.TrimIdempotent | attached_assets/TerminologyEditor_1767000183209.js:134-137 | trimming twice equals trimming once |
| Order.SortCorrect | server/routes/public-api.js:714-717 | `sort()` gives a sorted permutation of its input under the character-code order |
| Order.SortDistinct | server/routes/public-api.js:714-717 | sorting a duplicate-free list gives a strictly increasing list with the same elements |
| Order.Dedup | src/admin/AdminCountry.js:141 | `[...new Set(s)]` is duplicate-free and has the same members as `s` |
| Admin.PermissionsCorrect | attached_assets/TerminologyEditor_1767000183209.js:167-169 | an admin may create, edit and delete; anyone else exactly what the permission flags grant, and nothing without a permissions object (the same predicate guards the "Nuevo País" button of the dashboard) |
| Admin.FindPredefined | src/admin/AdminDashboard.js:60 | `find` by code: the first predefined country with that code, None exactly when there is none |
| Schema.CountryIdByCode | server/routes/cms-db.js:9-12 | the id of the first country row whose code equals the code under the collation, in any language, or None when no row has it |
| Schema.InsertedRow | server/db.js:155-168 | an insert is refused exactly for a NULL title or url, a type outside the ENUM, or an existing (country_id, item_id); an accepted row takes the next id and keeps the inserted values |
| Schema.UpdateMatchingSpec | server/routes/cms-db.js:46-49 | the UPDATE fails only when a row matches and the values are not storable; otherwise matched rows take the new values and keep their id, country, item id and creation time, and other rows are unchanged |
| Schema.UpdateMatchingKeepsValid | server/db.js:155-168 | a successful UPDATE keeps every key of the tables unique |
| Schema.DeletePhotosKeepsValid | server/db.js:155-168 | deleting fototeca rows keeps the tables valid |
| Schema.UpdatePhotosKeepsValid | server/db.js:155-168 | rewriting rows without touching id, country or item id keeps the tables valid |
| Schema.DescriptionOf | server/db.js:58-67 | the description row of a country: one with that country id, None when there is none |
| Schema.UpsertReadBack | server/routes/cms-db.js:137-140 | after the upsert the country's description is the one written |
| Schema.UpsertLeavesOthers | server/routes/cms-db.js:137-140 | the upsert leaves every other country's description unchanged |
| Schema.UpsertRows | server/routes/cms-db.js:137-140 | the upsert adds a row only when the country had none, and every remaining row is the written one or an old one |
| Schema.UpsertKeepsUnique | server/db.js:58-67 | the upsert keeps `unique_desc`: at most one description per country |
| Schema.UpsertKeepsValid | server/db.js:58-67 | the upsert of an existing country's description keeps the tables valid |
| Schema.Database.constructor | server/db.js:35-44 | a database holding only the given countries and empty fototeca and description tables |
| Schema.Database.InsertPhoto | server/routes/cms-db.js:32-35 | a successful insert appends the accepted row and advances the counter; a refused insert changes nothing |
| Schema.Database.UpdatePhotos | server/routes/cms-db.js:46-49 | a successful UPDATE leaves the rewritten rows and a failed one changes nothing; the tables stay valid |
| Schema.Database.DeletePhotos | server/routes/cms-db.js:59 | the fototeca keeps exactly the rows the DELETE does not match, in order |
| Schema.Database.UpsertDescription | server/routes/cms-db.js:137-140 | the descriptions become the upserted table, and nothing else changes |
| PublicApi.Lang | server/routes/public-api.js:31 | `lang` is the query parameter when non-empty, otherwise 'es' |
| PublicApi.Respond | server/routes/public-api.js:30-47 | a database answer is returned whatever the snapshot; otherwise a truthy snapshot; otherwise the fixed default |
| PublicApi.Handle | server/routes/public-api.js:18-28 | the database answers exactly when the query found its rows and shaping them did not throw; otherwise the snapshot answers exactly when its file exists and is truthy; otherwise the default |
| PublicApi.DatabaseAnswerIgnoresSnapshot | server/routes/public-api.js:30-47 | once the database answers, no snapshot content can change the reply |
| PublicApi.FailuresFallThroughAlike | server/routes/public-api.js:140-153 | an unreachable database, a throwing query and a missing parent row produce the same reply, and never a database reply |
| PublicApi.NoSourceGivesDefault | server/routes/public-api.js:150-153 | with a failed database part and no snapshot file, the reply is the fixed default |
| PublicApi.KeysOf | server/routes/public-api.js:156-197 | every field of a response field list contributes its key |
| PublicApi.ShapeRow | server/routes/public-api.js:177-190 | the object built from a row has exactly the listed keys, each field taken from its column (JSON columns normalised), and fails exactly when a JSON column fails to parse |
| PublicApi.CountriesRoute | server/routes/public-api.js:30-47 | found rows answer `{countries: rows}`; otherwise the snapshot at `/data/{lang}/countries.json`; otherwise `{countries: []}` |
| PublicApi.EnsureVelum | server/routes/public-api.js:67-71 | the result always has a VELUM section; the existing sections keep their order as a prefix; the VELUM section is appended at the end, only when missing |
| PublicApi.EnsureVelumIdempotent | server/routes/public-api.js:85-91 | ensuring the VELUM section twice equals doing it once |
| PublicApi.SomeVelum | server/routes/public-api.js:84-89 | `some` answers whether a VELUM section exists when it completes, and throws exactly when it reaches a null section before any VELUM one |
| PublicApi.NullSectionLeavesMetaUnanswered | server/routes/public-api.js:84-89 | a snapshot whose sections start with a null entry leaves the meta request unanswered when the database does not answer |
| PublicApi.MetaRoute | server/routes/public-api.js:49-92 | database rows answer the code, name and sections with VELUM ensured; a snapshot answer is the snapshot document with VELUM ensured in its sections; the default meta when nothing answers; no reply at all exactly when the handler throws on a truthy snapshot (no `sections` list, or a null section before any VELUM one) |
| PublicApi.MetaAlwaysListsVelum | server/routes/public-api.js:84-91 | whatever source answers, the `sections` list holds a VELUM entry |
| PublicApi.DescriptionRoute | server/routes/public-api.js:94-127 | a present country without a description row answers the fixed title with no chapters; with a row, the database answers exactly when its chapters normalise, with the stored title and those chapters; a failed database part never answers from the database; a snapshot answer comes from the description file; the default is `{title:'', chapters:[]}` |
| PublicApi.MissingDescriptionDoesNotFallBack | server/routes/public-api.js:111-118 | with a present country and no description row, the snapshot store has no effect on the reply |
| PublicApi.CountryListRoute | server/routes/public-api.js:129-154 | a present country answers `{items: rows}` from the database (possibly empty); a failed database part never answers from the database; the default is `{items: []}` |
| PublicApi.EmptyCountryDoesNotFallBack | server/routes/public-api.js:140-153 | a present country with no rows answers `{items: []}` from the database; a missing country row falls through like an outage |
| PublicApi.EventRoute | server/routes/public-api.js:156-197 | the database answers exactly when the event row is found and shapes, and then with the shaped event row; otherwise the event's snapshot; otherwise `null` |
| PublicApi.ProfileRoute | server/routes/public-api.js:226-275 | the database answers exactly when the witness, resistor or analyst is found and it and its children shape, with the shaped profile carrying one shaped child per child row; otherwise its snapshot; otherwise `null` |
| PublicApi.PieceRoute | server/routes/public-api.js:277-321 | the database answers exactly when the testimony, entry or analysis is found and shapes, and then with the shaped row; otherwise its snapshot; otherwise `null` |
| PublicApi.ArticleRoute | server/routes/public-api.js:622-656 | the database answers exactly when the VELUM article is found and shapes, and then with the shaped row; otherwise its snapshot; otherwise `null` |
| PublicApi.ListColumnValue | server/routes/public-api.js:184-186 | a JSON list column is parsed when a string, kept when truthy, and `[]` when falsy |
| PublicApi.EventFieldsLayout | server/routes/public-api.js:177-190 | the event's id is renamed from `event_id`, and paragraphs, content blocks and sources are JSON list columns |
| PublicApi.EventColumnsNormalised | server/routes/public-api.js:184-186 | a NULL `paragraphs` becomes `[]`, and a string `content_blocks` is parsed |
| PublicApi.SocialDefaultsToObject | server/routes/public-api.js:255 | a profile's NULL `social` column becomes `{}` |
| PublicApi.VelumListRoute | server/routes/public-api.js:598-620 | the database answers exactly when every article row's `keywords` normalises, with item i the overlay of row i; otherwise the VELUM index snapshot; otherwise `{items: []}` |
| PublicApi.TerminologyRoute | server/routes/public-api.js:658-681 | the database answers exactly when every term row's `relatedTerms` and `sources` normalise, with item i the overlay of row i; otherwise the terminology snapshot; otherwise `{items: []}` |
| PublicApi.CategoryMappingsInverse | server/routes/public-api.js:733-742 | the plural and singular mappings are inverse on the six known categories; any other id passes through either mapping unchanged |
| PublicApi.ByLetterQuery | server/routes/public-api.js:746-749 | the query uses the lower-cased letter and the mapped category, and a known plural id becomes a known singular one |
| PublicApi.ByLetterRoute | server/routes/public-api.js:729-765 | the database answers exactly when every row's `relatedTerms` and `sources` normalise, with item i the overlay of row i; otherwise the category/letter snapshot; otherwise `{items: []}` |
| PublicApi.ByLetterLowercasesBoth | server/routes/public-api.js:746-763 | the letter is lower-cased both for the query and for the snapshot path |
| PublicApi.TermRoute | server/routes/public-api.js:767-795 | a term is never answered from a snapshot; the database answers exactly when the row is found and shapes, and then with the shaped row; otherwise `null` |
| PublicApi.IndexStep | server/routes/public-api.js:702-712 | one term of the `forEach` adds its category id when new and its first letter when it qualifies and is new for that category |
| PublicApi.BuildIndex | server/routes/public-api.js:702-717 | the `forEach` and the `Object.keys` mapping compute exactly the index specification |
| PublicApi.LettersOfAbsentCategory | server/routes/public-api.js:702-712 | a category no term maps to collects no letters |
| PublicApi.CategoryIdsCorrect | server/routes/public-api.js:702-712 | the category ids are distinct, and an id is listed exactly when some term's renamed category is that id, even when none of its terms yields a letter |
| PublicApi.LettersSeenCorrect | server/routes/public-api.js:702-712 | a category's letters are distinct single letters a-z, and a letter is there exactly when some term of that category starts with it in either case |
| PublicApi.IndexCorrect | server/routes/public-api.js:714-717 | each index entry pairs a category id, in order of first appearance, with its letters sorted and without repetition |
| PublicApi.TerminologyIndexRoute | server/routes/public-api.js:683-727 | the route is the resolver applied to the index body built from the term rows |
| ClientApi.FetchFromApi | src/utils/api.js:4-26 | the API is asked first, and its body is returned when the response is ok; the mirror is asked second exactly when the API fails and a fallback path is given; the result is `null` when neither answers, and any other result is the body of one of the requested URLs |
| ClientApi.ThrownLikeNotOk | src/utils/api.js:10-14 | a rejected API fetch leads to the same requests and result as a non-ok response |
| ClientApi.Shape | src/utils/api.js:29-47 | list getters give a truthy `items` or `[]`; `getCountries` gives `countries`, else the data, else `[]`; `getDescription` gives the data when truthy, else `{title:'', chapters:[]}`; the rest pass the data through |
| ClientApi.ListGettersNeverNull | src/utils/api.js:44-47 | a list getter never returns `null`: the fetched `items` when truthy, otherwise `[]` |
| ClientApi.TermHasNoFallback | src/utils/api.js:104-107 | `getTerm` makes one request, and a failed API call answers `null` |
| ClientApi.MirrorMatchesServerSnapshot | src/utils/api.js:114-117 | every getter's mirror path is the server's snapshot path, except category/letter, where the two agree exactly when the letter is already lower case |
| Upload.BaseName | server/routes/upload.js:21-22 | `path.basename` holds no '/' |
| Upload.BaseNameOfSegment | server/routes/upload.js:21-22 | a name without '/' is its own basename |
| Upload.LastDot | server/routes/upload.js:21 | the position of the last '.', or -1 when there is none |
| Upload.StemAndExtensionSplit | server/routes/upload.js:21-22 | stem followed by extension is the basename |
| Upload.ExtensionShape | server/routes/upload.js:21 | an extension is empty or a '.' followed by no other '.', and a non-empty extension leaves a non-empty stem |
| Upload.StemAndExtensionSegments | server/routes/upload.js:21-22 | neither stem nor extension holds a '/' |
| Upload.Sanitize | server/routes/upload.js:22-24 | the sanitised name has the same length, and each character is replaced by its sanitised form |
| Upload.SanitizeCorrect | server/routes/upload.js:22-24 | the sanitised name uses only `[a-z0-9_-]`; a name already of that form is kept; sanitising twice equals sanitising once |
| Upload.StoredNameKeepsExtension | server/routes/upload.js:20-27 | with a uuid without '.' or '/', the stored name is one path segment, its extension is that of the uploaded name, and its stem is the sanitised stem, '_' and the uuid prefix |
| Upload.FileFilter | server/routes/upload.js:30-41 | a MIME type is accepted exactly when it is on the list; any other is rejected with the fixed message |
| Upload.FileFilterAcceptsMediaOnly | server/routes/upload.js:30-41 | only image, video and audio types pass |
| Upload.AllowedTypesDistinct | server/routes/upload.js:31-36 | the list has twelve distinct entries |
| Upload.FileFilterIsExact | server/routes/upload.js:30-41 | the comparison is exact, so a differently cased type or an image type off the list is rejected |
| Upload.ImagesAndVideosDisjoint | server/routes/upload.js:140-145 | no name is listed both as an image and as a video |
| Upload.ListWhere | server/routes/upload.js:140-145 | a listed entry is exactly a directory name that passes the filter, with the url `/imagenes/{name}` |
| Upload.ListWhereConcat | server/routes/upload.js:140-145 | the listing keeps directory order |
| Upload.ListJson | server/routes/upload.js:140-145 | one JSON entry per listed file, in order |
| Upload.ListMedia | server/routes/upload.js:134-151 | `/list` answers 200 with the image names and the video names of the directory |
| Upload.ListMediaCorrect | server/routes/upload.js:134-151 | a name is listed under images exactly when it is an image name of the directory, under videos exactly when it is a video name, and never under both |
| Upload.UploadOne | server/routes/upload.js:51-63 | no file answers 400 with the fixed message; a file answers success, its filename, the url `/imagenes/{filename}` and its size; `/media` alone adds the MIME type |
| Upload.UploadManyReply | server/routes/upload.js:65-102 | no files answers 400; otherwise success with one entry per file, in order, carrying its filename, public url and size, whatever registration does |
| Upload.RegistrationTarget | server/routes/upload.js:70-84 | files are registered only when there are files, a truthy string `countryCode` (query first, then body), a connection, and a country with that code |
| Upload.Step | server/routes/upload.js:85-91 | one iteration: nothing after a failure; otherwise the file's row is appended with the next id exactly when the country has no row with that item id, and a refused insert marks the loop failed |
| Upload.StepByInsert | server/routes/upload.js:85-91 | what the database insert reports and leaves in the table is one iteration of the loop |
| Upload.AppendedStep | server/routes/upload.js:85-91 | appending the next file's row keeps the table equal to the start plus the rows of the leading files |
| Upload.RegisterRowsOrigin | server/routes/upload.js:85-91 | every row after registration was there before or carries, under the target country, the item id of one of the files tried |
| Upload.RegisterAppends | server/routes/upload.js:85-91 | registration only appends, one row per file in file order, each with the next id, up to the first failing insert; without a failure every file has its row |
| Upload.RegisterStopped | server/routes/upload.js:85-91 | once an insert has failed, the later iterations change nothing |
| Upload.RegisterFreshSucceeds | server/routes/upload.js:85-91 | with item ids that the country does not use and that are pairwise distinct, every file is registered |
| Upload.InsertFiles | server/routes/upload.js:85-91 | the loop leaves the table the registration function computes, and keeps the database valid |
| Upload.RegisterImages | server/routes/upload.js:65-103 | `/images` answers from the files alone; rows are added only for a found target country, and then as registration computes |
| Upload.DeleteResponse | server/routes/upload.js:156-175 | 400 exactly for a name that is not a plain basename without '..', '/' or '\\'; 403 exactly for a plain name resolving outside the folder; 404 exactly for a plain name inside it that is not a file there; 500 exactly when its unlink fails; 200 exactly when it succeeds |
| Upload.SlashTestRedundant | server/routes/upload.js:156-159 | a name equal to its basename has no '/', so that test never decides |
| Upload.DirectoryCheck | server/routes/upload.js:162-166 | after the name check, the directory check refuses only '' and '.' |
| Upload.ParentIsOutside | server/routes/upload.js:162-166 | '..' resolves outside the directory |
| Upload.MediaFolder.constructor | server/routes/upload.js:11 | a folder with the given directory and files |
| Upload.MediaFolder.Delete | server/routes/upload.js:153-183 | the reply is the delete outcome; a 200 removes exactly that name, which lies directly inside the folder; any other status removes nothing |
| CleanDatabase.RemoveMissingUrls | server/cleanDatabase.js:20-29 | pass 1 keeps exactly the rows whose url is not NULL, '', 'null' or 'undefined' |
| CleanDatabase.EmptyUrlIsEmpty | server/cleanDatabase.js:35 | `url != ''` excludes only the empty url |
| CleanDatabase.SameUrlSameRows | server/cleanDatabase.js:43 | urls equal under the collation select the same rows |
| CleanDatabase.NewestExcept | server/cleanDatabase.js:43 | the newest of the first rows other than the skipped one, or -1 when there is none |
| CleanDatabase.Newest | server/cleanDatabase.js:43 | the first row of `ORDER BY created_at DESC` is at least as new as every row |
| CleanDatabase.SecondNewest | server/cleanDatabase.js:43 | `OFFSET 1` selects a row other than the newest, at least as new as every other row |
| CleanDatabase.DeleteLeavesOtherUrls | server/cleanDatabase.js:47-53 | deleting for one url leaves the rows of every other url as they were |
| CleanDatabase.DeleteForUrlCount | server/cleanDatabase.js:47-53 | deleting for a duplicated url removes exactly one of its rows |
| CleanDatabase.DeleteForUrlKeepsNewest | server/cleanDatabase.js:47-53 | the newest row of the url is kept |
| CleanDatabase.DeleteForUrlKeepsOthers | server/cleanDatabase.js:47-53 | every row of another url is kept |
| CleanDatabase.DeleteForUrlSize | server/cleanDatabase.js:47-53 | the table shrinks by exactly one row |
| CleanDatabase.DeleteForUrlKeepsValid | server/cleanDatabase.js:42-53 | one iteration keeps the tables valid and removes a row exactly when the url is duplicated |
| CleanDatabase.DeleteForUrlUnique | server/cleanDatabase.js:47-53 | ids stay unique |
| CleanDatabase.DeleteDuplicatesUnique | server/cleanDatabase.js:40-55 | the loop keeps ids unique |
| CleanDatabase.DeleteDuplicatesOthers | server/cleanDatabase.js:40-55 | the loop leaves the rows of unvisited urls as they were |
| CleanDatabase.DeleteDuplicatesCount | server/cleanDatabase.js:40-55 | over distinct urls, the loop removes exactly one copy of each duplicated url |
| CleanDatabase.DeleteDuplicatesKeepsNewest | server/cleanDatabase.js:40-55 | over distinct urls, the loop keeps the newest row of each duplicated url |
| CleanDatabase.UrlGroupsCover | server/cleanDatabase.js:36 | every url of the table belongs to a `GROUP BY url` group |
| CleanDatabase.UrlGroupsDistinct | server/cleanDatabase.js:36 | no two groups are equal under the collation |
| CleanDatabase.UrlGroupsFromRows | server/cleanDatabase.js:36 | every group is the url of some row |
| CleanDatabase.DuplicatedAmong | server/cleanDatabase.js:32-38 | a group is kept exactly when its url is non-empty and occurs more than once |
| CleanDatabase.DuplicatedAmongDistinct | server/cleanDatabase.js:32-38 | the duplicated groups stay distinct |
| CleanDatabase.DuplicateUrlsComplete | server/cleanDatabase.js:32-38 | every non-empty url with copies is visited, and no url twice |
| CleanDatabase.RemoveDuplicatesDuplicated | server/cleanDatabase.js:32-55 | pass 2 removes exactly one copy of a duplicated url and keeps its newest row; with three or more copies the url is still duplicated afterwards |
| CleanDatabase.RemoveDuplicatesKeepsSingles | server/cleanDatabase.js:32-55 | pass 2 keeps every row whose url is empty or occurs once |
| CleanDatabase.FixCloudinaryUrls | server/cleanDatabase.js:65-69 | pass 3 keeps every row in place and changes only its url, through the fix |
| CleanDatabase.FixUrlCorrect | server/cleanDatabase.js:65-69 | a fixed url is no longer a bad Cloudinary url and still mentions Cloudinary; a good url is kept |
| CleanDatabase.FixCloudinaryUrlsIdempotent | server/cleanDatabase.js:60-71 | pass 3 is idempotent and leaves no bad Cloudinary url |
| CleanDatabase.IdsOf | server/cleanDatabase.js:86-87 | the `id IN (…)` list holds every selected id and nothing else, no more ids than rows |
| CleanDatabase.DeleteByIdsBound | server/cleanDatabase.js:84-88 | deleting by a set of ids removes at most that many rows |
| CleanDatabase.RemoveGhostsBounded | server/cleanDatabase.js:73-91 | pass 4 deletes at most 50 rows, and keeps every row with a title or a description |
| CleanDatabase.RemoveGhostsComplete | server/cleanDatabase.js:73-91 | with at most 50 ghost rows, pass 4 leaves none |
| CleanDatabase.DeleteDuplicatesSubset | server/cleanDatabase.js:40-55 | the duplicate loop only deletes rows |
| CleanDatabase.FixUrlUsable | server/cleanDatabase.js:65-69 | prefixing 'https://' keeps a usable url usable |
| CleanDatabase.CleanedRowsWellFormed | server/cleanDatabase.js:20-91 | after the four passes every row has a usable url, and no Cloudinary url lacks 'https://' |
| CleanDatabase.DeleteSecondNewestRow | server/cleanDatabase.js:42-53 | one iteration deletes the second-newest row of the url, when there is one, and returns how many rows went |
| CleanDatabase.DeleteDuplicateRows | server/cleanDatabase.js:32-55 | the loop leaves the table pass 2 computes and returns the number of deleted rows |
| CleanDatabase.Clean | server/cleanDatabase.js:15-108 | without a connection nothing changes; otherwise the table becomes the four passes applied in order, and the stats are the row count and the number of distinct urls |
| CmsDb.KnownCountry | server/routes/cms-db.js:9-12 | the handlers' country id: the code's first country id when it is present and not 0, otherwise None |
| CmsDb.KnownCountryInValidTables | server/routes/cms-db.js:9-12 | in a valid database the truthiness test only catches a missing country |
| CmsDb.InsertByDate | server/routes/cms-db.js:19 | inserting into a newest-first list keeps it newest first and adds exactly that row; every row of the result is that row or one of the list |
| CmsDb.SortNewestFirst | server/routes/cms-db.js:19 | `ORDER BY created_at DESC` gives a newest-first permutation of the rows |
| CmsDb.ListFototeca | server/routes/cms-db.js:15-24 | a query error answers 500 with its message; an unknown country answers `{items: []}`; otherwise 200 |
| CmsDb.ListFototecaItems | server/routes/cms-db.js:15-24 | for a known country the listing holds exactly that country's rows, each once, newest first |
| CmsDb.OrText | server/routes/cms-db.js:32-35 | `v or fallback`: v when non-empty, otherwise the fallback |
| CmsDb.CreateInsert | server/routes/cms-db.js:32-35 | the insert keeps title, url and item id as sent, and defaults description and date to '' and type to 'image' |
| CmsDb.CreateFreshSucceeds | server/routes/cms-db.js:26-40 | with a fresh item id, creating succeeds exactly when the body has a title and a url and a type that is missing, empty, 'image' or 'video' |
| CmsDb.CreateItem | server/routes/cms-db.js:26-40 | an unknown country answers 404 and leaves the table alone; otherwise the insert runs, and success appends exactly one row and answers its id, title and url |
| CmsDb.UpdateItem | server/routes/cms-db.js:42-54 | the UPDATE touches only rows with that item id in that country, and answers success whether or not a row matched |
| CmsDb.UpdateUnknownCountry | server/routes/cms-db.js:44-49 | an update for an unknown code matches nothing and leaves the table unchanged |
| CmsDb.DeleteItem | server/routes/cms-db.js:56-64 | the table keeps exactly the rows that do not match item id and country, and the reply is a success |
| CmsDb.DeleteItemRemovesMatch | server/routes/cms-db.js:56-64 | in a valid table the delete removes at most one row |
| CmsDb.GetDescription | server/routes/cms-db.js:122-132 | a query error answers 500; an unknown country or a missing row answers `{title:'', chapters:[]}`; a present row answers its title (null when NULL) with the chapters normalised to a list, or 500 when they fail to parse |
| CmsDb.PutDescription | server/routes/cms-db.js:134-145 | an unknown code is refused by the NOT NULL column and changes nothing; otherwise the country's description becomes the one written |
| CmsDb.DescriptionRoundTrip | server/routes/cms-db.js:122-145 | reading a description after writing it gives the title and the chapters written, or `[]` when they are falsy |
| CmsDb.DescriptionWriteIsolated | server/routes/cms-db.js:134-145 | writing one country's description does not change what another country reads |
| CmsDb.WitnessDetail | server/routes/cms-db.js:78-95 | 404 exactly when no witness has that id; otherwise the first witness's columns, with `social` normalised to an object, and testimony i the normalised testimony row i; a parse failure answers 500 |
| CmsDb.WitnessDetailWithoutText | server/routes/cms-db.js:84-91 | without JSON text columns the detail always answers, and an empty `social` becomes `{}` |
| CmsDb.GalleryImages | server/routes/cms-db.js:148-155 | a query error answers 500; otherwise entry i carries the url and title of gallery row i |
| CmsDb.TakeKeepsNewest | server/routes/cms-db.js:150 | the first n rows of a newest-first list are some of its rows, and no row after them is newer than any of them |
| CmsDb.GalleryRowsCorrect | server/routes/cms-db.js:148-155 | the gallery lists image rows of the table, newest first: all of them when there are no more than 50, otherwise 50 of them, and every image row left out is no newer than every row listed |
| CmsDb.CountriesWithSections | server/routes/cms-db.js:158-165 | a query error answers 500; otherwise one entry per country row |
| CmsDb.CountriesWithSectionsCorrect | server/routes/cms-db.js:158-165 | every country keeps its code and name, in order, and gets the same five sections |
| TerminologyEditor.FilteredTerms | attached_assets/TerminologyEditor_1767000183209.js:171-178 | a term is shown exactly when the query occurs in its term or definition, case-insensitively, and the category filter is 'all' or its category; the shown terms keep their order |
| TerminologyEditor.EmptyFilterShowsAll | attached_assets/TerminologyEditor_1767000183209.js:171-178 | an empty query with 'all' shows every term, in order |
| TerminologyEditor.SearchIgnoresQueryCase | attached_assets/TerminologyEditor_1767000183209.js:174-175 | the query's case does not change what is shown |
| TerminologyEditor.AddTag | attached_assets/TerminologyEditor_1767000183209.js:133-141 | a non-blank input is appended trimmed and the box is cleared; a blank input changes neither |
| TerminologyEditor.RemoveAt | attached_assets/TerminologyEditor_1767000183209.js:143-148 | the element at the index goes and the others keep their order; an index outside the list removes nothing |
| TerminologyEditor.AddThenRemove | attached_assets/TerminologyEditor_1767000183209.js:143-148 | removing a tag just added restores the list |
| TerminologyEditor.EditForm | attached_assets/TerminologyEditor_1767000183209.js:66-76 | the form copies term and definition, defaults the category to 'general', and defaults the tag lists to `[]` |
| TerminologyEditor.SubmitRequest | attached_assets/TerminologyEditor_1767000183209.js:81-85 | PUT to `/api/cms/terminology/{id}?lang=` when editing, otherwise POST to `/api/cms/terminology?lang=`, with the form as body |
| TerminologyEditor.SubmitAlert | attached_assets/TerminologyEditor_1767000183209.js:99-110 | a success alerts the approval notice exactly when the reply is pending; a refusal alerts the server's error or 'Error al guardar'; a `null` body alerts nothing, because the property read throws into the logging `catch` |
| TerminologyEditor.SubmitReloads | attached_assets/TerminologyEditor_1767000183209.js:99-104 | the terms are fetched again exactly after a success whose body is not `null` |
| TerminologyEditor.Editor.constructor | attached_assets/TerminologyEditor_1767000183209.js:17-33 | no terms, no edited term, the blank form with category 'general', empty inputs, filter 'all' |
| TerminologyEditor.Editor.OpenCreateModal | attached_assets/TerminologyEditor_1767000183209.js:54-64 | no edited term, the blank form, dialog shown, the rest unchanged |
| TerminologyEditor.Editor.OpenEditModal | attached_assets/TerminologyEditor_1767000183209.js:66-76 | the term is edited, the form is its edit form, the dialog is shown, the rest unchanged |
| TerminologyEditor.Editor.AddRelatedTerm | attached_assets/TerminologyEditor_1767000183209.js:133-141 | the related terms and their input change as the tag addition computes, and nothing else changes |
| TerminologyEditor.Editor.RemoveRelatedTerm | attached_assets/TerminologyEditor_1767000183209.js:143-148 | only the related-term list changes, losing the indexed element |
| TerminologyEditor.Editor.AddSource | attached_assets/TerminologyEditor_1767000183209.js:150-158 | the sources and their input change as the tag addition computes, and nothing else changes |
| TerminologyEditor.Editor.RemoveSource | attached_assets/TerminologyEditor_1767000183209.js:160-165 | only the source list changes, losing the indexed element |
| TerminologyEditor.Editor.SubmitAnswered | attached_assets/TerminologyEditor_1767000183209.js:97-110 | a success closes the dialog, also when reading the body throws; the returned alert is the submit alert; the terms reload exactly after a success with a non-null body; nothing else changes |
| TerminologyEditor.Editor.TermsLoaded | attached_assets/TerminologyEditor_1767000183209.js:44-47 | the terms become `data.items`, or `[]` when falsy, and nothing else changes |
| AdminDashboard.HasAccessCorrect | src/admin/AdminDashboard.js:211-213 | an admin reaches every country; a non-admin without 'all' reaches a country exactly when their list holds its code; 'all' reaches every country; no list reaches none |
| AdminDashboard.ExistingCodes | src/admin/AdminDashboard.js:114 | a code is listed exactly when some CMS country has it |
| AdminDashboard.AvailableCountries | src/admin/AdminDashboard.js:115 | exactly the predefined countries whose code the CMS does not have, in their order |
| AdminDashboard.GroupedSnoc | src/admin/AdminDashboard.js:116-121 | adding the next country to its key's list, started empty for a new key, keeps one list per key seen, each in input order |
| AdminDashboard.GroupCountries | src/admin/AdminDashboard.js:116-121 | a key exists exactly when some available country has that region key ('Otros' when the region is missing or empty); each group holds that key's countries in input order |
| AdminDashboard.GroupsPartition | src/admin/AdminDashboard.js:116-121 | every available country is in the group of its region key and in no other |
| AdminDashboard.NewCountryBody | src/admin/AdminDashboard.js:56-71 | a body is sent exactly when the selection is non-empty and a predefined code; it carries that country's code and name and lang 'es' |
| AdminDashboard.Dashboard.constructor | src/admin/AdminDashboard.js:12-17 | empty lists, pending count 0, loading, no dialog, no selection |
| AdminDashboard.Dashboard.LoadData | src/admin/AdminDashboard.js:25-54 | when a reply threw nothing is set; otherwise each delivered reply sets its list or count; a non-admin's pending count stays 0; loading ends |
| AdminDashboard.Dashboard.CountryCreated | src/admin/AdminDashboard.js:74-84 | a success closes the dialog and clears the selection; a refusal alerts the server's error or 'Error al crear país'; a refusal with a `null` body alerts nothing |
| FototecaEditor.LoadedItems | src/admin/components/FototecaEditor.js:35-39 | with a media type, exactly the items of that type, in order; without one, all items |
| FototecaEditor.TitleMatchesItems | src/admin/components/FototecaEditor.js:16 | under "Fotos" only images are shown, under "Videos" only videos, and under "Fototeca" without a type everything |
| FototecaEditor.AddForm | src/admin/components/FototecaEditor.js:61-71 | an empty form dated today with the editor's type, or 'image' without one |
| FototecaEditor.EditForm | src/admin/components/FototecaEditor.js:73-83 | the item's fields, '' where absent or empty, and type 'image' where absent or empty |
| FototecaEditor.SaveStepOf | src/admin/components/FototecaEditor.js:136-154 | a request is sent exactly when title and url are non-blank; a blank one alerts the required-fields notice; the request is a PUT to the item when editing, otherwise a POST to the country's fototeca, with the form as body |
| FototecaEditor.FirstFile | src/admin/components/FototecaEditor.js:106-107 | `files[0]` of a non-empty list is its first element, of a non-empty text its first character; only lists, texts and objects have one |
| FototecaEditor.UploadedUrl | src/admin/components/FototecaEditor.js:105-114 | a `null` body or a `null` first file throws; no first file means no files; otherwise the first file's `url` |
| FototecaEditor.UploadedUrlOfList | src/admin/components/FototecaEditor.js:106-107 | a `files` list whose first entry is an object gives that entry's url |
| FototecaEditor.UploadFillsUrl | src/admin/components/FototecaEditor.js:105-114 | the reply of the images upload for one stored file puts that file's public url into the form; a reply without files leaves the url alone |
| FototecaEditor.GalleryPickIsSaved | src/admin/components/FototecaEditor.js:126-129 | a gallery pick gives the form the photo's url, so a titled form with a non-blank picked url is sent |
| FototecaEditor.Editor.constructor | src/admin/components/FototecaEditor.js:7-24 | no items, loading, no dialog, no gallery, and an empty form with the editor's type or 'image' |
| FototecaEditor.Editor.ItemsLoaded | src/admin/components/FototecaEditor.js:30-45 | a delivered reply sets the items of the editor's type; any other outcome keeps them; loading ends |
| FototecaEditor.Editor.OpenGalleryPicker | src/admin/components/FototecaEditor.js:131-134 | the picker opens and the gallery starts loading; nothing else changes |
| FototecaEditor.Editor.GalleryLoaded | src/admin/components/FototecaEditor.js:47-59 | a delivered reply sets the gallery images; any other outcome keeps them; loading ends |
| FototecaEditor.Editor.OpenAddModal | src/admin/components/FototecaEditor.js:61-71 | nothing edited, the add form, dialog shown |
| FototecaEditor.Editor.OpenEditModal | src/admin/components/FototecaEditor.js:73-83 | the item is edited, its edit form, dialog shown |
| FototecaEditor.Editor.FileUploaded | src/admin/components/FototecaEditor.js:94-123 | only an ok reply whose first file has a url changes the form, and only its url; no files, a refusal, a thrown property read and a rejection each return their alert text; uploading ends |
| FototecaEditor.Editor.SelectFromGallery | src/admin/components/FototecaEditor.js:126-129 | the form's url becomes the image's and the picker closes; nothing else changes |
| FototecaEditor.Editor.SaveAnswered | src/admin/components/FototecaEditor.js:156-165 | a success closes the dialog; a refusal alerts the server's error or 'Error al guardar'; a refusal with a `null` body alerts nothing |
| AdminCountry.FindCountry | src/admin/AdminCountry.js:92 | `find` by code: the first entry with that code, None exactly when there is none |
| AdminCountry.PredefinedNameOr | src/admin/AdminCountry.js:99 | the predefined name when it exists and is non-empty, otherwise the fallback |
| AdminCountry.DefaultCountry | src/admin/AdminCountry.js:96-101 | the made-up record has the selected code, no sections, and the predefined name or the code |
| AdminCountry.CountryName | src/admin/AdminCountry.js:125 | the shown country's name, else the predefined name, else the code; non-empty for a non-empty code |
| AdminCountry.DefaultCountryName | src/admin/AdminCountry.js:125 | the heading is the same for a made-up record as for no record at all |
| AdminCountry.LabelIsRegion | src/admin/AdminCountry.js:25-39 | a region's label is the region itself |
| AdminCountry.LabelsApart | src/admin/AdminCountry.js:144 | two different regions share a key only as 'undefined' and the absent region |
| AdminCountry.DefinedRegions | src/admin/AdminCountry.js:141 | exactly the regions the predefined countries carry |
| AdminCountry.WithAbsent | src/admin/AdminCountry.js:141 | the sorted names as present regions, then the absent region when asked for |
| AdminCountry.WithAbsentCorrect | src/admin/AdminCountry.js:141 | distinct sorted names followed by the absent region occur once each, in order, and stand for exactly those names and that absence |
| AdminCountry.UniqueRegionsCorrect | src/admin/AdminCountry.js:141 | each region occurs once; the named ones sorted, the absent one last and present exactly when some country has no region |
| AdminCountry.FilledStep | src/admin/AdminCountry.js:143-145 | one more assignment to the object extends the assigned keys by one, the newest assignment winning |
| AdminCountry.FilledByLabel | src/admin/AdminCountry.js:143-145 | after every region is assigned, the keys are exactly the regions' labels and each holds its last region's countries |
| AdminCountry.FillGroups | src/admin/AdminCountry.js:143-145 | there is a key exactly for each label of a region; the last region of each key gives that key its countries, in order |
| AdminCountry.GroupRegions | src/admin/AdminCountry.js:141-145 | each region's group holds exactly its predefined countries, in order, and every country is in its region's group, except when a region literally named 'undefined' meets countries without a region |
| AdminCountry.Screen.constructor | src/admin/AdminCountry.js:45-52 | the selection is the URL's code or 'palestine'; no country; empty lists; lang 'es'; loading |
| AdminCountry.Screen.PredefinedLoaded | src/admin/AdminCountry.js:64-80 | a delivered reply sets the predefined countries; any other outcome keeps them; loading ends |
| AdminCountry.Screen.CountryLoaded | src/admin/AdminCountry.js:82-114 | a list holding the selection shows that entry; a list without it, a missing list and a failed fetch show the made-up record; a non-ok answer keeps the country |
| AdminCountry.Screen.ChangeCountry | src/admin/AdminCountry.js:116-119 | the selection becomes the new code, and nothing else changes |

## Left out

- I/O is not modelled, and each kind becomes an input instead:
  - connection probing (`isDbConnected`, `pool.getConnection`);
  - the SQL driver;
  - `fs` reads and the snapshot files;
  - `fetch`;
  - `JSON.parse` and `JSON.stringify`;
  - `uuidv4`;
  - `new Date()`;
  - multer's disk writing.
- The error texts of the database driver are parameters (`fault`, `rejection`, `syntaxError`).
- Connection leaks when a query throws are not modelled. Neither is `process.exit`, nor a cleanup run left half-done by an error.
- Async ordering, React rendering and effects are not modelled. Neither are `alert`, `confirm`, `navigate`, `console` output or the loading spinners. Alerts are returned as values.
- The authentication and moderation middleware (`authenticateToken`, `checkCountryPermission`, `checkPermission`) is not part of this model; the routes are modelled as if it let the request through. The moderation workflow (pending changes, approve, reject) is left out too.
- Strings are sequences of Unicode scalar values (Dafny's `char`), whereas JavaScript strings are sequences of UTF-16 code units. The two agree on text in the Basic Multilingual Plane; beyond it the model differs:
  - `Upload.Sanitize` of "😀" is "_" here but "__" in JavaScript, which replaces each of the two code units;
  - `Order.LexLe` orders U+1F600 after U+FFFD, while code-unit order puts it before (its first code unit is 0xD83D);
  - lengths count characters, not code units;
  - lone surrogates cannot be represented.
- `toLowerCase` maps only ASCII letters.
- The collation is modelled by `Schema.SqlEq`, a case-insensitive comparison without padding. VARCHAR length limits and truncation are not modelled.
- Ties under ORDER BY keep table order. So do the order of LIMIT and the order of GROUP BY groups; MySQL does not promise these.
- The name order of `GET /countries` (cms-db) is taken as the order of its input rows.
- AUTO_INCREMENT is a counter without gaps.
- Groups are maps, so the order of `Object.entries` over grouped countries is not modelled. Where key order matters (`Object.keys` of the terminology index), it is insertion order, which is what JavaScript gives for keys that do not look like array indices; a category id such as "1" would be listed first in JavaScript. Prototype keys such as `constructor` are treated as absent.
- `null` regions count as absent regions. `predefined_countries.region` is a nullable column, so a country can arrive with a `null` region. For the dashboard both become 'Otros'. For the country selector the model keys such countries under "undefined" and sorts them last, as JavaScript does for an `undefined` region. For a `null` region JavaScript instead keys the group "null" and `sort()` places `null` as the string "null", after the capitalised ASCII names and before "África".
- Request body fields are modelled as strings or absent; other JSON types in a body are not modelled.
- CmsDb.DescriptionRoundTrip: requires chapters that are not a JSON string. A string would come back parsed, not as written.
- FototecaEditor.Editor.FileUploaded: the detail of an upload refusal is kept as the JSON value, not as JavaScript `String()` of it.
- FototecaEditor.SaveStepOf: a url that is not a string makes `trim()` throw outside the `try`. This is modelled as `Crashed`; the resulting unhandled rejection is not modelled further.
- AdminDashboard.Dashboard.LoadData: when `.json()` throws after some lists were already set, the model sets none of them.
- `handleDelete` of the terminology and fototeca editors is left out.
- The testimonies, timeline and resistance list routes of `cms-db.js` are left out; they follow the same shape as the fototeca listing.
- `ChangesLength` (`data.changes?.length`) counts array elements or string characters, and gives 0 for any other value; the `length` property of an object is not modelled.
- Upload.InsertFiles: one `today` and one `now` serve every file of the request, while the source calls `new Date()` for each file; registrations that straddle a tick of the clock get the same timestamp here.
- FototecaEditor.FirstFile: an object `files` counts as having a first file only when its `length` is a positive number; JavaScript's `>` would also coerce a `length` of `true` or a numeric string.
- The file-size limit of multer and the `/image`, `/video`, `/media` disk storage are not modelled beyond the stored name.
