/** The one-shot cleanup script (server/cleanDatabase.js): four passes over the `fototeca`
    table, in order. (1) delete rows whose url is empty or the text 'null'/'undefined';
    (2) for every url that occurs more than once, delete its second-newest row; (3) prefix
    'https://' to Cloudinary urls that lack it; (4) delete at most 50 rows that have neither
    title nor description. Then it reports the row count and the number of distinct urls. */
module CleanDatabase {
  import opened Wrappers
  import Text
  import opened Schema

  // ---------------------------------------------------------------------------------------
  // Pass 1

  /** `url IS NULL OR url = '' OR url = 'null' OR url = 'undefined'` (url is NOT NULL). */
  predicate MissingUrl(url: string) {
    SqlEq(url, "") || SqlEq(url, "null") || SqlEq(url, "undefined")
  }

  predicate HasUsableUrl(p: Photo) {
    !MissingUrl(p.url)
  }

  function RemoveMissingUrls(rows: seq<Photo>): (r: seq<Photo>)
    ensures forall p :: p in r <==> p in rows && !MissingUrl(p.url)
    ensures |r| <= |rows|
  {
    Where(rows, HasUsableUrl)
  }

  /** `''` matches only the empty url: the collation does not pad. */
  lemma EmptyUrlIsEmpty(url: string)
    ensures SqlEq(url, "") <==> url == ""
  {
    assert |Text.Lower(url)| == |url|;
  }

  // ---------------------------------------------------------------------------------------
  // Pass 2

  /** `WHERE url = u` under the collation. */
  function UrlIs(u: string): Photo -> bool {
    (p: Photo) => SqlEq(p.url, u)
  }

  function RowsWithUrl(rows: seq<Photo>, u: string): seq<Photo> {
    Where(rows, UrlIs(u))
  }

  function Copies(rows: seq<Photo>, u: string): nat {
    |RowsWithUrl(rows, u)|
  }

  /** URLs equal under the collation select the same rows. */
  lemma SameUrlSameRows(rows: seq<Photo>, u: string, v: string)
    ensures SqlEq(u, v) ==> RowsWithUrl(rows, u) == RowsWithUrl(rows, v)
  {
    if SqlEq(u, v) {
      WhereSame(rows, UrlIs(u), UrlIs(v));
    }
  }

  /** The position, among the first `len` rows other than `skip`, of the newest one (the
      first of equally new ones); -1 when there is none. */
  function NewestExcept(rows: seq<Photo>, skip: int, len: nat): (k: int)
    requires len <= |rows|
    ensures k == -1 <==> len == 0 || (len == 1 && skip == 0)
    ensures k != -1 ==> 0 <= k < len && k != skip
    ensures k != -1 ==> forall j :: 0 <= j < len && j != skip ==> rows[j].createdAt <= rows[k].createdAt
  {
    if len == 0 then -1
    else
      var k := NewestExcept(rows, skip, len - 1);
      if len - 1 == skip then k
      else if k == -1 || rows[len - 1].createdAt > rows[k].createdAt then len - 1
      else k
  }

  /** The first row of `ORDER BY created_at DESC`. */
  function Newest(rows: seq<Photo>): (k: nat)
    requires |rows| >= 1
    ensures k < |rows| && forall j :: 0 <= j < |rows| ==> rows[j].createdAt <= rows[k].createdAt
  {
    NewestExcept(rows, -1, |rows|)
  }

  /** `ORDER BY created_at DESC LIMIT 1 OFFSET 1`: the newest row after the newest. */
  function SecondNewest(rows: seq<Photo>): (k: nat)
    requires |rows| >= 2
    ensures k < |rows| && k != Newest(rows)
    ensures forall j :: 0 <= j < |rows| && j != Newest(rows) ==> rows[j].createdAt <= rows[k].createdAt
  {
    NewestExcept(rows, Newest(rows), |rows|)
  }

  /** The row of url `u` that pass 2 keeps (when `u` has rows). */
  function NewestWithUrl(rows: seq<Photo>, u: string): Photo
    requires Copies(rows, u) >= 1
  {
    RowsWithUrl(rows, u)[Newest(RowsWithUrl(rows, u))]
  }

  /** `url = u AND id IN (victim)` negated: the rows the DELETE spares. */
  function Spare(u: string, victim: nat): Photo -> bool {
    (p: Photo) => !(SqlEq(p.url, u) && p.id == victim)
  }

  /** One iteration of the duplicate loop, for url `u`. */
  function DeleteSecondNewest(rows: seq<Photo>, u: string): seq<Photo> {
    var same := RowsWithUrl(rows, u);
    if |same| < 2 then rows
    else Where(rows, Spare(u, same[SecondNewest(same)].id))
  }

  /** Deleting for url `u` leaves the rows of every other url as they were. */
  lemma DeleteLeavesOtherUrls(rows: seq<Photo>, u: string, v: string)
    requires !SqlEq(u, v)
    ensures RowsWithUrl(DeleteSecondNewest(rows, u), v) == RowsWithUrl(rows, v)
  {
    var same := RowsWithUrl(rows, u);
    if |same| >= 2 {
      var victim := same[SecondNewest(same)].id;
      forall p | p in RowsWithUrl(rows, v) ensures Spare(u, victim)(p) {
        SpareOtherUrl(p, u, v, victim);
      }
      WhereCommute(rows, Spare(u, victim), UrlIs(v));
    }
  }

  /** The DELETE for url `u` spares every row whose url is another one. */
  lemma SpareOtherUrl(p: Photo, u: string, v: string, victim: nat)
    requires UrlIs(v)(p) && !SqlEq(u, v)
    ensures Spare(u, victim)(p)
  {
  }

  /** Deleting for a duplicated url `u` removes exactly one of its rows. */
  lemma DeleteForUrlCount(rows: seq<Photo>, u: string)
    requires UniqueKey(rows, PhotoId) && Copies(rows, u) >= 2
    ensures Copies(DeleteSecondNewest(rows, u), u) == Copies(rows, u) - 1
  {
    var same := RowsWithUrl(rows, u);
    var s := SecondNewest(same);
    var spare := Spare(u, same[s].id);
    WhereKeepsUnique(rows, UrlIs(u), PhotoId);
    WhereCommute(rows, spare, UrlIs(u));
    assert RowsWithUrl(DeleteSecondNewest(rows, u), u) == Where(same, spare);
    forall p | p in same ensures spare(p) <==> p.id != same[s].id {
      assert UrlIs(u)(p);
    }
    DeleteOneId(same, s, spare);
  }

  /** It keeps the newest row of `u`. */
  lemma DeleteForUrlKeepsNewest(rows: seq<Photo>, u: string)
    requires UniqueKey(rows, PhotoId) && Copies(rows, u) >= 2
    ensures NewestWithUrl(rows, u) in DeleteSecondNewest(rows, u)
  {
    var same := RowsWithUrl(rows, u);
    var n := Newest(same);
    var spare := Spare(u, same[SecondNewest(same)].id);
    WhereKeepsUnique(rows, UrlIs(u), PhotoId);
    assert same[n] in rows;
    assert spare(same[n]);
  }

  /** It keeps every row of another url. */
  lemma DeleteForUrlKeepsOthers(rows: seq<Photo>, u: string)
    ensures forall p :: p in rows && !SqlEq(p.url, u) ==> p in DeleteSecondNewest(rows, u)
  {
    var same := RowsWithUrl(rows, u);
    if |same| >= 2 {
      var spare := Spare(u, same[SecondNewest(same)].id);
      assert forall p :: p in rows && !SqlEq(p.url, u) ==> spare(p);
    }
  }

  /** It shrinks the table by exactly one row. */
  lemma DeleteForUrlSize(rows: seq<Photo>, u: string)
    requires UniqueKey(rows, PhotoId) && Copies(rows, u) >= 2
    ensures |DeleteSecondNewest(rows, u)| == |rows| - 1
  {
    var same := RowsWithUrl(rows, u);
    var victim := same[SecondNewest(same)];
    var spare := Spare(u, victim.id);
    assert victim in rows && UrlIs(u)(victim);
    var k :| 0 <= k < |rows| && rows[k] == victim;
    forall p | p in rows ensures spare(p) <==> p.id != rows[k].id {
      if p.id == victim.id {
        UniqueKeyMembers(rows, PhotoId, p, victim);
      }
    }
    DeleteOneId(rows, k, spare);
  }

  /** Deleting for url `u` keeps ids unique. */
  lemma DeleteForUrlUnique(rows: seq<Photo>, u: string)
    requires UniqueKey(rows, PhotoId)
    ensures UniqueKey(DeleteSecondNewest(rows, u), PhotoId)
  {
    var same := RowsWithUrl(rows, u);
    if |same| >= 2 {
      WhereKeepsUnique(rows, Spare(u, same[SecondNewest(same)].id), PhotoId);
    }
  }

  /** The duplicate loop over `urls`, in order. */
  function DeleteDuplicates(rows: seq<Photo>, urls: seq<string>): seq<Photo> {
    if urls == [] then rows
    else DeleteSecondNewest(DeleteDuplicates(rows, urls[..|urls| - 1]), urls[|urls| - 1])
  }

  /** One more iteration of the loop deletes for the next url. */
  lemma DeleteDuplicatesNext(rows: seq<Photo>, urls: seq<string>, i: nat)
    requires i < |urls|
    ensures DeleteDuplicates(rows, urls[..i + 1]) == DeleteSecondNewest(DeleteDuplicates(rows, urls[..i]), urls[i])
  {
    var prefix := urls[..i + 1];
    assert prefix[..|prefix| - 1] == urls[..i] && prefix[|prefix| - 1] == urls[i];
  }

  predicate PairwiseDistinctUrls(urls: seq<string>) {
    forall i, j :: 0 <= i < j < |urls| ==> !SqlEq(urls[i], urls[j])
  }

  predicate Listed(urls: seq<string>, u: string) {
    exists i :: 0 <= i < |urls| && SqlEq(urls[i], u)
  }

  lemma ListedInit(urls: seq<string>, v: string)
    requires urls != [] && !Listed(urls, v)
    ensures !Listed(urls[..|urls| - 1], v) && !SqlEq(urls[|urls| - 1], v)
  {
    assert forall i :: 0 <= i < |urls| - 1 ==> urls[..|urls| - 1][i] == urls[i];
  }

  lemma PairwiseDistinctInit(urls: seq<string>)
    requires urls != [] && PairwiseDistinctUrls(urls)
    ensures PairwiseDistinctUrls(urls[..|urls| - 1]) && !Listed(urls[..|urls| - 1], urls[|urls| - 1])
  {
    assert forall i :: 0 <= i < |urls| - 1 ==> urls[..|urls| - 1][i] == urls[i];
  }

  /** The loop keeps ids unique. */
  lemma {:induction false} DeleteDuplicatesUnique(rows: seq<Photo>, urls: seq<string>)
    requires UniqueKey(rows, PhotoId)
    ensures UniqueKey(DeleteDuplicates(rows, urls), PhotoId)
  {
    if urls != [] {
      DeleteDuplicatesUnique(rows, urls[..|urls| - 1]);
      DeleteForUrlUnique(DeleteDuplicates(rows, urls[..|urls| - 1]), urls[|urls| - 1]);
    }
  }

  /** The loop leaves the rows of every url it does not visit as they were. */
  lemma {:induction false} DeleteDuplicatesOthers(rows: seq<Photo>, urls: seq<string>, v: string)
    requires !Listed(urls, v)
    ensures RowsWithUrl(DeleteDuplicates(rows, urls), v) == RowsWithUrl(rows, v)
  {
    if urls != [] {
      ListedInit(urls, v);
      DeleteDuplicatesOthers(rows, urls[..|urls| - 1], v);
      DeleteLeavesOtherUrls(DeleteDuplicates(rows, urls[..|urls| - 1]), urls[|urls| - 1], v);
    }
  }

  /** Running the loop over distinct duplicated urls drops exactly one copy of each. */
  lemma {:induction false} DeleteDuplicatesCount(rows: seq<Photo>, urls: seq<string>, i: nat)
    requires UniqueKey(rows, PhotoId) && PairwiseDistinctUrls(urls)
    requires i < |urls| && Copies(rows, urls[i]) >= 2
    ensures Copies(DeleteDuplicates(rows, urls), urls[i]) == Copies(rows, urls[i]) - 1
  {
    var init := urls[..|urls| - 1];
    var last := urls[|urls| - 1];
    var before := DeleteDuplicates(rows, init);
    PairwiseDistinctInit(urls);
    DeleteDuplicatesUnique(rows, init);
    if i == |urls| - 1 {
      DeleteDuplicatesOthers(rows, init, last);
      DeleteForUrlCount(before, last);
    } else {
      assert init[i] == urls[i];
      DeleteDuplicatesCount(rows, init, i);
      assert !SqlEq(last, urls[i]) by {
        assert !SqlEq(urls[i], last);
      }
      DeleteLeavesOtherUrls(before, last, urls[i]);
    }
  }

  /** Running the loop over distinct duplicated urls keeps the newest row of each. */
  lemma {:induction false} DeleteDuplicatesKeepsNewest(rows: seq<Photo>, urls: seq<string>, i: nat)
    requires UniqueKey(rows, PhotoId) && PairwiseDistinctUrls(urls)
    requires i < |urls| && Copies(rows, urls[i]) >= 2
    ensures NewestWithUrl(rows, urls[i]) in DeleteDuplicates(rows, urls)
  {
    var init := urls[..|urls| - 1];
    var last := urls[|urls| - 1];
    var before := DeleteDuplicates(rows, init);
    PairwiseDistinctInit(urls);
    DeleteDuplicatesUnique(rows, init);
    DeleteDuplicatesOthers(rows, init, last);
    if i == |urls| - 1 {
      DeleteForUrlKeepsNewest(before, last);
      assert NewestWithUrl(before, last) == NewestWithUrl(rows, last);
    } else {
      DeleteForUrlKeepsOthers(before, last);
      assert init[i] == urls[i];
      DeleteDuplicatesKeepsNewest(rows, init, i);
      var p := NewestWithUrl(rows, urls[i]);
      assert p in RowsWithUrl(rows, urls[i]);
      assert SqlEq(p.url, urls[i]);
      assert !SqlEq(urls[i], last);
      assert p in before;
    }
  }

  /** `GROUP BY url`: one representative url per collation class, in order of first
      appearance. */
  function UrlGroups(rows: seq<Photo>): seq<string> {
    if rows == [] then []
    else
      var prev := UrlGroups(rows[..|rows| - 1]);
      if Listed(prev, rows[|rows| - 1].url) then prev else prev + [rows[|rows| - 1].url]
  }

  /** Every url of the table has its group. */
  lemma {:induction false} UrlGroupsCover(rows: seq<Photo>, i: nat)
    requires i < |rows|
    ensures Listed(UrlGroups(rows), rows[i].url)
  {
    var init := rows[..|rows| - 1];
    var prev := UrlGroups(init);
    if i < |init| {
      UrlGroupsCover(init, i);
      var k :| 0 <= k < |prev| && SqlEq(prev[k], init[i].url);
      assert UrlGroups(rows)[k] == prev[k];
    } else if !Listed(prev, rows[i].url) {
      assert UrlGroups(rows)[|prev|] == rows[i].url;
    }
  }

  /** No two groups are equal under the collation. */
  lemma {:induction false} UrlGroupsDistinct(rows: seq<Photo>)
    ensures PairwiseDistinctUrls(UrlGroups(rows))
  {
    if rows != [] {
      var prev := UrlGroups(rows[..|rows| - 1]);
      var u := rows[|rows| - 1].url;
      UrlGroupsDistinct(rows[..|rows| - 1]);
      if !Listed(prev, u) {
        var r := prev + [u];
        forall i, j | 0 <= i < j < |r| ensures !SqlEq(r[i], r[j]) {
          if j == |prev| {
            assert r[i] == prev[i];
          } else {
            assert r[i] == prev[i] && r[j] == prev[j];
          }
        }
      }
    }
  }

  /** Every group is the url of some row. */
  lemma {:induction false} UrlGroupsFromRows(rows: seq<Photo>, k: nat)
    requires k < |UrlGroups(rows)|
    ensures exists i :: 0 <= i < |rows| && rows[i].url == UrlGroups(rows)[k]
  {
    var init := rows[..|rows| - 1];
    var prev := UrlGroups(init);
    if k < |prev| {
      UrlGroupsFromRows(init, k);
      var i :| 0 <= i < |init| && init[i].url == prev[k];
      assert rows[i] == init[i];
    } else {
      assert rows[|rows| - 1].url == UrlGroups(rows)[k];
    }
  }

  /** `WHERE url != '' … HAVING COUNT(*) > 1`, restricted to the groups of `urls`. */
  function DuplicatedAmong(rows: seq<Photo>, urls: seq<string>): (r: seq<string>)
    ensures forall u :: u in r <==> u in urls && u != "" && Copies(rows, u) > 1
  {
    if urls == [] then []
    else
      var rest := DuplicatedAmong(rows, urls[..|urls| - 1]);
      var u := urls[|urls| - 1];
      assert forall v :: v in urls <==> v in urls[..|urls| - 1] || v == u by {
        assert urls == urls[..|urls| - 1] + [u];
      }
      if u != "" && Copies(rows, u) > 1 then rest + [u] else rest
  }

  /** Filtering distinct urls leaves them distinct. */
  lemma {:induction false} DuplicatedAmongDistinct(rows: seq<Photo>, urls: seq<string>)
    requires PairwiseDistinctUrls(urls)
    ensures PairwiseDistinctUrls(DuplicatedAmong(rows, urls))
  {
    if urls != [] {
      var init := urls[..|urls| - 1];
      var u := urls[|urls| - 1];
      PairwiseDistinctInit(urls);
      DuplicatedAmongDistinct(rows, init);
      var rest := DuplicatedAmong(rows, init);
      if u != "" && Copies(rows, u) > 1 {
        var r := rest + [u];
        forall i, j | 0 <= i < j < |r| ensures !SqlEq(r[i], r[j]) {
          if j == |rest| {
            assert r[i] == rest[i] && rest[i] in init;
            var k :| 0 <= k < |init| && init[k] == rest[i];
          } else {
            assert r[i] == rest[i] && r[j] == rest[j];
          }
        }
      }
    }
  }

  /** The urls the duplicate loop visits. */
  function DuplicateUrls(rows: seq<Photo>): seq<string> {
    DuplicatedAmong(rows, UrlGroups(rows))
  }

  function RemoveDuplicates(rows: seq<Photo>): seq<Photo> {
    DeleteDuplicates(rows, DuplicateUrls(rows))
  }

  /** Every non-empty url with copies is visited by the loop, and no url twice. */
  lemma DuplicateUrlsComplete(rows: seq<Photo>, p: Photo)
    requires p in rows && p.url != "" && Copies(rows, p.url) >= 2
    ensures Listed(DuplicateUrls(rows), p.url)
    ensures PairwiseDistinctUrls(DuplicateUrls(rows))
  {
    var groups := UrlGroups(rows);
    var i :| 0 <= i < |rows| && rows[i] == p;
    UrlGroupsCover(rows, i);
    UrlGroupsDistinct(rows);
    DuplicatedAmongDistinct(rows, groups);
    var k :| 0 <= k < |groups| && SqlEq(groups[k], p.url);
    SameUrlSameRows(rows, groups[k], p.url);
    EmptyUrlIsEmpty(p.url);
    EmptyUrlIsEmpty(groups[k]);
    assert groups[k] in DuplicateUrls(rows);
  }

  /** Pass 2 for a duplicated url: exactly one copy goes, the newest row stays, and with three
      or more copies the url is still duplicated afterwards. */
  lemma RemoveDuplicatesDuplicated(rows: seq<Photo>, p: Photo)
    requires UniqueKey(rows, PhotoId) && p in rows
    requires p.url != "" && Copies(rows, p.url) >= 2
    ensures Copies(RemoveDuplicates(rows), p.url) == Copies(rows, p.url) - 1
    ensures NewestWithUrl(rows, p.url) in RemoveDuplicates(rows)
    ensures Copies(rows, p.url) >= 3 ==> Copies(RemoveDuplicates(rows), p.url) >= 2
  {
    var dups := DuplicateUrls(rows);
    DuplicateUrlsComplete(rows, p);
    var j :| 0 <= j < |dups| && SqlEq(dups[j], p.url);
    SameUrlSameRows(rows, dups[j], p.url);
    SameUrlSameRows(RemoveDuplicates(rows), dups[j], p.url);
    DeleteDuplicatesCount(rows, dups, j);
    DeleteDuplicatesKeepsNewest(rows, dups, j);
  }

  /** Pass 2 keeps every row whose url is empty or occurs once. */
  lemma RemoveDuplicatesKeepsSingles(rows: seq<Photo>, p: Photo)
    requires p in rows && (p.url == "" || Copies(rows, p.url) < 2)
    ensures p in RemoveDuplicates(rows)
  {
    var dups := DuplicateUrls(rows);
    EmptyUrlIsEmpty(p.url);
    forall j | 0 <= j < |dups| ensures !SqlEq(dups[j], p.url) {
      assert dups[j] in dups;
      SameUrlSameRows(rows, dups[j], p.url);
      EmptyUrlIsEmpty(dups[j]);
    }
    DeleteDuplicatesOthers(rows, dups, p.url);
    assert p in RowsWithUrl(rows, p.url);
  }

  // ---------------------------------------------------------------------------------------
  // Pass 3

  /** `url LIKE '%cloudinary%' AND url NOT LIKE 'https://%'` (LIKE folds case). */
  predicate BadCloudinaryUrl(url: string) {
    Text.Contains(Text.Lower(url), "cloudinary") && !Text.StartsWith(Text.Lower(url), "https://")
  }

  /** `SET url = CONCAT('https://', url)` where the url is a bad Cloudinary url. */
  function FixUrl(url: string): string {
    if BadCloudinaryUrl(url) then "https://" + url else url
  }

  function FixRow(p: Photo): Photo {
    p.(url := FixUrl(p.url))
  }

  function FixCloudinaryUrls(rows: seq<Photo>): (r: seq<Photo>)
    ensures |r| == |rows|
    ensures forall i :: 0 <= i < |rows| ==> r[i] == rows[i].(url := FixUrl(rows[i].url))
  {
    Update(rows, FixRow)
  }

  /** A fixed url is no longer bad, and still mentions Cloudinary; a good url is kept. */
  lemma FixUrlCorrect(url: string)
    ensures !BadCloudinaryUrl(FixUrl(url))
    ensures Text.Contains(Text.Lower(url), "cloudinary") ==>
      Text.Contains(Text.Lower(FixUrl(url)), "cloudinary") && Text.StartsWith(Text.Lower(FixUrl(url)), "https://")
    ensures !BadCloudinaryUrl(url) ==> FixUrl(url) == url
  {
    if BadCloudinaryUrl(url) {
      Text.LowerConcat("https://", url);
      assert Text.Lower("https://") == "https://";
      var low := Text.Lower(FixUrl(url));
      assert low == "https://" + Text.Lower(url);
      assert low[..8] == "https://";
      Text.ContainsAfterPrefix("https://", Text.Lower(url), "cloudinary");
    }
  }

  /** Pass 3 is idempotent and leaves no bad Cloudinary url. */
  lemma FixCloudinaryUrlsIdempotent(rows: seq<Photo>)
    ensures FixCloudinaryUrls(FixCloudinaryUrls(rows)) == FixCloudinaryUrls(rows)
    ensures forall p :: p in FixCloudinaryUrls(rows) ==> !BadCloudinaryUrl(p.url)
  {
    var once := FixCloudinaryUrls(rows);
    forall i | 0 <= i < |rows| ensures FixUrl(once[i].url) == once[i].url && !BadCloudinaryUrl(once[i].url) {
      FixUrlCorrect(rows[i].url);
      FixUrlCorrect(once[i].url);
    }
    assert FixCloudinaryUrls(once) == once;
  }

  // ---------------------------------------------------------------------------------------
  // Pass 4

  /** `(title IS NULL OR title = '') AND (description IS NULL OR description = '') AND url IS NOT NULL`. */
  predicate Ghost(p: Photo) {
    p.title == "" && (p.description.None? || p.description.value == "")
  }

  const MaxGhosts: nat := 50

  /** The ids of some rows, as the `id IN (…)` list. */
  function IdsOf(rows: seq<Photo>): (ids: set<nat>)
    ensures |ids| <= |rows|
    ensures forall p :: p in rows ==> p.id in ids
    ensures forall x :: x in ids ==> exists i :: 0 <= i < |rows| && rows[i].id == x
  {
    if rows == [] then {}
    else
      assert forall p :: p in rows ==> p == rows[0] || p in rows[1..];
      assert forall i :: 0 <= i < |rows| - 1 ==> rows[1..][i] == rows[i + 1];
      {rows[0].id} + IdsOf(rows[1..])
  }

  /** The rows the `SELECT id … LIMIT min(count, 50)` returns: the first ghost rows in table order. */
  function ChosenGhosts(rows: seq<Photo>): seq<Photo> {
    Take(Where(rows, Ghost), MaxGhosts)
  }

  function GhostIds(rows: seq<Photo>): set<nat> {
    IdsOf(ChosenGhosts(rows))
  }

  function NotAmong(ids: set<nat>): Photo -> bool {
    (p: Photo) => p.id !in ids
  }

  function RemoveGhosts(rows: seq<Photo>): seq<Photo> {
    Where(rows, NotAmong(GhostIds(rows)))
  }

  /** Deleting rows by a set of ids removes at most as many rows as there are ids. */
  lemma {:induction false} DeleteByIdsBound(rows: seq<Photo>, ids: set<nat>)
    requires UniqueKey(rows, PhotoId)
    ensures |Where(rows, NotAmong(ids))| >= |rows| - |ids|
  {
    if rows != [] {
      UniqueKeyTail(rows, PhotoId);
      var id := rows[0].id;
      if id in ids {
        DeleteByIdsBound(rows[1..], ids - {id});
        WhereSame(rows[1..], NotAmong(ids - {id}), NotAmong(ids));
      } else {
        DeleteByIdsBound(rows[1..], ids);
      }
    }
  }

  /** Pass 4 deletes at most 50 rows, and only ghost rows. */
  lemma RemoveGhostsBounded(rows: seq<Photo>)
    requires UniqueKey(rows, PhotoId)
    ensures |RemoveGhosts(rows)| >= |rows| - MaxGhosts
    ensures forall p :: p in rows && !Ghost(p) ==> p in RemoveGhosts(rows)
  {
    var chosen := ChosenGhosts(rows);
    DeleteByIdsBound(rows, GhostIds(rows));
    forall p | p in rows && !Ghost(p) ensures p.id !in GhostIds(rows) {
      if p.id in GhostIds(rows) {
        var i :| 0 <= i < |chosen| && chosen[i].id == p.id;
        assert chosen[i] in Where(rows, Ghost);
        UniqueKeyMembers(rows, PhotoId, p, chosen[i]);
      }
    }
  }

  /** With at most 50 ghost rows, pass 4 leaves none. */
  lemma RemoveGhostsComplete(rows: seq<Photo>)
    requires |Where(rows, Ghost)| <= MaxGhosts
    ensures forall p :: p in RemoveGhosts(rows) ==> !Ghost(p)
  {
    assert ChosenGhosts(rows) == Where(rows, Ghost);
  }

  // ---------------------------------------------------------------------------------------
  // The script

  /** The four passes in order. */
  function Cleaned(rows: seq<Photo>): seq<Photo> {
    RemoveGhosts(FixCloudinaryUrls(RemoveDuplicates(RemoveMissingUrls(rows))))
  }

  /** The duplicate loop only deletes. */
  lemma {:induction false} DeleteDuplicatesSubset(rows: seq<Photo>, urls: seq<string>)
    ensures forall p :: p in DeleteDuplicates(rows, urls) ==> p in rows
  {
    if urls != [] {
      DeleteDuplicatesSubset(rows, urls[..|urls| - 1]);
    }
  }

  /** Prefixing a usable url keeps it usable. */
  lemma FixUrlUsable(url: string)
    requires !MissingUrl(url)
    ensures !MissingUrl(FixUrl(url))
  {
    if BadCloudinaryUrl(url) {
      var low := Text.Lower(FixUrl(url));
      assert |low| == |url| + 8 && low[0] == 'h';
      assert |Text.Lower("")| == 0 && |Text.Lower("null")| == 4 && Text.Lower("undefined")[0] == 'u';
    }
  }

  /** After the script every remaining row has a usable url and no Cloudinary url lacks
      'https://'. */
  lemma CleanedRowsWellFormed(rows: seq<Photo>)
    ensures forall p :: p in Cleaned(rows) ==> !MissingUrl(p.url) && !BadCloudinaryUrl(p.url)
  {
    var r1 := RemoveMissingUrls(rows);
    var r2 := RemoveDuplicates(r1);
    var r3 := FixCloudinaryUrls(r2);
    DeleteDuplicatesSubset(r1, DuplicateUrls(r1));
    FixCloudinaryUrlsIdempotent(r2);
    forall i | 0 <= i < |r3| ensures !MissingUrl(r3[i].url) {
      assert r2[i] in r1;
      FixUrlUsable(r2[i].url);
    }
  }

  /** Deleting for url `u` keeps the tables valid and removes one row exactly when `u` is
      duplicated. */
  lemma DeleteForUrlKeepsValid(countries: seq<Country>, fototeca: seq<Photo>, descriptions: seq<Description>, nextPhotoId: nat, u: string)
    requires TablesValid(countries, fototeca, descriptions, nextPhotoId)
    ensures TablesValid(countries, DeleteSecondNewest(fototeca, u), descriptions, nextPhotoId)
    ensures |DeleteSecondNewest(fototeca, u)| == |fototeca| - (if Copies(fototeca, u) >= 2 then 1 else 0)
  {
    var same := RowsWithUrl(fototeca, u);
    if |same| >= 2 {
      DeleteForUrlSize(fototeca, u);
      DeletePhotosKeepsValid(countries, fototeca, descriptions, nextPhotoId, Spare(u, same[SecondNewest(same)].id));
    }
  }

  /** One iteration of the duplicate loop: select the second-newest row of `url` and, when
      there is one, delete it by url and id; returns how many rows went. */
  method DeleteSecondNewestRow(db: Database, url: string) returns (deleted: nat)
    requires db.Valid()
    modifies db
    ensures db.Valid()
    ensures db.fototeca == DeleteSecondNewest(old(db.fototeca), url)
    ensures deleted + |db.fototeca| == |old(db.fototeca)|
    ensures db.countries == old(db.countries) && db.descriptions == old(db.descriptions) && db.nextPhotoId == old(db.nextPhotoId)
  {
    var items := RowsWithUrl(db.fototeca, url);
    DeleteForUrlKeepsValid(db.countries, db.fototeca, db.descriptions, db.nextPhotoId, url);
    deleted := 0;
    if |items| >= 2 {
      var victim := items[SecondNewest(items)].id;
      db.fototeca := Where(db.fototeca, Spare(url, victim));
      deleted := 1;
    }
  }

  /** The duplicate loop over every duplicated url; returns `duplicateCount`. */
  method DeleteDuplicateRows(db: Database) returns (duplicateCount: nat)
    requires db.Valid()
    modifies db
    ensures db.Valid()
    ensures db.fototeca == RemoveDuplicates(old(db.fototeca))
    ensures duplicateCount == |old(db.fototeca)| - |db.fototeca|
    ensures db.countries == old(db.countries) && db.descriptions == old(db.descriptions) && db.nextPhotoId == old(db.nextPhotoId)
  {
    var duplicates := DuplicateUrls(db.fototeca);
    ghost var start := db.fototeca;
    duplicateCount := 0;
    var i := 0;
    while i < |duplicates|
      invariant 0 <= i <= |duplicates|
      invariant db.fototeca == DeleteDuplicates(start, duplicates[..i])
      invariant db.Valid()
      invariant duplicateCount + |db.fototeca| == |start|
      invariant db.countries == old(db.countries) && db.descriptions == old(db.descriptions) && db.nextPhotoId == old(db.nextPhotoId)
    {
      DeleteDuplicatesNext(start, duplicates, i);
      var deleted := DeleteSecondNewestRow(db, duplicates[i]);
      duplicateCount := duplicateCount + deleted;
      i := i + 1;
    }
    assert duplicates[..i] == duplicates;
  }

  /** `cleanDatabase()`: nothing happens when no connection can be obtained; otherwise the
      four passes run in order and the final counts are returned (total rows, distinct urls). */
  method Clean(db: Database, connected: bool) returns (stats: Option<(nat, nat)>)
    requires db.Valid()
    modifies db
    ensures db.Valid()
    ensures !connected ==> stats.None? && db.fototeca == old(db.fototeca)
    ensures connected ==> db.fototeca == Cleaned(old(db.fototeca)) && stats == Some((|db.fototeca|, |UrlGroups(db.fototeca)|))
    ensures db.countries == old(db.countries) && db.descriptions == old(db.descriptions) && db.nextPhotoId == old(db.nextPhotoId)
  {
    if !connected {
      return None;
    }
    DeletePhotosKeepsValid(db.countries, db.fototeca, db.descriptions, db.nextPhotoId, HasUsableUrl);
    db.fototeca := RemoveMissingUrls(db.fototeca);
    var duplicateCount := DeleteDuplicateRows(db);
    UpdatePhotosKeepsValid(db.countries, db.fototeca, db.descriptions, db.nextPhotoId, FixRow);
    db.fototeca := FixCloudinaryUrls(db.fototeca);
    DeletePhotosKeepsValid(db.countries, db.fototeca, db.descriptions, db.nextPhotoId, NotAmong(GhostIds(db.fototeca)));
    db.fototeca := RemoveGhosts(db.fototeca);
    stats := Some((|db.fototeca|, |UrlGroups(db.fototeca)|));
  }
}
