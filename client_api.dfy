/** The browser-side data layer (src/utils/api.js): every page reads through `fetchFromApi`,
    which tries the public API, then the static mirror of the snapshot files, then gives up
    with null; each `get*` wrapper then shapes what came back. The network is a parameter
    `net` from URL to the outcome of `fetch(url)` followed by `res.json()`. */
module ClientApi {
  import opened Wrappers
  import opened Json
  import Text
  import PublicApi

  /** `fetch(url)` then `res.json()`: an ok response with its parsed body, a response that is
      not ok, or a promise that rejects (network error, body that is not JSON). */
  datatype FetchOutcome = Ok(body: Json) | NotOk | Failed

  /** What `fetchFromApi` resolves to (null as JNull) and the URLs it fetched, in order. */
  datatype Fetched = Fetched(data: Json, requested: seq<string>)

  function ApiUrl(apiBase: string, endpoint: string): string {
    apiBase + "/api/public" + endpoint
  }

  /** `if (fallbackPath)`: a mirror path is tried when it is given and not empty. */
  predicate HasFallback(fallbackPath: Option<string>) {
    fallbackPath.Some? && fallbackPath.value != ""
  }

  function FetchFromApi(apiBase: string, endpoint: string, fallbackPath: Option<string>, net: string -> FetchOutcome): (f: Fetched)
    ensures 1 <= |f.requested| <= 2 && f.requested[0] == ApiUrl(apiBase, endpoint)
    ensures net(ApiUrl(apiBase, endpoint)).Ok? ==> f == Fetched(net(ApiUrl(apiBase, endpoint)).body, [ApiUrl(apiBase, endpoint)])
    ensures |f.requested| == 2 <==> !net(ApiUrl(apiBase, endpoint)).Ok? && HasFallback(fallbackPath)
    ensures |f.requested| == 2 ==> f.requested[1] == fallbackPath.value
    ensures !net(ApiUrl(apiBase, endpoint)).Ok? && !HasFallback(fallbackPath) ==> f.data == JNull
    ensures f.data != JNull ==> exists i :: 0 <= i < |f.requested| && net(f.requested[i]) == Ok(f.data)
  {
    var api := ApiUrl(apiBase, endpoint);
    match net(api)
    case Ok(body) => Fetched(body, [api])
    case _ =>
      if HasFallback(fallbackPath) then
        match net(fallbackPath.value)
        case Ok(body) => Fetched(body, [api, fallbackPath.value])
        case _ => Fetched(JNull, [api, fallbackPath.value])
      else Fetched(JNull, [api])
  }

  /** A rejected API fetch is handled exactly like a response that is not ok. */
  lemma ThrownLikeNotOk(apiBase: string, endpoint: string, fallbackPath: Option<string>, net: string -> FetchOutcome)
    requires net(ApiUrl(apiBase, endpoint)) == NotOk
    ensures FetchFromApi(apiBase, endpoint, fallbackPath, net)
         == FetchFromApi(apiBase, endpoint, fallbackPath, (u: string) => if u == ApiUrl(apiBase, endpoint) then Failed else net(u))
  {
  }

  /** The getters: one per exported `get*` function, with its path arguments. */
  datatype Getter =
    | GetCountries
    | GetCountryMeta(code: string)
    | GetDescription(code: string)
    | GetTimeline(code: string)
    | GetTimelineEvent(code: string, eventId: string)
    | GetTestimonies(code: string)
    | GetWitness(code: string, witnessId: string)
    | GetResistance(code: string)
    | GetResistor(code: string, resistorId: string)
    | GetFototeca(code: string)
    | GetAnalysts(code: string)
    | GetAnalyst(code: string, analystId: string)
    | GetVelumArticles
    | GetVelumArticle(articleId: string)
    | GetTerminology
    | GetTerm(termId: string)
    | GetTerminologyIndex
    | GetTerminologyByCategory(category: string, letter: string)

  /** The `lang = 'es'` default parameter: only an absent argument gets the default. */
  function ArgLang(langArg: Option<string>): string {
    langArg.GetOr("es")
  }

  function Endpoint(g: Getter, lang: string): string {
    var q := "?lang=" + lang;
    match g
    case GetCountries => "/countries" + q
    case GetCountryMeta(code) => "/countries/" + code + "/meta" + q
    case GetDescription(code) => "/countries/" + code + "/description" + q
    case GetTimeline(code) => "/countries/" + code + "/timeline" + q
    case GetTimelineEvent(code, eventId) => "/countries/" + code + "/timeline/" + eventId + q
    case GetTestimonies(code) => "/countries/" + code + "/testimonies" + q
    case GetWitness(code, witnessId) => "/countries/" + code + "/testimonies/" + witnessId + q
    case GetResistance(code) => "/countries/" + code + "/resistance" + q
    case GetResistor(code, resistorId) => "/countries/" + code + "/resistance/" + resistorId + q
    case GetFototeca(code) => "/countries/" + code + "/fototeca" + q
    case GetAnalysts(code) => "/countries/" + code + "/analysts" + q
    case GetAnalyst(code, analystId) => "/countries/" + code + "/analysts/" + analystId + q
    case GetVelumArticles => "/velum" + q
    case GetVelumArticle(articleId) => "/velum/" + articleId + q
    case GetTerminology => "/terminology" + q
    case GetTerm(termId) => "/terminology/" + termId + q
    case GetTerminologyIndex => "/terminology/index" + q
    case GetTerminologyByCategory(category, letter) => "/terminology/category/" + category + "/" + letter + q
  }

  /** The static mirror each getter falls back to; `getTerm` has none. */
  function MirrorPath(g: Getter, lang: string): Option<string> {
    match g
    case GetCountries => Some("/data/" + lang + "/countries.json")
    case GetCountryMeta(code) => Some("/data/" + lang + "/" + code + "/meta.json")
    case GetDescription(code) => Some("/data/" + lang + "/" + code + "/description.json")
    case GetTimeline(code) => Some("/data/" + lang + "/" + code + "/timeline/timeline.index.json")
    case GetTimelineEvent(code, eventId) => Some("/data/" + lang + "/" + code + "/timeline/" + eventId + ".json")
    case GetTestimonies(code) => Some("/data/" + lang + "/" + code + "/testimonies.index.json")
    case GetWitness(code, witnessId) => Some("/data/" + lang + "/" + code + "/testimonies/" + witnessId + ".json")
    case GetResistance(code) => Some("/data/" + lang + "/" + code + "/resistance/resistance.index.json")
    case GetResistor(code, resistorId) => Some("/data/" + lang + "/" + code + "/resistance/" + resistorId + ".json")
    case GetFototeca(code) => Some("/data/" + lang + "/" + code + "/fototeca/fototeca.index.json")
    case GetAnalysts(code) => Some("/data/" + lang + "/" + code + "/analysts.index.json")
    case GetAnalyst(code, analystId) => Some("/data/" + lang + "/" + code + "/analysts/" + analystId + ".json")
    case GetVelumArticles => Some("/data/" + lang + "/velum/velum.index.json")
    case GetVelumArticle(articleId) => Some("/data/" + lang + "/velum/" + articleId + ".json")
    case GetTerminology => Some("/data/" + lang + "/terminology.json")
    case GetTerm(_) => None
    case GetTerminologyIndex => Some("/data/" + lang + "/terminology.index.json")
    case GetTerminologyByCategory(category, letter) => Some("/data/" + lang + "/terminology/" + category + "/" + letter + ".json")
  }

  /** How a getter shapes `data`. */
  datatype Shaping =
    | ItemsOrEmpty        // data?.items || []
    | CountriesOrData     // data?.countries || data || []
    | DescriptionOrEmpty  // data || { title: '', chapters: [] }
    | AsFetched           // data

  function ShapingOf(g: Getter): Shaping {
    match g
    case GetCountries => CountriesOrData
    case GetDescription(_) => DescriptionOrEmpty
    case GetTimeline(_) => ItemsOrEmpty
    case GetTestimonies(_) => ItemsOrEmpty
    case GetResistance(_) => ItemsOrEmpty
    case GetFototeca(_) => ItemsOrEmpty
    case GetAnalysts(_) => ItemsOrEmpty
    case GetVelumArticles => ItemsOrEmpty
    case GetTerminology => ItemsOrEmpty
    case GetTerminologyByCategory(_, _) => ItemsOrEmpty
    case _ => AsFetched
  }

  function Shape(s: Shaping, data: Json): (r: Json)
    ensures s != AsFetched ==> Truthy(r)
    ensures s == AsFetched ==> r == data
    ensures s == ItemsOrEmpty ==> (r == Get(data, "items") <==> Truthy(Get(data, "items"))) && (r == Get(data, "items") || r == EmptyList)
    ensures s == CountriesOrData ==> r == Get(data, "countries") || r == data || r == EmptyList
    ensures s == CountriesOrData && Truthy(Get(data, "countries")) ==> r == Get(data, "countries")
    ensures s == DescriptionOrEmpty ==> (r == data <==> Truthy(data)) && (r == data || r == PublicApi.EmptyDescription)
  {
    match s
    case ItemsOrEmpty => Or(Get(data, "items"), EmptyList)
    case CountriesOrData => Or(Get(data, "countries"), Or(data, EmptyList))
    case DescriptionOrEmpty => Or(data, PublicApi.EmptyDescription)
    case AsFetched => data
  }

  /** A getter called with `(…, langArg)`: the shaped result of `fetchFromApi`. */
  function Call(g: Getter, langArg: Option<string>, apiBase: string, net: string -> FetchOutcome): Json {
    var lang := ArgLang(langArg);
    Shape(ShapingOf(g), FetchFromApi(apiBase, Endpoint(g, lang), MirrorPath(g, lang), net).data)
  }

  /** The list getters never return null: a truthy `items`, else `[]`. */
  lemma ListGettersNeverNull(g: Getter, langArg: Option<string>, apiBase: string, net: string -> FetchOutcome)
    requires ShapingOf(g) == ItemsOrEmpty
    ensures Call(g, langArg, apiBase, net) != JNull
    ensures var data := FetchFromApi(apiBase, Endpoint(g, ArgLang(langArg)), MirrorPath(g, ArgLang(langArg)), net).data;
      Call(g, langArg, apiBase, net) == (if Truthy(Get(data, "items")) then Get(data, "items") else EmptyList)
  {
  }

  /** `getTerm` fetches once: a failed API call answers null without a second request. */
  lemma TermHasNoFallback(termId: string, langArg: Option<string>, apiBase: string, net: string -> FetchOutcome)
    requires !net(ApiUrl(apiBase, Endpoint(GetTerm(termId), ArgLang(langArg)))).Ok?
    ensures Call(GetTerm(termId), langArg, apiBase, net) == JNull
    ensures |FetchFromApi(apiBase, Endpoint(GetTerm(termId), ArgLang(langArg)), MirrorPath(GetTerm(termId), ArgLang(langArg)), net).requested| == 1
  {
  }

  /** The snapshot file the server would read for the same request, for a non-empty language
      (the server reads `lang || 'es'`). */
  function ServerPath(g: Getter, lang: string): Option<string> {
    match g
    case GetCountries => Some(PublicApi.CountriesPath(lang))
    case GetCountryMeta(code) => Some(PublicApi.MetaPath(lang, code))
    case GetDescription(code) => Some(PublicApi.DescriptionPath(lang, code))
    case GetTimeline(code) => Some(PublicApi.ListPath(PublicApi.TimelineList, lang, code))
    case GetTimelineEvent(code, eventId) => Some(PublicApi.EventPath(lang, code, eventId))
    case GetTestimonies(code) => Some(PublicApi.ListPath(PublicApi.TestimonyList, lang, code))
    case GetWitness(code, witnessId) => Some(PublicApi.ProfilePath(PublicApi.Witness, lang, code, witnessId))
    case GetResistance(code) => Some(PublicApi.ListPath(PublicApi.ResistanceList, lang, code))
    case GetResistor(code, resistorId) => Some(PublicApi.ProfilePath(PublicApi.Resistor, lang, code, resistorId))
    case GetFototeca(code) => Some(PublicApi.ListPath(PublicApi.FototecaList, lang, code))
    case GetAnalysts(code) => Some(PublicApi.ListPath(PublicApi.AnalystList, lang, code))
    case GetAnalyst(code, analystId) => Some(PublicApi.ProfilePath(PublicApi.Analyst, lang, code, analystId))
    case GetVelumArticles => Some(PublicApi.VelumIndexPath(lang))
    case GetVelumArticle(articleId) => Some(PublicApi.ArticlePath(lang, articleId))
    case GetTerminology => Some(PublicApi.TerminologyPath(lang))
    case GetTerm(_) => None
    case GetTerminologyIndex => Some(PublicApi.TerminologyIndexPath(lang))
    case GetTerminologyByCategory(category, letter) => Some(PublicApi.ByLetterPath(lang, category, letter))
  }

  /** The client's mirror is the server's snapshot file for every getter, except the
      category/letter route, whose file the server names with the lower-cased letter: there
      the two agree exactly when the letter is already lower-case. */
  lemma {:induction false} MirrorMatchesServerSnapshot(g: Getter, lang: string)
    ensures !g.GetTerminologyByCategory? ==> MirrorPath(g, lang) == ServerPath(g, lang)
    ensures g.GetTerminologyByCategory? ==>
      (MirrorPath(g, lang) == ServerPath(g, lang) <==> Text.Lower(g.letter) == g.letter)
  {
    match g
    case GetTerminologyByCategory(category, letter) =>
      var prefix := "/data/" + lang + "/terminology/" + category + "/";
      var mirror := prefix + letter + ".json";
      var server := prefix + Text.Lower(letter) + ".json";
      assert MirrorPath(g, lang) == Some(mirror);
      assert ServerPath(g, lang) == Some(server);
      if mirror == server {
        assert |Text.Lower(letter)| == |letter|;
        assert letter == mirror[|prefix|..|prefix| + |letter|];
        assert Text.Lower(letter) == server[|prefix|..|prefix| + |letter|];
      }
    case _ =>
  }
}
