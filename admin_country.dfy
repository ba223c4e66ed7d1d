/** The editing screen of one country (src/admin/AdminCountry.js): which country record it
    shows once the CMS list arrived (or failed), the name in its heading, and the country
    selector grouped by region. The component's React state is the state of a `Screen`
    object. */
module AdminCountry {
  import opened Wrappers
  import Order
  import opened Seqs
  import opened Admin

  /** `countries.find(c => c.code === code)`. */
  function FindCountry(countries: seq<CmsCountry>, code: string): (r: Option<CmsCountry>)
    ensures r.Some? ==> r.value in countries && r.value.code == code
    ensures r.None? <==> forall c :: c in countries ==> c.code != code
    ensures countries != [] && countries[0].code == code ==> r == Some(countries[0])
    ensures r.Some? ==> exists i :: 0 <= i < |countries| && countries[i] == r.value &&
                          forall j :: 0 <= j < i ==> countries[j].code != code
  {
    if countries == [] then None
    else if countries[0].code == code then Some(countries[0])
    else
      var r := FindCountry(countries[1..], code);
      assert forall c :: c in countries <==> c == countries[0] || c in countries[1..];
      if r.Some? then
        ghost var k :| 0 <= k < |countries[1..]| && countries[1..][k] == r.value &&
                       forall j :: 0 <= j < k ==> countries[1..][j].code != code;
        assert countries[k + 1] == r.value;
        assert forall j :: 1 <= j <= k ==> countries[j] == countries[1..][j - 1];
        r
      else r
  }

  /** `countryInfo?.name || fallback`, with `countryInfo` the predefined entry of `code`. */
  function PredefinedNameOr(predefined: seq<Predefined>, code: string, fallback: string): (r: string)
    ensures FindPredefined(predefined, code).Some? && FindPredefined(predefined, code).value.name != "" ==>
              r == FindPredefined(predefined, code).value.name
    ensures FindPredefined(predefined, code).None? || FindPredefined(predefined, code).value.name == "" ==> r == fallback
  {
    var info := FindPredefined(predefined, code);
    if info.Some? && info.value.name != "" then info.value.name else fallback
  }

  /** The record `loadCountry` makes up for a country the CMS does not have yet. */
  function DefaultCountry(selected: string, predefined: seq<Predefined>): (c: CmsCountry)
    ensures c.code == selected && c.sections == []
    ensures c.name == PredefinedNameOr(predefined, selected, selected)
    ensures c.name == "" ==> selected == ""
  {
    CmsCountry(selected, PredefinedNameOr(predefined, selected, selected), [])
  }

  /** `countryName`: the shown country's name, else the predefined name, else the code. */
  function CountryName(country: Option<CmsCountry>, predefined: seq<Predefined>, selected: string): (r: string)
    ensures country.Some? && country.value.name != "" ==> r == country.value.name
    ensures country.None? || country.value.name == "" ==> r == PredefinedNameOr(predefined, selected, selected)
    ensures selected != "" ==> r != ""
  {
    if country.Some? && country.value.name != "" then country.value.name
    else PredefinedNameOr(predefined, selected, selected)
  }

  /** The heading is the same whether the country record was made up or not loaded at all. */
  lemma DefaultCountryName(selected: string, predefined: seq<Predefined>)
    ensures CountryName(Some(DefaultCountry(selected, predefined)), predefined, selected) == CountryName(None, predefined, selected)
  {
  }

  // ---------------------------------------------------------------------------------------
  // The country selector

  /** `REGION_LABELS`: every region it lists is labelled with itself. */
  const RegionLabels: map<string, string> :=
    map["Oriente Medio" := "Oriente Medio", "Norte de África" := "Norte de África",
        "África Oriental" := "África Oriental", "Europa" := "Europa", "África" := "África",
        "Asia" := "Asia", "Asia Central" := "Asia Central", "Sudeste Asiático" := "Sudeste Asiático",
        "Oceanía" := "Oceanía", "Norteamérica" := "Norteamérica", "Centroamérica" := "Centroamérica",
        "Sudamérica" := "Sudamérica", "Caribe" := "Caribe"]

  /** `REGION_LABELS[region] || region` as an object key; an absent region is the key
      'undefined'. */
  function Label(region: Option<string>): string {
    if region.None? then "undefined"
    else if region.value in RegionLabels && RegionLabels[region.value] != "" then RegionLabels[region.value]
    else region.value
  }

  /** Since the labels are the identity, a region's group is keyed by the region itself. */
  lemma LabelIsRegion(region: string)
    ensures Label(Some(region)) == region
  {
    if region in RegionLabels {
      assert forall k :: k in RegionLabels ==> RegionLabels[k] == k;
    }
  }

  /** The regions the predefined countries carry. */
  function DefinedRegions(predefined: seq<Predefined>): (r: seq<string>)
    ensures forall x :: x in r <==> exists c :: c in predefined && c.region == Some(x)
  {
    if predefined == [] then []
    else
      assert forall c :: c in predefined <==> c == predefined[0] || c in predefined[1..];
      (if predefined[0].region.Some? then [predefined[0].region.value] else []) + DefinedRegions(predefined[1..])
  }

  predicate HasNoRegion(predefined: seq<Predefined>) {
    exists c :: c in predefined && c.region.None?
  }

  /** The regions a sorted list of names and, optionally, the absent region stand for. */
  function WithAbsent(sorted: seq<string>, absent: bool): (r: seq<Option<string>>)
    ensures |r| == |sorted| + (if absent then 1 else 0)
    ensures forall i :: 0 <= i < |sorted| ==> r[i] == Some(sorted[i])
    ensures absent ==> r[|sorted|] == None
  {
    seq(|sorted|, i requires 0 <= i < |sorted| => Some(sorted[i])) + (if absent then [None] else [])
  }

  /** Distinct sorted names, then the absent region, occur once each and in order, and stand
      for exactly those names and that absence. */
  lemma WithAbsentCorrect(sorted: seq<string>, absent: bool)
    requires Order.Distinct(sorted) && Order.Sorted(sorted)
    ensures var r := WithAbsent(sorted, absent);
      forall i, j :: 0 <= i < j < |r| ==> r[i] != r[j]
    ensures var r := WithAbsent(sorted, absent);
      forall i, j :: 0 <= i < j < |r| && r[j].Some? ==> r[i].Some? && Order.LexLe(r[i].value, r[j].value)
    ensures forall x :: Some(x) in WithAbsent(sorted, absent) <==> x in sorted
    ensures None in WithAbsent(sorted, absent) <==> absent
  {
    var r := WithAbsent(sorted, absent);
    forall x ensures Some(x) in r <==> x in sorted {
      if Some(x) in r {
        var i :| 0 <= i < |r| && r[i] == Some(x);
      }
      if x in sorted {
        var i :| 0 <= i < |sorted| && sorted[i] == x;
        assert r[i] == Some(x);
      }
    }
    if None in r {
      var i :| 0 <= i < |r| && r[i] == None;
    }
  }

  /** `uniqueRegions`: the distinct regions, sorted; the absence of a region, when some country
      lacks one, sorts last. */
  function UniqueRegions(predefined: seq<Predefined>): seq<Option<string>> {
    WithAbsent(Order.Sort(Order.Dedup(DefinedRegions(predefined))), HasNoRegion(predefined))
  }

  /** The regions occur once each, the named ones in order, the absent one last. */
  lemma UniqueRegionsCorrect(predefined: seq<Predefined>)
    ensures var r := UniqueRegions(predefined);
      forall i, j :: 0 <= i < j < |r| ==> r[i] != r[j]
    ensures var r := UniqueRegions(predefined);
      forall i, j :: 0 <= i < j < |r| && r[j].Some? ==> r[i].Some? && Order.LexLe(r[i].value, r[j].value)
    ensures forall x :: Some(x) in UniqueRegions(predefined) <==> exists c :: c in predefined && c.region == Some(x)
    ensures None in UniqueRegions(predefined) <==> HasNoRegion(predefined)
  {
    Order.SortDistinct(Order.Dedup(DefinedRegions(predefined)));
    WithAbsentCorrect(Order.Sort(Order.Dedup(DefinedRegions(predefined))), HasNoRegion(predefined));
  }

  /** The countries `filter(c => c.region === region)` keeps. */
  function InRegion(region: Option<string>): Predefined -> bool {
    (c: Predefined) => c.region == region
  }

  /** After the first `i` assignments `m[keys[j]] = values[j]`: the keys assigned so far, each
      holding the value of its last assignment. */
  ghost predicate Filled<V>(keys: seq<string>, values: seq<V>, i: nat, m: map<string, V>)
    requires i <= |keys| == |values|
  {
    (forall k :: k in m <==> exists j :: 0 <= j < i && keys[j] == k) &&
    (forall j :: 0 <= j < i && (forall l :: j < l < i ==> keys[l] != keys[j]) ==> m[keys[j]] == values[j])
  }

  /** One more assignment extends `Filled` by one. */
  lemma FilledStep<V>(keys: seq<string>, values: seq<V>, i: nat, m: map<string, V>)
    requires i < |keys| == |values| && Filled(keys, values, i, m)
    ensures Filled(keys, values, i + 1, m[keys[i] := values[i]])
  {
    var m' := m[keys[i] := values[i]];
    forall j | 0 <= j < i + 1 && (forall l :: j < l < i + 1 ==> keys[l] != keys[j])
      ensures m'[keys[j]] == values[j]
    {
      if j < i {
        assert keys[i] != keys[j];
      }
    }
  }

  /** The key and the countries of each region. */
  function Keys(regions: seq<Option<string>>): (r: seq<string>)
    ensures |r| == |regions| && forall j :: 0 <= j < |regions| ==> r[j] == Label(regions[j])
  {
    seq(|regions|, j requires 0 <= j < |regions| => Label(regions[j]))
  }

  function Members(regions: seq<Option<string>>, predefined: seq<Predefined>): (r: seq<seq<Predefined>>)
    ensures |r| == |regions| && forall j :: 0 <= j < |regions| ==> r[j] == Filter(predefined, InRegion(regions[j]))
  {
    seq(|regions|, j requires 0 <= j < |regions| => Filter(predefined, InRegion(regions[j])))
  }

  /** Once every region is assigned, the map holds the key of every region, each with the
      countries of the last region of that key. */
  lemma FilledByLabel(regions: seq<Option<string>>, predefined: seq<Predefined>, groups: map<string, seq<Predefined>>)
    requires Filled(Keys(regions), Members(regions, predefined), |regions|, groups)
    ensures forall k :: k in groups <==> exists j :: 0 <= j < |regions| && Label(regions[j]) == k
    ensures forall j :: 0 <= j < |regions| && (forall l :: j < l < |regions| ==> Label(regions[l]) != Label(regions[j])) ==>
              groups[Label(regions[j])] == Filter(predefined, InRegion(regions[j]))
  {
    var keys := Keys(regions);
    forall k ensures k in groups <==> exists j :: 0 <= j < |regions| && Label(regions[j]) == k {
      if k in groups {
        var j :| 0 <= j < |regions| && keys[j] == k;
        assert Label(regions[j]) == k;
      }
    }
    forall j | 0 <= j < |regions| && (forall l :: j < l < |regions| ==> Label(regions[l]) != Label(regions[j]))
      ensures groups[Label(regions[j])] == Filter(predefined, InRegion(regions[j]))
    {
      assert forall l :: j < l < |regions| ==> keys[l] != keys[j];
    }
  }

  /** The `forEach` over `regions`: each region's countries under its key, the last region of a
      key winning. */
  method FillGroups(regions: seq<Option<string>>, predefined: seq<Predefined>) returns (groups: map<string, seq<Predefined>>)
    ensures forall k :: k in groups <==> exists j :: 0 <= j < |regions| && Label(regions[j]) == k
    ensures forall j :: 0 <= j < |regions| && (forall l :: j < l < |regions| ==> Label(regions[l]) != Label(regions[j])) ==>
              groups[Label(regions[j])] == Filter(predefined, InRegion(regions[j]))
  {
    ghost var keys := Keys(regions);
    ghost var values := Members(regions, predefined);
    groups := map[];
    var i := 0;
    while i < |regions|
      invariant 0 <= i <= |regions|
      invariant Filled(keys, values, i, groups)
    {
      FilledStep(keys, values, i, groups);
      groups := groups[Label(regions[i]) := Filter(predefined, InRegion(regions[i]))];
      i := i + 1;
    }
    FilledByLabel(regions, predefined, groups);
  }

  /** `groupedCountries`. A later region overwrites an earlier one of the same key, which
      happens only with a region literally named 'undefined' next to countries without
      region. */
  method GroupRegions(predefined: seq<Predefined>) returns (groups: map<string, seq<Predefined>>)
    ensures forall k :: k in groups <==> exists r :: r in UniqueRegions(predefined) && Label(r) == k
    ensures forall r :: r in UniqueRegions(predefined) && !(r == Some("undefined") && HasNoRegion(predefined)) ==>
              groups[Label(r)] == Filter(predefined, InRegion(r))
    ensures forall c :: c in predefined && !(c.region == Some("undefined") && HasNoRegion(predefined)) ==>
              Label(c.region) in groups && c in groups[Label(c.region)]
  {
    var regions := UniqueRegions(predefined);
    groups := FillGroups(regions, predefined);
    UniqueRegionsCorrect(predefined);
    forall k ensures k in groups <==> exists r :: r in regions && Label(r) == k {
      if k in groups {
        var j :| 0 <= j < |regions| && Label(regions[j]) == k;
        assert regions[j] in regions;
      }
    }
    forall r | r in regions && !(r == Some("undefined") && HasNoRegion(predefined))
      ensures groups[Label(r)] == Filter(predefined, InRegion(r))
    {
      var j :| 0 <= j < |regions| && regions[j] == r;
      forall l | j < l < |regions| ensures Label(regions[l]) != Label(regions[j]) {
        if Label(regions[l]) == Label(regions[j]) {
          LabelsApart(regions[j], regions[l]);
        }
      }
    }
    forall c | c in predefined && !(c.region == Some("undefined") && HasNoRegion(predefined))
      ensures Label(c.region) in groups && c in groups[Label(c.region)]
    {
      assert c.region in regions;
    }
  }

  /** Two different regions share a key only as 'undefined' and the absent region. */
  lemma LabelsApart(a: Option<string>, b: Option<string>)
    requires a != b && Label(a) == Label(b)
    ensures (a == Some("undefined") && b.None?) || (a.None? && b == Some("undefined"))
  {
    if a.Some? {
      LabelIsRegion(a.value);
    }
    if b.Some? {
      LabelIsRegion(b.value);
    }
  }

  /** The component state. */
  class Screen {
    var country: Option<CmsCountry>
    var available: seq<CmsCountry>
    var predefined: seq<Predefined>
    var selected: string
    var lang: string
    var loading: bool
    var loadingPredefined: bool

    /** `urlCountryCode || 'palestine'`. */
    constructor (urlCountryCode: Option<string>)
      ensures urlCountryCode.Some? && urlCountryCode.value != "" ==> selected == urlCountryCode.value
      ensures urlCountryCode.None? || urlCountryCode.value == "" ==> selected == "palestine"
      ensures country.None? && available == [] && predefined == [] && lang == "es" && loading && loadingPredefined
    {
      selected := if urlCountryCode.Some? && urlCountryCode.value != "" then urlCountryCode.value else "palestine";
      country := None;
      available := [];
      predefined := [];
      lang := "es";
      loading := true;
      loadingPredefined := true;
    }

    /** The heading. */
    function Name(): string
      reads this
    {
      CountryName(country, predefined, selected)
    }

    /** The end of `loadPredefinedCountries`: `data.countries || []` on an answer. */
    method PredefinedLoaded(reply: Reply<Option<seq<Predefined>>>)
      modifies this
      ensures reply.Delivered? ==> predefined == reply.body.GetOr([])
      ensures !reply.Delivered? ==> predefined == old(predefined)
      ensures !loadingPredefined
      ensures country == old(country) && available == old(available) && selected == old(selected)
      ensures lang == old(lang) && loading == old(loading)
    {
      if reply.Delivered? {
        predefined := reply.body.GetOr([]);
      }
      loadingPredefined := false;
    }

    /** The end of `loadCountry`. A list that holds the selected code shows that entry; a list
        that does not, a missing list (`data.countries.find` throws) and a failed fetch all
        show the made-up record; an answer with an error status changes nothing. */
    method CountryLoaded(reply: Reply<Option<seq<CmsCountry>>>)
      modifies this
      ensures reply.Delivered? ==> available == reply.body.GetOr([])
      ensures !reply.Delivered? ==> available == old(available)
      ensures reply.Delivered? && reply.body.Some? && FindCountry(reply.body.value, selected).Some? ==>
                country == FindCountry(reply.body.value, selected)
      ensures reply.Delivered? && reply.body.Some? && FindCountry(reply.body.value, selected).None? ==>
                country == Some(DefaultCountry(selected, predefined))
      ensures reply.Delivered? && reply.body.None? ==> country == Some(DefaultCountry(selected, predefined))
      ensures reply.Threw? ==> country == Some(DefaultCountry(selected, predefined))
      ensures reply.NotOk? ==> country == old(country)
      ensures !loading
      ensures predefined == old(predefined) && selected == old(selected) && lang == old(lang)
      ensures loadingPredefined == old(loadingPredefined)
    {
      match reply {
        case Threw =>
          country := Some(DefaultCountry(selected, predefined));
        case NotOk =>
        case Delivered(body) =>
          available := body.GetOr([]);
          if body.None? {
            country := Some(DefaultCountry(selected, predefined));
          } else {
            var found := FindCountry(body.value, selected);
            country := if found.Some? then found else Some(DefaultCountry(selected, predefined));
          }
      }
      loading := false;
    }

    /** `handleCountryChange`: a new selection (the route change is not modelled). */
    method ChangeCountry(code: string)
      modifies this
      ensures selected == code
      ensures country == old(country) && available == old(available) && predefined == old(predefined)
      ensures lang == old(lang) && loading == old(loading) && loadingPredefined == old(loadingPredefined)
    {
      selected := code;
    }
  }
}
