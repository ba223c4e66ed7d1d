/** The country overview of the admin area (src/admin/AdminDashboard.js): which country cards
    the user may open, which predefined countries are still available to add and how they are
    grouped by region, the pending-changes badge, and the guards of the "new country"
    dialog. The component's React state is the state of a `Dashboard` object. */
module AdminDashboard {
  import opened Wrappers
  import opened Json
  import opened Seqs
  import opened Admin

  /** `hasAccess` of a country card: admins, users granted 'all', and users granted that
      code. */
  predicate HasAccess(u: User, code: string) {
    IsAdmin(u) || (u.countries.Some? && ("all" in u.countries.value || code in u.countries.value))
  }

  /** An admin reaches every country; a non-admin reaches exactly the countries listed for
      them, all of them with 'all', and none without a list. */
  lemma HasAccessCorrect(u: User, code: string)
    ensures IsAdmin(u) ==> HasAccess(u, code)
    ensures !IsAdmin(u) && u.countries.Some? && "all" !in u.countries.value ==> (HasAccess(u, code) <==> code in u.countries.value)
    ensures !IsAdmin(u) && u.countries.None? ==> !HasAccess(u, code)
    ensures u.countries.Some? && "all" in u.countries.value ==> forall other :: HasAccess(u, other)
  {
  }

  /** `countries.map(c => c.code)`. */
  function ExistingCodes(countries: seq<CmsCountry>): (r: seq<string>)
    ensures forall code :: code in r <==> exists c :: c in countries && c.code == code
  {
    if countries == [] then []
    else
      assert forall c :: c in countries <==> c == countries[0] || c in countries[1..];
      [countries[0].code] + ExistingCodes(countries[1..])
  }

  predicate NotYetAdded(countries: seq<CmsCountry>, c: Predefined) {
    c.code !in ExistingCodes(countries)
  }

  /** The predefined countries the CMS does not have yet, in their order. */
  function AvailableCountries(predefined: seq<Predefined>, countries: seq<CmsCountry>): (r: seq<Predefined>)
    ensures forall c :: c in r <==> c in predefined && forall e :: e in countries ==> e.code != c.code
    ensures IsSubsequence(r, predefined)
  {
    Filter(predefined, (c: Predefined) => NotYetAdded(countries, c))
  }

  /** `country.region || 'Otros'`. */
  function RegionKey(c: Predefined): string {
    if c.region.Some? && c.region.value != "" then c.region.value else "Otros"
  }

  function InGroup(key: string): Predefined -> bool {
    (c: Predefined) => RegionKey(c) == key
  }

  /** The accumulator after the countries `seen`: one list per key among them, each holding
      that key's countries in order. */
  ghost predicate Grouped(seen: seq<Predefined>, groups: map<string, seq<Predefined>>) {
    (forall k :: k in groups <==> exists c :: c in seen && RegionKey(c) == k) &&
    (forall k :: k in groups ==> groups[k] == Filter(seen, InGroup(k)))
  }

  /** Appending the next country to its key's list (started empty when new) keeps `Grouped`. */
  lemma GroupedSnoc(seen: seq<Predefined>, c: Predefined, groups: map<string, seq<Predefined>>)
    requires Grouped(seen, groups)
    ensures var key := RegionKey(c);
      Grouped(seen + [c], groups[key := (if key in groups then groups[key] else []) + [c]])
  {
    var key := RegionKey(c);
    var after := groups[key := (if key in groups then groups[key] else []) + [c]];
    if key !in groups {
      forall i | 0 <= i < |seen| ensures !InGroup(key)(seen[i]) {
        assert seen[i] in seen;
      }
      FilterNone(seen, InGroup(key));
    }
    forall k | k in after ensures after[k] == Filter(seen + [c], InGroup(k)) {
      FilterSnoc(seen, c, InGroup(k));
    }
  }

  /** The `groupedCountries` reduce: one list per region key, each in input order. */
  method GroupCountries(available: seq<Predefined>) returns (groups: map<string, seq<Predefined>>)
    ensures forall k :: k in groups <==> exists c :: c in available && RegionKey(c) == k
    ensures forall k :: k in groups ==> groups[k] == Filter(available, InGroup(k))
  {
    groups := map[];
    var i := 0;
    while i < |available|
      invariant 0 <= i <= |available|
      invariant Grouped(available[..i], groups)
    {
      var c := available[i];
      var key := RegionKey(c);
      GroupedSnoc(available[..i], c, groups);
      assert available[..i + 1] == available[..i] + [c];
      var list := if key in groups then groups[key] else [];
      groups := groups[key := list + [c]];
      i := i + 1;
    }
    assert available[..i] == available;
  }

  /** Every available country sits in the group of its region and in no other. */
  lemma GroupsPartition(available: seq<Predefined>, groups: map<string, seq<Predefined>>, c: Predefined, k: string)
    requires forall k :: k in groups ==> groups[k] == Filter(available, InGroup(k))
    requires forall k :: k in groups <==> exists c :: c in available && RegionKey(c) == k
    ensures c in available ==> RegionKey(c) in groups && c in groups[RegionKey(c)]
    ensures k in groups && c in groups[k] ==> c in available && RegionKey(c) == k
  {
  }

  /** `data.changes?.length || 0`: the length of a list (or of a text); 0 otherwise. */
  function ChangesLength(data: Json): nat {
    match Get(data, "changes")
    case JArr(elems) => |elems|
    case JStr(s) => |s|
    case _ => 0
  }

  /** The request body of `handleCreateCountry`, or None when it returns early: nothing
      selected, or a selection that is not a predefined code. */
  function NewCountryBody(selected: string, predefined: seq<Predefined>): (r: Option<Json>)
    ensures r.Some? <==> selected != "" && exists c :: c in predefined && c.code == selected
    ensures r.Some? ==> r.value == JObj(map["code" := JStr(selected), "name" := JStr(FindPredefined(predefined, selected).value.name),
                                            "lang" := JStr("es")])
  {
    if selected == "" then None
    else
      match FindPredefined(predefined, selected)
      case None => None
      case Some(c) => Some(JObj(map["code" := JStr(c.code), "name" := JStr(c.name), "lang" := JStr("es")]))
  }

  /** The component state. */
  class Dashboard {
    const user: User
    var countries: seq<CmsCountry>
    var predefined: seq<Predefined>
    var pendingCount: nat
    var loading: bool
    var showNewCountry: bool
    var selectedCountry: string

    /** Only admins ever see a non-zero pending count. */
    ghost predicate Valid()
      reads this
    {
      !IsAdmin(user) ==> pendingCount == 0
    }

    constructor (user: User)
      ensures Valid()
      ensures this.user == user && countries == [] && predefined == [] && pendingCount == 0
      ensures loading && !showNewCountry && selectedCountry == ""
    {
      this.user := user;
      countries := [];
      predefined := [];
      pendingCount := 0;
      loading := true;
      showNewCountry := false;
      selectedCountry := "";
    }

    /** The cards' choice for the "new country" dialog. */
    function Available(): seq<Predefined>
      reads this
    {
      AvailableCountries(predefined, countries)
    }

    /** `loadData` with the three answers of its `Promise.all`. Non-admins never ask for the
        pending changes: they get an answer with an empty list. A rejected fetch leaves the
        lists as they were. */
    method LoadData(countriesReply: Reply<Option<seq<CmsCountry>>>, pendingReply: Reply<Json>,
                    predefinedReply: Reply<Option<seq<Predefined>>>)
      requires Valid()
      modifies this
      ensures Valid() && !loading
      ensures showNewCountry == old(showNewCountry) && selectedCountry == old(selectedCountry)
      ensures var threw := countriesReply.Threw? || (IsAdmin(user) && pendingReply.Threw?) || predefinedReply.Threw?;
        (threw ==> countries == old(countries) && predefined == old(predefined) && pendingCount == old(pendingCount)) &&
        (!threw ==>
          countries == (if countriesReply.Delivered? then countriesReply.body.GetOr([]) else old(countries)) &&
          predefined == (if predefinedReply.Delivered? then predefinedReply.body.GetOr([]) else old(predefined)) &&
          pendingCount == (if !IsAdmin(user) then 0
                           else if pendingReply.Delivered? then ChangesLength(pendingReply.body) else old(pendingCount)))
    {
      var pending := if IsAdmin(user) then pendingReply else Delivered(JObj(map["changes" := JArr([])]));
      if countriesReply.Threw? || pending.Threw? || predefinedReply.Threw? {
        loading := false;
        return;
      }
      if countriesReply.Delivered? {
        countries := countriesReply.body.GetOr([]);
      }
      if pending.Delivered? {
        pendingCount := ChangesLength(pending.body);
      }
      if predefinedReply.Delivered? {
        predefined := predefinedReply.body.GetOr([]);
      }
      loading := false;
    }

    /** The end of `handleCreateCountry` once the server answered: on success the dialog
        closes and the selection clears; the returned text is what `alert` shows. A refusal
        whose body is `null` throws at `error.error`, and the `catch` only logs. */
    method CountryCreated(ok: bool, data: Json) returns (notice: Option<Json>)
      requires Valid()
      modifies this
      ensures Valid()
      ensures ok ==> !showNewCountry && selectedCountry == "" && notice.None?
      ensures !ok ==> showNewCountry == old(showNewCountry) && selectedCountry == old(selectedCountry)
      ensures !ok && !data.JNull? ==> notice == Some(Or(Get(data, "error"), JStr("Error al crear país")))
      ensures !ok && data.JNull? ==> notice.None?
      ensures countries == old(countries) && predefined == old(predefined) && pendingCount == old(pendingCount)
      ensures loading == old(loading)
    {
      if ok {
        showNewCountry := false;
        selectedCountry := "";
        notice := None;
      } else {
        match Prop(data, "error") {
          case None => notice := None;
          case Some(error) => notice := Some(Or(error, JStr("Error al crear país")));
        }
      }
    }
  }
}
