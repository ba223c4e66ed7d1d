/** The records the admin screens share: the signed-in user as the auth context hands it
    over, the countries the CMS already has (`GET /api/cms/countries`) and the predefined
    countries an admin can add (`GET /api/cms/predefined-countries`). */
module Admin {
  import opened Wrappers
  import opened Json

  /** `user.permissions`; an absent object reads as all flags off. */
  datatype Permissions = Permissions(canCreate: bool, canEdit: bool, canDelete: bool)

  /** `user.countries` lists country codes, or 'all'; None when the field is absent. */
  datatype User = User(name: string, role: string, permissions: Option<Permissions>, countries: Option<seq<string>>)

  predicate IsAdmin(u: User) {
    u.role == "admin"
  }

  /** `user.role === 'admin' || user.permissions?.canCreate`. */
  predicate CanCreate(u: User) {
    IsAdmin(u) || (u.permissions.Some? && u.permissions.value.canCreate)
  }

  /** `user.role === 'admin' || user.permissions?.canEdit`. */
  predicate CanEdit(u: User) {
    IsAdmin(u) || (u.permissions.Some? && u.permissions.value.canEdit)
  }

  /** `user.role === 'admin' || user.permissions?.canDelete`. */
  predicate CanDelete(u: User) {
    IsAdmin(u) || (u.permissions.Some? && u.permissions.value.canDelete)
  }

  /** An admin may do everything; anyone else exactly what the permission flags grant, and
      nothing without a permissions object. */
  lemma PermissionsCorrect(u: User)
    ensures IsAdmin(u) ==> CanCreate(u) && CanEdit(u) && CanDelete(u)
    ensures !IsAdmin(u) && u.permissions.Some? ==>
              (CanCreate(u) <==> u.permissions.value.canCreate) &&
              (CanEdit(u) <==> u.permissions.value.canEdit) &&
              (CanDelete(u) <==> u.permissions.value.canDelete)
    ensures !IsAdmin(u) && u.permissions.None? ==> !CanCreate(u) && !CanEdit(u) && !CanDelete(u)
  {
  }

  /** An entry of the CMS country list: code, name and its editor sections. */
  datatype CmsCountry = CmsCountry(code: string, name: string, sections: seq<Json>)

  /** A predefined country; `region` may be absent. */
  datatype Predefined = Predefined(code: string, name: string, region: Option<string>)

  /** `predefinedCountries.find(c => c.code === code)`. */
  function FindPredefined(predefined: seq<Predefined>, code: string): (r: Option<Predefined>)
    ensures r.Some? ==> r.value in predefined && r.value.code == code
    ensures r.None? <==> forall c :: c in predefined ==> c.code != code
    ensures r.Some? ==> exists i :: 0 <= i < |predefined| && predefined[i] == r.value &&
                          forall j :: 0 <= j < i ==> predefined[j].code != code
  {
    if predefined == [] then None
    else if predefined[0].code == code then Some(predefined[0])
    else
      var r := FindPredefined(predefined[1..], code);
      assert forall c :: c in predefined <==> c == predefined[0] || c in predefined[1..];
      if r.Some? then
        ghost var k :| 0 <= k < |predefined[1..]| && predefined[1..][k] == r.value &&
                       forall j :: 0 <= j < k ==> predefined[1..][j].code != code;
        assert predefined[k + 1] == r.value;
        assert forall j :: 1 <= j <= k ==> predefined[j] == predefined[1..][j - 1];
        r
      else r
  }

  /** How a `fetch` of the screens ended: it threw, it answered with a non-2xx status, or it
      delivered a body. */
  datatype Reply<T> = Threw | NotOk | Delivered(body: T)
}
