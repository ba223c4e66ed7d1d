/** The terminology editor of the admin area (attached_assets/TerminologyEditor_1767000183209.js):
    the permission flags, the search and category filter over the loaded terms, the form with
    its related-term and source tag lists, and the request a submit sends. The component's
    React state is the state of an `Editor` object. */
module TerminologyEditor {
  import opened Wrappers
  import opened Json
  import Text
  import opened Seqs
  import opened Admin

  /** The category choices, as value and label. */
  const Categories: seq<(string, string)> :=
    [("general", "General"), ("personaje", "Personaje"), ("organizacion", "Organización"),
     ("concepto", "Concepto"), ("lugar", "Lugar"), ("evento", "Evento")]

  /** A term as the terminology list delivers it; any field but the id may be absent. */
  datatype Term = Term(id: string, term: Option<string>, definition: Option<string>, category: Option<string>,
                       relatedTerms: Option<seq<string>>, sources: Option<seq<string>>)

  /** The form state `termForm`; `term` and `definition` are copied as they are, absent
      included. */
  datatype TermForm = TermForm(term: Option<string>, definition: Option<string>, category: string,
                               relatedTerms: seq<string>, sources: seq<string>)

  /** The form of a new term. */
  const BlankForm: TermForm := TermForm(Some(""), Some(""), "general", [], [])

  // ---------------------------------------------------------------------------------------
  // filteredTerms

  /** `(term.term || '').toLowerCase().includes(query)` or the same on the definition. */
  predicate MatchesSearch(t: Term, query: string) {
    Text.Contains(Text.Lower(t.term.GetOr("")), Text.Lower(query)) ||
    Text.Contains(Text.Lower(t.definition.GetOr("")), Text.Lower(query))
  }

  /** `filterCategory === 'all' || term.category === filterCategory`. */
  predicate MatchesCategory(t: Term, category: string) {
    category == "all" || t.category == Some(category)
  }

  predicate Shown(t: Term, query: string, category: string) {
    MatchesSearch(t, query) && MatchesCategory(t, category)
  }

  /** The terms the grid shows. */
  function FilteredTerms(terms: seq<Term>, query: string, category: string): (r: seq<Term>)
    ensures forall t :: t in r <==> t in terms && Shown(t, query, category)
    ensures IsSubsequence(r, terms)
  {
    Filter(terms, (t: Term) => Shown(t, query, category))
  }

  /** An empty search with every category shows all terms, in order. */
  lemma EmptyFilterShowsAll(terms: seq<Term>)
    ensures FilteredTerms(terms, "", "all") == terms
  {
    forall t | t in terms ensures Shown(t, "", "all") {
      Text.ContainsEmpty(Text.Lower(t.term.GetOr("")));
    }
    FilterKeepsAll(terms, (t: Term) => Shown(t, "", "all"));
  }

  /** The search ignores the case of the query. */
  lemma SearchIgnoresQueryCase(terms: seq<Term>, query: string, category: string)
    ensures FilteredTerms(terms, Text.Lower(query), category) == FilteredTerms(terms, query, category)
  {
    Text.LowerIdempotent(query);
    FilterSame(terms, (t: Term) => Shown(t, Text.Lower(query), category), (t: Term) => Shown(t, query, category));
  }

  // ---------------------------------------------------------------------------------------
  // Tag lists

  /** `addRelatedTerm` / `addSource` on a list and its input box: a non-blank input is
      appended trimmed and the box cleared; a blank one changes neither. */
  function AddTag(tags: seq<string>, input: string): (r: (seq<string>, string))
    ensures !Text.IsBlank(input) ==> r.0 == tags + [Text.Trim(input)] && r.1 == "" && Text.Trim(input) != ""
    ensures Text.IsBlank(input) ==> r == (tags, input)
  {
    Text.TrimProperties(input);
    if Text.Trim(input) != "" then (tags + [Text.Trim(input)], "") else (tags, input)
  }

  /** `tags.filter((_, i) => i !== index)`: the element at `index` goes, the others keep their
      order; an index outside the list removes nothing. */
  function RemoveAt(tags: seq<string>, index: int): (r: seq<string>)
    ensures 0 <= index < |tags| ==> r == tags[..index] + tags[index + 1..]
    ensures !(0 <= index < |tags|) ==> r == tags
  {
    if tags == [] then []
    else
      var rest := RemoveAt(tags[1..], index - 1);
      if index == 0 then
        assert rest == tags[1..];
        rest
      else
        var r := [tags[0]] + rest;
        assert 0 < index < |tags| ==>
          tags[..index] == [tags[0]] + tags[1..][..index - 1] && tags[index + 1..] == tags[1..][index..];
        assert tags == [tags[0]] + tags[1..];
        r
  }

  /** Adding a tag and then removing it restores the list. */
  lemma AddThenRemove(tags: seq<string>, input: string)
    requires !Text.IsBlank(input)
    ensures RemoveAt(AddTag(tags, input).0, |tags|) == tags
  {
    var added := AddTag(tags, input).0;
    assert added[..|tags|] == tags;
  }

  // ---------------------------------------------------------------------------------------
  // Opening the form and submitting it

  /** `openEditModal(term)`: the term's fields, category `'general'` when empty or absent,
      and empty tag lists when absent. */
  function EditForm(t: Term): (f: TermForm)
    ensures f.term == t.term && f.definition == t.definition
    ensures t.category.None? || t.category.value == "" ==> f.category == "general"
    ensures t.category.Some? && t.category.value != "" ==> f.category == t.category.value
    ensures f.relatedTerms == t.relatedTerms.GetOr([]) && f.sources == t.sources.GetOr([])
  {
    TermForm(t.term, t.definition,
             if t.category.Some? && t.category.value != "" then t.category.value else "general",
             t.relatedTerms.GetOr([]), t.sources.GetOr([]))
  }

  datatype Request = Request(verb: string, path: string, body: TermForm)

  /** The request of `handleSubmit`: PUT to the edited term, else POST to the collection. */
  function SubmitRequest(editing: Option<Term>, lang: string, form: TermForm): (r: Request)
    ensures r.verb == (if editing.Some? then "PUT" else "POST")
    ensures r.body == form
    ensures editing.Some? ==> r.path == "/api/cms/terminology/" + editing.value.id + "?lang=" + lang
    ensures editing.None? ==> r.path == "/api/cms/terminology?lang=" + lang
  {
    if editing.Some? then Request("PUT", "/api/cms/terminology/" + editing.value.id + "?lang=" + lang, form)
    else Request("POST", "/api/cms/terminology?lang=" + lang, form)
  }

  /** The alert after a submit answered: the approval notice when a saved change is pending,
      the server's error (or a fixed text) when it was refused. A `null` body makes
      `data.pending` or `data.error` throw, and the `catch` only logs: no alert. */
  function SubmitAlert(ok: bool, data: Json): (r: Option<Json>)
    ensures data.JNull? ==> r.None?
    ensures ok && !data.JNull? ==> (r.Some? <==> Truthy(Get(data, "pending")))
    ensures ok && r.Some? ==> r.value == JStr("Cambio enviado para aprobación")
    ensures !ok && !data.JNull? ==> r == Some(Or(Get(data, "error"), JStr("Error al guardar")))
  {
    if ok then
      match Prop(data, "pending")
      case None => None
      case Some(pending) => if Truthy(pending) then Some(JStr("Cambio enviado para aprobación")) else None
    else
      match Prop(data, "error")
      case None => None
      case Some(error) => Some(Or(error, JStr("Error al guardar")))
  }

  /** Whether `loadTerms()` runs after the submit: on success, unless reading `data.pending`
      threw first. */
  function SubmitReloads(ok: bool, data: Json): (r: bool)
    ensures r <==> ok && !data.JNull?
  {
    ok && Prop(data, "pending").Some?
  }

  /** The component state. */
  class Editor {
    const user: User
    const lang: string
    var terms: seq<Term>
    var editing: Option<Term>
    var form: TermForm
    var showModal: bool
    var newRelatedTerm: string
    var newSource: string
    var searchQuery: string
    var filterCategory: string

    constructor (user: User, lang: string)
      ensures this.user == user && this.lang == lang
      ensures terms == [] && editing.None? && form == BlankForm && !showModal
      ensures newRelatedTerm == "" && newSource == "" && searchQuery == "" && filterCategory == "all"
    {
      this.user := user;
      this.lang := lang;
      terms := [];
      editing := None;
      form := BlankForm;
      showModal := false;
      newRelatedTerm := "";
      newSource := "";
      searchQuery := "";
      filterCategory := "all";
    }

    /** The terms on screen. */
    function Visible(): seq<Term>
      reads this
    {
      FilteredTerms(terms, searchQuery, filterCategory)
    }

    method OpenCreateModal()
      modifies this
      ensures editing.None? && form == BlankForm && showModal
      ensures terms == old(terms) && newRelatedTerm == old(newRelatedTerm) && newSource == old(newSource)
      ensures searchQuery == old(searchQuery) && filterCategory == old(filterCategory)
    {
      editing := None;
      form := BlankForm;
      showModal := true;
    }

    method OpenEditModal(t: Term)
      modifies this
      ensures editing == Some(t) && form == EditForm(t) && showModal
      ensures terms == old(terms) && newRelatedTerm == old(newRelatedTerm) && newSource == old(newSource)
      ensures searchQuery == old(searchQuery) && filterCategory == old(filterCategory)
    {
      editing := Some(t);
      form := EditForm(t);
      showModal := true;
    }

    method AddRelatedTerm()
      modifies this
      ensures (form.relatedTerms, newRelatedTerm) == AddTag(old(form.relatedTerms), old(newRelatedTerm))
      ensures form == old(form).(relatedTerms := form.relatedTerms)
      ensures terms == old(terms) && editing == old(editing) && showModal == old(showModal) && newSource == old(newSource)
      ensures searchQuery == old(searchQuery) && filterCategory == old(filterCategory)
    {
      var added := AddTag(form.relatedTerms, newRelatedTerm);
      form := form.(relatedTerms := added.0);
      newRelatedTerm := added.1;
    }

    method RemoveRelatedTerm(index: int)
      modifies this
      ensures form == old(form).(relatedTerms := RemoveAt(old(form.relatedTerms), index))
      ensures terms == old(terms) && editing == old(editing) && showModal == old(showModal)
      ensures newRelatedTerm == old(newRelatedTerm) && newSource == old(newSource)
      ensures searchQuery == old(searchQuery) && filterCategory == old(filterCategory)
    {
      form := form.(relatedTerms := RemoveAt(form.relatedTerms, index));
    }

    method AddSource()
      modifies this
      ensures (form.sources, newSource) == AddTag(old(form.sources), old(newSource))
      ensures form == old(form).(sources := form.sources)
      ensures terms == old(terms) && editing == old(editing) && showModal == old(showModal) && newRelatedTerm == old(newRelatedTerm)
      ensures searchQuery == old(searchQuery) && filterCategory == old(filterCategory)
    {
      var added := AddTag(form.sources, newSource);
      form := form.(sources := added.0);
      newSource := added.1;
    }

    method RemoveSource(index: int)
      modifies this
      ensures form == old(form).(sources := RemoveAt(old(form.sources), index))
      ensures terms == old(terms) && editing == old(editing) && showModal == old(showModal)
      ensures newRelatedTerm == old(newRelatedTerm) && newSource == old(newSource)
      ensures searchQuery == old(searchQuery) && filterCategory == old(filterCategory)
    {
      form := form.(sources := RemoveAt(form.sources, index));
    }

    /** The end of `handleSubmit` once the server answered: on success the dialog closes; the
        returned text is what `alert` shows, if anything, and `reload` says whether the terms are
        fetched again. The dialog closes before `data.pending` is read, so also when that read
        throws. */
    method SubmitAnswered(ok: bool, data: Json) returns (notice: Option<Json>, reload: bool)
      modifies this
      ensures notice == SubmitAlert(ok, data) && reload == SubmitReloads(ok, data)
      ensures data.JNull? ==> notice.None? && !reload
      ensures showModal == (old(showModal) && !ok)
      ensures terms == old(terms) && editing == old(editing) && form == old(form)
      ensures newRelatedTerm == old(newRelatedTerm) && newSource == old(newSource)
      ensures searchQuery == old(searchQuery) && filterCategory == old(filterCategory)
    {
      if ok {
        showModal := false;
      }
      notice := SubmitAlert(ok, data);
      reload := SubmitReloads(ok, data);
    }

    /** `loadTerms` after a successful fetch: `data.items || []`. */
    method TermsLoaded(items: Option<seq<Term>>)
      modifies this
      ensures terms == items.GetOr([])
      ensures editing == old(editing) && form == old(form) && showModal == old(showModal)
      ensures newRelatedTerm == old(newRelatedTerm) && newSource == old(newSource)
      ensures searchQuery == old(searchQuery) && filterCategory == old(filterCategory)
    {
      terms := items.GetOr([]);
    }
  }
}
