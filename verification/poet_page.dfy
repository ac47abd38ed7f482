/** The poets page (src/pages/AddPoet.jsx): the form, the delete handler, the
    submit handler (the only one that checks `response.ok`), the search that
    guards missing fields with `?.`, and the table's display fallbacks. All
    calls go through the auth wrapper. */
module PoetPage {
  import opened JsValues
  import opened Net
  import Seqs
  import Text
  import AuthService

  /** A poet as the service sends it and as the form holds it. Name and
      biography may be `null`; the years are numbers from the service and
      input text once edited. */
  datatype Poet = Poet(poetId: int, name: Option<string>, birthYear: Value, deathYear: Value, biography: Option<string>)

  /** The `name` attributes of the form's inputs. */
  datatype PoetInput = NameInput | BirthYearInput | DeathYearInput | BiographyInput

  datatype PoetState = PoetState(
    poets: seq<Poet>,
    showModal: bool,
    isEditing: bool,
    searchTerm: string,
    form: Poet)

  const EmptyForm := Poet(0, Some(""), Str(""), Str(""), Some(""))

  const PoetsUrl := "https://sheltered-mountain-64913-f230179cbd70.herokuapp.com/poets/"
  const SaveFailedAlert := "Failed to save poet. Check console."

  /** The value an input shows for the form (`null` for a missing text). */
  function InputValue(form: Poet, input: PoetInput): Value {
    match input
    case NameInput => if form.name.Some? then Str(form.name.value) else Null
    case BirthYearInput => form.birthYear
    case DeathYearInput => form.deathYear
    case BiographyInput => if form.biography.Some? then Str(form.biography.value) else Null
  }

  /** `handleChange`: the named input takes the typed text; the identifier and
      every other input keep their values. */
  function HandleChange(form: Poet, input: PoetInput, value: string): (r: Poet)
    ensures InputValue(r, input) == Str(value)
    ensures forall other :: other != input ==> InputValue(r, other) == InputValue(form, other)
    ensures r.poetId == form.poetId
  {
    match input
    case NameInput => form.(name := Some(value))
    case BirthYearInput => form.(birthYear := Str(value))
    case DeathYearInput => form.(deathYear := Str(value))
    case BiographyInput => form.(biography := Some(value))
  }

  /** `openAddModal`: an empty form in add mode, modal shown. */
  function OpenAddModal(s: PoetState): (r: PoetState)
    ensures r.form.poetId == 0
    ensures forall input :: InputValue(r.form, input) == Str("")
    ensures !r.isEditing && r.showModal
    ensures r.poets == s.poets && r.searchTerm == s.searchTerm
  {
    s.(form := EmptyForm, isEditing := false, showModal := true)
  }

  /** `openEditModal(poet)`: the form is a copy of the poet, in edit mode. */
  function OpenEditModal(s: PoetState, poet: Poet): (r: PoetState)
    ensures forall input :: InputValue(r.form, input) == InputValue(poet, input)
    ensures r.form.poetId == poet.poetId
    ensures r.isEditing && r.showModal
    ensures r.poets == s.poets && r.searchTerm == s.searchTerm
  {
    s.(form := poet, isEditing := true, showModal := true)
  }

  /** `handleDelete(id)`: after the user confirms and the DELETE call
      resolves (whatever its status), the poets with that identifier leave the
      list; a declined dialog or a rejected call changes nothing. */
  function HandleDelete(s: PoetState, id: int, confirmed: bool, outcome: Settled): (r: PoetState)
    ensures r == s.(poets := r.poets)
    ensures !confirmed || outcome.Rejected? ==> r.poets == s.poets
    ensures confirmed && outcome.Resolved? ==>
      && (forall i :: 0 <= i < |r.poets| ==> r.poets[i].poetId != id && r.poets[i] in s.poets)
      && (forall i :: 0 <= i < |s.poets| && s.poets[i].poetId != id ==> s.poets[i] in r.poets)
      && Seqs.SubseqOf(r.poets, s.poets)
      && (forall i :: 0 <= i < |s.poets| && s.poets[i].poetId != id ==>
            multiset(r.poets)[s.poets[i]] == multiset(s.poets)[s.poets[i]])
  {
    if confirmed && outcome.Resolved? then
      s.(poets := Seqs.RemoveById(s.poets, (p: Poet) => p.poetId, id))
    else
      s
  }

  /** The request `handleSubmit` hands to `fetch` through the auth wrapper:
      PUT to update or POST to add, the form as body, a JSON content type and
      the session's bearer token when there is one. */
  function SubmitRequest(storage: AuthService.Storage, s: PoetState): (r: AuthService.Request<Poet>)
    ensures s.isEditing ==> r.url == PoetsUrl + "updatePoet" && r.options.httpMethod == Some("PUT")
    ensures !s.isEditing ==> r.url == PoetsUrl + "addPoet" && r.options.httpMethod == Some("POST")
    ensures r.options.body == Some(s.form)
    ensures r.options.headers.Some?
    ensures var h := r.options.headers.value;
      AuthService.ContentTypeHeader in h
      && h[AuthService.ContentTypeHeader] == AuthService.JsonContentType
      && (AuthService.IsAuthenticated(storage) <==> AuthService.AuthorizationHeader in h)
  {
    AuthService.AuthFetch(
      storage,
      PoetsUrl + (if s.isEditing then "updatePoet" else "addPoet"),
      AuthService.Options(Some(if s.isEditing then "PUT" else "POST"), None, Some(s.form), map[]))
  }

  /** What `handleSubmit` leaves: the page and the alert shown, if any. */
  datatype SubmitResult = SubmitResult(page: PoetState, alert: Option<string>)

  /** `handleSubmit` once settled. Only an ok response re-fetches the list
      and closes the modal; a non-ok response or a rejected call keeps list
      and modal as they were and raises the alert. The re-fetch keeps the old
      list if it throws. */
  function HandleSubmit(s: PoetState, outcome: Settled, refetch: JsonReply<seq<Poet>>): (r: SubmitResult)
    ensures outcome == Resolved(true) ==>
      && !r.page.showModal && r.alert == None
      && r.page.poets == (if refetch.Decoded? then refetch.data else s.poets)
    ensures outcome != Resolved(true) ==> r.page == s && r.alert == Some(SaveFailedAlert)
    ensures r.page.form == s.form && r.page.isEditing == s.isEditing && r.page.searchTerm == s.searchTerm
  {
    if outcome.Resolved? && outcome.ok then
      var poets := if refetch.Decoded? then refetch.data else s.poets;
      SubmitResult(s.(poets := poets, showModal := false), None)
    else
      SubmitResult(s, Some(SaveFailedAlert))
  }

  /** One search clause: `field?.toLowerCase().includes(term)`. A missing field
      fails the clause; an empty one still contains the empty term. */
  predicate FieldShown(field: Option<string>, term: string) {
    field.Some? && Text.Matches(field.value, term)
  }

  predicate Shown(poet: Poet, term: string) {
    FieldShown(poet.name, term) || FieldShown(poet.biography, term)
  }

  function ShownFor(term: string): Poet -> bool {
    (p: Poet) => Shown(p, term)
  }

  /** `filteredPoets`: the poets whose present name or present biography
      contains the term, ignoring case, in list order. */
  function FilteredPoets(poets: seq<Poet>, term: string): (r: seq<Poet>)
    ensures forall i :: 0 <= i < |r| ==> r[i] in poets
    ensures forall i :: 0 <= i < |poets| ==>
      (poets[i] in r <==> (poets[i].name.Some? && Text.Matches(poets[i].name.value, term))
                          || (poets[i].biography.Some? && Text.Matches(poets[i].biography.value, term)))
    ensures Seqs.SubseqOf(r, poets)
    ensures forall i :: 0 <= i < |poets| && poets[i] in r ==> multiset(r)[poets[i]] == multiset(poets)[poets[i]]
  {
    Seqs.FilterCount(poets, ShownFor(term));
    Seqs.Filter(poets, ShownFor(term))
  }

  /** Poets missing both name and biography never show, not even for the
      empty term; every other poet shows for the empty term, an empty but
      present name included. */
  lemma EmptyTermShowsPresentFields(poets: seq<Poet>, i: int)
    requires 0 <= i < |poets|
    ensures poets[i] in FilteredPoets(poets, "") <==> poets[i].name.Some? || poets[i].biography.Some?
  {
    if poets[i].name.Some? {
      Text.EmptyTermMatches(poets[i].name.value);
    }
    if poets[i].biography.Some? {
      Text.EmptyTermMatches(poets[i].biography.value);
    }
  }

  lemma FilterIdempotent(poets: seq<Poet>, term: string)
    ensures FilteredPoets(FilteredPoets(poets, term), term) == FilteredPoets(poets, term)
  {
    Seqs.FilterIdempotent(poets, ShownFor(term));
  }

  /** The search ignores case: "shakespeare" and "SHAKESPEARE" both find
      William Shakespeare. */
  lemma SearchIgnoresCase(poets: seq<Poet>, term: string)
    ensures FilteredPoets(poets, Text.ToUpper(term)) == FilteredPoets(poets, term)
  {
    forall i | 0 <= i < |poets| ensures Shown(poets[i], Text.ToUpper(term)) == Shown(poets[i], term) {
      if poets[i].name.Some? {
        Text.MatchesIgnoresCase(poets[i].name.value, term);
      }
      if poets[i].biography.Some? {
        Text.MatchesIgnoresCase(poets[i].biography.value, term);
      }
    }
    Seqs.FilterCongruent(poets, ShownFor(Text.ToUpper(term)), ShownFor(term));
  }

  lemma ShakespeareFoundInAnyCase(poet: Poet)
    requires poet.name == Some("William Shakespeare")
    ensures Shown(poet, "shakespeare") && Shown(poet, "SHAKESPEARE")
  {
    var full := "William Shakespeare";
    assert Text.MatchesAt(full, "shakespeare", 8);
    assert Text.MatchesAt(full, "SHAKESPEARE", 8);
  }

  // ---------------------------------------------------------------------
  // Display fallbacks of the table row

  /** The avatar: `name?.charAt(0)?.toUpperCase() || '?'`. */
  function AvatarLetter(name: Option<string>): (r: string)
    ensures name.Some? && name.value != "" ==> r == [Text.UpperChar(name.value[0])]
    ensures name.None? || name.value == "" ==> r == "?"
    ensures |r| == 1
  {
    if name.Some? && name.value != "" then Text.ToUpper(name.value[..1]) else "?"
  }

  /** A year cell: `year || '—'`. */
  function YearText(year: Value): (r: string)
    ensures Truthy(year) ==> r == PropertyKey(year)
    ensures !Truthy(year) ==> r == "—"
  {
    if Truthy(year) then PropertyKey(year) else "—"
  }

  /** The name cell: `name || 'Unknown'`. */
  function NameText(name: Option<string>): (r: string)
    ensures TruthyText(name) ==> r == name.value
    ensures !TruthyText(name) ==> r == "Unknown"
    ensures r != ""
  {
    TextOr(name, "Unknown")
  }

  /** The biography cell: `biography || 'No biography available'`. */
  function BiographyText(biography: Option<string>): (r: string)
    ensures TruthyText(biography) ==> r == biography.value
    ensures !TruthyText(biography) ==> r == "No biography available"
    ensures r != ""
  {
    TextOr(biography, "No biography available")
  }

  /** A missing year shows the dash and a given year its digits: the year 0
      is falsy and shows the dash too. */
  lemma YearTextOfNumber(y: int)
    ensures YearText(Num(y)) == (if y == 0 then "—" else ToDecimal(y))
    ensures YearText(Null) == "—" && YearText(Str("")) == "—"
  {
  }
}
