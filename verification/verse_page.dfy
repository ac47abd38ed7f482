/** The verses page (src/pages/AddVerse.jsx): verses are fetched per poem and
    kept in an object keyed by poem identifier; the page groups poems under
    their books with each poem's verses sorted by number, and the form checks
    verse numbers against the selected poem's verses. All calls go through
    the auth wrapper. */
module VersePage {
  import opened JsValues
  import opened Net
  import Seqs
  import Text
  import Dropdown
  import AuthService
  import BookPage
  import PoemPage

  /** A verse as the service sends it. */
  datatype Verse = Verse(verseId: int, poemId: int, verseNumber: int, verseText: string)

  /** The form: the poem reference is `''` until a poem is chosen, and the
      verse number is whatever the number input holds. */
  datatype VerseForm = VerseForm(verseId: int, poemId: Value, verseNumber: Value, verseText: string)

  const EmptyForm := VerseForm(0, Str(""), Str(""), "")

  /** Verses by poem: an object, so its keys are property-key strings. */
  type Cache = map<string, seq<Verse>>

  /** An object of boolean flags; a missing key reads as `undefined`, falsy. */
  type Flags = map<string, bool>

  predicate Flag(flags: Flags, key: string) {
    key in flags && flags[key]
  }

  datatype VerseState = VerseState(
    books: seq<BookPage.Book>,
    poems: seq<PoemPage.Poem>,
    poemVerses: Cache,
    loadingPoems: Flags,
    expandedBooks: Flags,
    expandedPoems: Flags,
    currentPoemVerses: seq<Verse>,
    showModal: bool,
    isEditing: bool,
    poemSearch: string,
    showPoemDropdown: bool,
    form: VerseForm)

  const VersesUrl := "https://sheltered-mountain-64913-f230179cbd70.herokuapp.com/verses/"

  // ---------------------------------------------------------------------
  // The per-poem cache

  /** The synchronous part of `fetchVersesByPoemId`. An entry for the poem,
      even an empty list (arrays are truthy), answers at once and changes
      nothing; otherwise the poem is marked loading and a fetch starts. */
  function BeginFetch(s: VerseState, poemId: Value): (r: (VerseState, Option<seq<Verse>>))
    ensures var key := PropertyKey(poemId);
      key in s.poemVerses ==> r.0 == s && r.1 == Some(s.poemVerses[key])
    ensures var key := PropertyKey(poemId);
      key !in s.poemVerses ==>
        && r.1 == None
        && Flag(r.0.loadingPoems, key)
        && (forall k :: k != key ==> (k in r.0.loadingPoems <==> k in s.loadingPoems)
                                     && (k in s.loadingPoems ==> r.0.loadingPoems[k] == s.loadingPoems[k]))
        && r.0 == s.(loadingPoems := r.0.loadingPoems)
  {
    var key := PropertyKey(poemId);
    if key in s.poemVerses then (s, Some(s.poemVerses[key]))
    else (s.(loadingPoems := s.loadingPoems[key := true]), None)
  }

  /** The awaited part of `fetchVersesByPoemId`: decoded JSON becomes the
      poem's entry, whatever the response status; a failure leaves the cache
      alone and yields the empty list. Loading ends either way. */
  function EndFetch(s: VerseState, poemId: Value, reply: JsonReply<seq<Verse>>): (r: (VerseState, seq<Verse>))
    ensures var key := PropertyKey(poemId);
      key in r.0.loadingPoems && !r.0.loadingPoems[key]
    ensures reply.Decoded? ==> r.0.poemVerses == s.poemVerses[PropertyKey(poemId) := reply.data] && r.1 == reply.data
    ensures reply.Unreadable? ==> r.0.poemVerses == s.poemVerses && r.1 == []
    ensures var key := PropertyKey(poemId);
      forall k :: k != key ==> (k in r.0.loadingPoems <==> k in s.loadingPoems)
                               && (k in s.loadingPoems ==> r.0.loadingPoems[k] == s.loadingPoems[k])
    ensures r.0 == s.(poemVerses := r.0.poemVerses, loadingPoems := r.0.loadingPoems)
  {
    var key := PropertyKey(poemId);
    match reply
    case Decoded(data) =>
      (s.(poemVerses := s.poemVerses[key := data], loadingPoems := s.loadingPoems[key := false]), data)
    case Unreadable(_) =>
      (s.(loadingPoems := s.loadingPoems[key := false]), [])
  }

  /** The outcome of `fetchVersesByPoemId`: the state once everything has
      settled, the verses the promise resolves to, and whether a request was
      sent. */
  datatype Fetch = Fetch(state: VerseState, verses: seq<Verse>, fetched: bool)

  function FetchVersesByPoemId(s: VerseState, poemId: Value, reply: JsonReply<seq<Verse>>): (r: Fetch)
    ensures var key := PropertyKey(poemId);
      key in s.poemVerses ==> r == Fetch(s, s.poemVerses[key], false)
    ensures var key := PropertyKey(poemId);
      key !in s.poemVerses ==>
        && r.fetched
        && key in r.state.loadingPoems && !r.state.loadingPoems[key]
        && (reply.Decoded? ==> r.state.poemVerses == s.poemVerses[key := reply.data] && r.verses == reply.data)
        && (reply.Unreadable? ==> r.state.poemVerses == s.poemVerses && r.verses == [])
        && r.state == s.(poemVerses := r.state.poemVerses, loadingPoems := r.state.loadingPoems)
  {
    var (started, hit) := BeginFetch(s, poemId);
    if hit.Some? then Fetch(s, hit.value, false)
    else
      var (settled, verses) := EndFetch(started, poemId, reply);
      Fetch(settled, verses, true)
  }

  /** A successful fetch is remembered: asking again for the same poem sends
      no request and answers with the fetched verses. */
  lemma FetchIsMemoised(s: VerseState, poemId: Value, data: seq<Verse>, again: JsonReply<seq<Verse>>)
    ensures var first := FetchVersesByPoemId(s, poemId, Decoded(data));
      var second := FetchVersesByPoemId(first.state, poemId, again);
      !second.fetched && second.verses == first.verses && second.state == first.state
  {
  }

  // ---------------------------------------------------------------------
  // Handlers

  /** `handleDelete(id, poemId)`: once the user confirms and the DELETE call
      resolves (whatever its status), the verses with that identifier leave
      that poem's entry and every other entry stays. `None` is the TypeError
      the updater throws when the poem has no entry. */
  function HandleDelete(s: VerseState, id: int, poemId: int, confirmed: bool, outcome: Settled): (r: Option<VerseState>)
    ensures !confirmed || outcome.Rejected? ==> r == Some(s)
    ensures var key := PropertyKey(Num(poemId));
      confirmed && outcome.Resolved? && key !in s.poemVerses ==> r.None?
    ensures var key := PropertyKey(Num(poemId));
      confirmed && outcome.Resolved? && key in s.poemVerses ==>
        && r.Some?
        && r.value == s.(poemVerses := r.value.poemVerses)
        && r.value.poemVerses.Keys == s.poemVerses.Keys
        && (forall k :: k in s.poemVerses && k != key ==> r.value.poemVerses[k] == s.poemVerses[k])
        && (forall i :: 0 <= i < |r.value.poemVerses[key]| ==>
              r.value.poemVerses[key][i].verseId != id && r.value.poemVerses[key][i] in s.poemVerses[key])
        && (forall i :: 0 <= i < |s.poemVerses[key]| && s.poemVerses[key][i].verseId != id ==>
              s.poemVerses[key][i] in r.value.poemVerses[key])
        && Seqs.SubseqOf(r.value.poemVerses[key], s.poemVerses[key])
        && (forall i :: 0 <= i < |s.poemVerses[key]| && s.poemVerses[key][i].verseId != id ==>
              multiset(r.value.poemVerses[key])[s.poemVerses[key][i]] == multiset(s.poemVerses[key])[s.poemVerses[key][i]])
  {
    var key := PropertyKey(Num(poemId));
    if !confirmed || outcome.Rejected? then Some(s)
    else if key !in s.poemVerses then None
    else
      var kept := Seqs.RemoveById(s.poemVerses[key], (v: Verse) => v.verseId, id);
      Some(s.(poemVerses := s.poemVerses[key := kept]))
  }

  /** Deleting an identifier none of the poem's verses has leaves the cache
      as it was. */
  lemma DeleteAbsentIsNoOp(s: VerseState, id: int, poemId: int, outcome: Settled)
    requires PropertyKey(Num(poemId)) in s.poemVerses
    requires forall i :: 0 <= i < |s.poemVerses[PropertyKey(Num(poemId))]| ==>
      s.poemVerses[PropertyKey(Num(poemId))][i].verseId != id
    ensures HandleDelete(s, id, poemId, true, outcome) == Some(s)
  {
    var key := PropertyKey(Num(poemId));
    assert s.poemVerses[key := s.poemVerses[key]] == s.poemVerses;
  }

  /** The request `handleSubmit` sends through the auth wrapper. */
  function SubmitRequest(storage: AuthService.Storage, s: VerseState): (r: AuthService.Request<VerseForm>)
    ensures s.isEditing ==> r.url == VersesUrl + "updateVerse" && r.options.httpMethod == Some("PUT")
    ensures !s.isEditing ==> r.url == VersesUrl + "addVerse" && r.options.httpMethod == Some("POST")
    ensures r.options.body == Some(s.form)
    ensures r.options.headers.Some?
    ensures var h := r.options.headers.value;
      AuthService.ContentTypeHeader in h
      && h[AuthService.ContentTypeHeader] == AuthService.JsonContentType
      && (AuthService.IsAuthenticated(storage) <==> AuthService.AuthorizationHeader in h)
  {
    AuthService.AuthFetch(
      storage,
      VersesUrl + (if s.isEditing then "updateVerse" else "addVerse"),
      AuthService.Options(Some(if s.isEditing then "PUT" else "POST"), None, Some(s.form), map[]))
  }

  /** `handleSubmit` once settled, as written: any response drops the cached
      entry of the form's poem and closes the modal, and when that poem is
      expanded its verses are asked for again. The ask goes through the
      handler captured at render time, which still sees the entry just
      dropped: a poem that was cached sends no request and is left with no
      entry. A rejected call changes nothing. */
  function HandleSubmitAsWritten(s: VerseState, outcome: Settled, reply: JsonReply<seq<Verse>>): (r: Fetch)
    ensures outcome.Rejected? ==> r.state == s && !r.fetched
    ensures var key := PropertyKey(s.form.poemId);
      outcome.Resolved? ==>
        && !r.state.showModal
        && (r.fetched <==> Flag(s.expandedPoems, key) && key !in s.poemVerses)
        && (!r.fetched ==> key !in r.state.poemVerses)
        && (forall k :: k != key ==> (k in r.state.poemVerses <==> k in s.poemVerses)
                                     && (k in r.state.poemVerses ==> r.state.poemVerses[k] == s.poemVerses[k]))
    ensures outcome.Resolved? ==>
      r.state == s.(poemVerses := r.state.poemVerses, loadingPoems := r.state.loadingPoems, showModal := false)
  {
    match outcome
    case Rejected(_) => Fetch(s, [], false)
    case Resolved(_) =>
      var key := PropertyKey(s.form.poemId);
      var cleared := s.(poemVerses := s.poemVerses - {key}, showModal := false);
      if !Flag(s.expandedPoems, key) then Fetch(cleared, [], false)
      else if key in s.poemVerses then Fetch(cleared, s.poemVerses[key], false)
      else FetchVersesByPoemId(cleared, s.form.poemId, reply)
  }

  /** `handleSubmit` once settled, with the refetch reading the cache after
      the entry is dropped: an expanded poem always gets its verses again,
      and a collapsed one is left without an entry until it is expanded. */
  function HandleSubmit(s: VerseState, outcome: Settled, reply: JsonReply<seq<Verse>>): (r: Fetch)
    ensures outcome.Rejected? ==> r.state == s && !r.fetched
    ensures var key := PropertyKey(s.form.poemId);
      outcome.Resolved? ==>
        && !r.state.showModal
        && (r.fetched <==> Flag(s.expandedPoems, key))
        && (!r.fetched ==> key !in r.state.poemVerses)
        && (r.fetched && reply.Decoded? ==> key in r.state.poemVerses && r.state.poemVerses[key] == reply.data)
        && (forall k :: k != key ==> (k in r.state.poemVerses <==> k in s.poemVerses)
                                     && (k in r.state.poemVerses ==> r.state.poemVerses[k] == s.poemVerses[k]))
    ensures outcome.Resolved? ==>
      r.state == s.(poemVerses := r.state.poemVerses, loadingPoems := r.state.loadingPoems, showModal := false)
  {
    match outcome
    case Rejected(_) => Fetch(s, [], false)
    case Resolved(_) =>
      var key := PropertyKey(s.form.poemId);
      var cleared := s.(poemVerses := s.poemVerses - {key}, showModal := false);
      if Flag(cleared.expandedPoems, key) then FetchVersesByPoemId(cleared, s.form.poemId, reply)
      else Fetch(cleared, [], false)
  }

  /** Saving a verse of a poem that is expanded and cached: as written no
      request is sent and the poem is left with no entry, so it lists no
      verses at all; reading the cache after the drop fetches them again. */
  lemma SaveLeavesOpenPoemEmpty(s: VerseState, ok: bool, reply: JsonReply<seq<Verse>>)
    requires Flag(s.expandedPoems, PropertyKey(s.form.poemId))
    requires PropertyKey(s.form.poemId) in s.poemVerses
    ensures var r := HandleSubmitAsWritten(s, Resolved(ok), reply);
      !r.fetched && PropertyKey(s.form.poemId) !in r.state.poemVerses
    ensures var r := HandleSubmit(s, Resolved(ok), reply);
      r.fetched && (reply.Decoded? ==> r.state.poemVerses[PropertyKey(s.form.poemId)] == reply.data)
  {
  }

  /** The two agree whenever the saved poem was not cached or is collapsed. */
  lemma SubmitAgreesWhenNotCached(s: VerseState, outcome: Settled, reply: JsonReply<seq<Verse>>)
    requires PropertyKey(s.form.poemId) !in s.poemVerses || !Flag(s.expandedPoems, PropertyKey(s.form.poemId))
    ensures HandleSubmitAsWritten(s, outcome, reply) == HandleSubmit(s, outcome, reply)
  {
  }

  /** `togglePoem(poemId)`: the poem's expanded flag flips; only expanding
      asks for the verses, and that sends a request only on a cache miss. */
  function TogglePoem(s: VerseState, poemId: int, reply: JsonReply<seq<Verse>>): (r: Fetch)
    ensures var key := PropertyKey(Num(poemId));
      Flag(r.state.expandedPoems, key) == !Flag(s.expandedPoems, key)
    ensures var key := PropertyKey(Num(poemId));
      Flag(s.expandedPoems, key) ==> !r.fetched && r.state == s.(expandedPoems := r.state.expandedPoems)
    ensures var key := PropertyKey(Num(poemId));
      !Flag(s.expandedPoems, key) ==> (r.fetched <==> key !in s.poemVerses)
    ensures var key := PropertyKey(Num(poemId));
      forall k :: k != key ==> (k in r.state.expandedPoems <==> k in s.expandedPoems)
                               && (k in s.expandedPoems ==> r.state.expandedPoems[k] == s.expandedPoems[k])
    ensures r.state == s.(expandedPoems := r.state.expandedPoems, poemVerses := r.state.poemVerses,
                          loadingPoems := r.state.loadingPoems)
    ensures var key := PropertyKey(Num(poemId));
      !Flag(s.expandedPoems, key) && key in s.poemVerses ==>
        r.state.poemVerses == s.poemVerses && r.state.loadingPoems == s.loadingPoems
    ensures var key := PropertyKey(Num(poemId));
      !Flag(s.expandedPoems, key) && key !in s.poemVerses ==>
        && r.state.poemVerses == (if reply.Decoded? then s.poemVerses[key := reply.data] else s.poemVerses)
        && key in r.state.loadingPoems && !r.state.loadingPoems[key]
  {
    var key := PropertyKey(Num(poemId));
    var wasExpanded := Flag(s.expandedPoems, key);
    var flipped := s.(expandedPoems := s.expandedPoems[key := !wasExpanded]);
    assert forall k :: k != key ==> (k in flipped.expandedPoems <==> k in s.expandedPoems)
                                    && (k in s.expandedPoems ==> flipped.expandedPoems[k] == s.expandedPoems[k]);
    if wasExpanded then Fetch(flipped, [], false)
    else
      var f := FetchVersesByPoemId(flipped, Num(poemId), reply);
      assert f.state.expandedPoems == flipped.expandedPoems;
      f
  }

  /** `toggleBook(bookId)`: the book's expanded flag flips, nothing else. */
  function ToggleBook(s: VerseState, bookId: int): (r: VerseState)
    ensures Flag(r.expandedBooks, PropertyKey(Num(bookId))) == !Flag(s.expandedBooks, PropertyKey(Num(bookId)))
    ensures r == s.(expandedBooks := r.expandedBooks)
  {
    var key := PropertyKey(Num(bookId));
    s.(expandedBooks := s.expandedBooks[key := !Flag(s.expandedBooks, key)])
  }

  /** After a saved edit of a verse of a collapsed poem, expanding the poem
      fetches its verses again, even if they were cached before. */
  lemma SubmitForcesRefetch(s: VerseState, poemId: int, ok: bool, saved: JsonReply<seq<Verse>>, reply: JsonReply<seq<Verse>>)
    requires s.form.poemId == Num(poemId)
    requires !Flag(s.expandedPoems, PropertyKey(Num(poemId)))
    ensures TogglePoem(HandleSubmit(s, Resolved(ok), saved).state, poemId, reply).fetched
  {
  }

  /** `selectPoem(poem)`: the form refers to the poem with a cleared verse
      number, the search shows the title, the dropdown closes, and the poem's
      verses (cached or fetched) become the ones the number is checked
      against. */
  function SelectPoem(s: VerseState, poem: PoemPage.Poem, reply: JsonReply<seq<Verse>>): (r: Fetch)
    ensures r.state.form == s.form.(poemId := Num(poem.poemId), verseNumber := Str(""))
    ensures r.state.poemSearch == poem.title && !r.state.showPoemDropdown
    ensures var key := PropertyKey(Num(poem.poemId));
      key in s.poemVerses ==>
        && !r.fetched && r.state.currentPoemVerses == s.poemVerses[key]
        && r.state.poemVerses == s.poemVerses && r.state.loadingPoems == s.loadingPoems
    ensures var key := PropertyKey(Num(poem.poemId));
      key !in s.poemVerses ==>
        && r.fetched && r.state.currentPoemVerses == (if reply.Decoded? then reply.data else [])
        && r.state.poemVerses == (if reply.Decoded? then s.poemVerses[key := reply.data] else s.poemVerses)
        && key in r.state.loadingPoems && !r.state.loadingPoems[key]
    ensures r.state == s.(form := r.state.form, poemSearch := r.state.poemSearch, showPoemDropdown := false,
                          poemVerses := r.state.poemVerses, loadingPoems := r.state.loadingPoems,
                          currentPoemVerses := r.state.currentPoemVerses)
  {
    var picked := s.(form := s.form.(poemId := Num(poem.poemId), verseNumber := Str("")),
                     poemSearch := poem.title, showPoemDropdown := false);
    var f := FetchVersesByPoemId(picked, Num(poem.poemId), reply);
    Fetch(f.state.(currentPoemVerses := f.verses), f.verses, f.fetched)
  }

  /** `openAddModal`: an empty form, no poem chosen, add mode. */
  function OpenAddModal(s: VerseState): (r: VerseState)
    ensures r.form == VerseForm(0, Str(""), Str(""), "") && r.poemSearch == "" && r.currentPoemVerses == []
    ensures !r.isEditing && r.showModal
    ensures r == s.(form := r.form, poemSearch := r.poemSearch, currentPoemVerses := r.currentPoemVerses,
                    isEditing := r.isEditing, showModal := r.showModal)
  {
    s.(form := EmptyForm, poemSearch := "", currentPoemVerses := [], isEditing := false, showModal := true)
  }

  function AsForm(v: Verse): VerseForm {
    VerseForm(v.verseId, Num(v.poemId), Num(v.verseNumber), v.verseText)
  }

  /** `openEditModal(verse)`: the form is the verse, the search shows the
      title of its poem (or nothing), and the poem's verses become the ones
      the number is checked against. */
  function OpenEditModal(s: VerseState, verse: Verse, reply: JsonReply<seq<Verse>>): (r: Fetch)
    ensures r.state.form == AsForm(verse) && r.state.isEditing && r.state.showModal
    ensures (forall i :: 0 <= i < |s.poems| ==> s.poems[i].poemId != verse.poemId) ==> r.state.poemSearch == ""
    ensures (exists i :: 0 <= i < |s.poems| && s.poems[i].poemId == verse.poemId) ==>
      exists i :: 0 <= i < |s.poems| && s.poems[i].poemId == verse.poemId && r.state.poemSearch == s.poems[i].title
        && forall j :: 0 <= j < i ==> s.poems[j].poemId != verse.poemId
    ensures var key := PropertyKey(Num(verse.poemId));
      key in s.poemVerses ==>
        && !r.fetched && r.state.currentPoemVerses == s.poemVerses[key]
        && r.state.poemVerses == s.poemVerses && r.state.loadingPoems == s.loadingPoems
    ensures var key := PropertyKey(Num(verse.poemId));
      key !in s.poemVerses ==>
        && r.fetched && r.state.currentPoemVerses == (if reply.Decoded? then reply.data else [])
        && r.state.poemVerses == (if reply.Decoded? then s.poemVerses[key := reply.data] else s.poemVerses)
        && key in r.state.loadingPoems && !r.state.loadingPoems[key]
    ensures r.state == s.(form := r.state.form, poemSearch := r.state.poemSearch, isEditing := true, showModal := true,
                          poemVerses := r.state.poemVerses, loadingPoems := r.state.loadingPoems,
                          currentPoemVerses := r.state.currentPoemVerses)
  {
    var selected := Seqs.Find(s.poems, (p: PoemPage.Poem) => p.poemId == verse.poemId);
    var editing := s.(form := AsForm(verse), poemSearch := if selected.Some? then selected.value.title else "",
                     isEditing := true, showModal := true);
    var f := FetchVersesByPoemId(editing, Num(verse.poemId), reply);
    Fetch(f.state.(currentPoemVerses := f.verses), f.verses, f.fetched)
  }

  // ---------------------------------------------------------------------
  // Form validation

  function PoemTitle(p: PoemPage.Poem): string {
    p.title
  }

  /** Typing in the poem search box: text that matches some poem title, or
      the empty text, is taken and unselects the poem; other text is refused.
      The dropdown opens either way. */
  function PoemSearchInput(s: VerseState, text: string): (r: VerseState)
    ensures r.showPoemDropdown
    ensures if text == "" || exists i :: 0 <= i < |s.poems| && Text.Matches(s.poems[i].title, text)
      then r.poemSearch == text && r.form == s.form.(poemId := Str(""))
      else r.poemSearch == s.poemSearch && r.form == s.form
    ensures r == s.(poemSearch := r.poemSearch, form := r.form, showPoemDropdown := true)
  {
    if Dropdown.Accepts(s.poems, PoemTitle, text) then
      s.(poemSearch := text, form := s.form.(poemId := Str("")), showPoemDropdown := true)
    else
      s.(showPoemDropdown := true)
  }

  /** `filteredPoems`: the dropdown lists the poems whose title contains
      the search text, ignoring case, in list order. */
  function DropdownPoems(s: VerseState): (r: seq<PoemPage.Poem>)
    ensures forall i :: 0 <= i < |r| ==> r[i] in s.poems && Text.Matches(r[i].title, s.poemSearch)
    ensures forall i :: 0 <= i < |s.poems| && Text.Matches(s.poems[i].title, s.poemSearch) ==> s.poems[i] in r
    ensures Seqs.SubseqOf(r, s.poems)
    ensures forall i :: 0 <= i < |s.poems| && s.poems[i] in r ==> multiset(r)[s.poems[i]] == multiset(s.poems)[s.poems[i]]
  {
    Dropdown.Matching(s.poems, PoemTitle, s.poemSearch)
  }

  /** Once a listed poem is picked, the dropdown still offers it. */
  lemma SelectedPoemStaysListed(s: VerseState, i: int, reply: JsonReply<seq<Verse>>)
    requires 0 <= i < |s.poems|
    ensures s.poems[i] in DropdownPoems(SelectPoem(s, s.poems[i], reply).state)
  {
    var t := s.poems[i].title;
    Text.MatchesInfix(t, 0, |t|);
    assert t[0..|t|] == t;
  }

  /** `handleChange` of the verse text: only the text changes. */
  function VerseTextInput(s: VerseState, text: string): (r: VerseState)
    ensures r.form.verseText == text
    ensures r.form.verseId == s.form.verseId && r.form.poemId == s.form.poemId && r.form.verseNumber == s.form.verseNumber
    ensures r == s.(form := r.form)
  {
    s.(form := s.form.(verseText := text))
  }

  /** The duplicate test of the verse-number input: some verse of the chosen
      poem other than the one being edited already has the parsed number.
      NaN equals nothing. */
  function IsDuplicate(current: seq<Verse>, formVerseId: int, text: string): (r: bool)
    ensures r <==> exists v :: v in current && ParseInt(text) == Some(v.verseNumber) && v.verseId != formVerseId
  {
    var verseNum := ParseInt(text);
    Seqs.Any(current, (v: Verse) => verseNum == Some(v.verseNumber) && v.verseId != formVerseId)
  }

  /** The verse-number input's change handler: the form takes the text and the
      input's custom validity message reports a duplicate. */
  function VerseNumberInput(s: VerseState, text: string): (r: (VerseState, string))
    ensures r.0 == s.(form := s.form.(verseNumber := Str(text)))
    ensures IsDuplicate(s.currentPoemVerses, s.form.verseId, text) ==>
      r.1 == "Verse number " + ToDecimal(ParseInt(text).value) + " already exists for this poem"
    ensures !IsDuplicate(s.currentPoemVerses, s.form.verseId, text) ==> r.1 == ""
  {
    var changed := s.(form := s.form.(verseNumber := Str(text)));
    if IsDuplicate(s.currentPoemVerses, s.form.verseId, text) then
      (changed, "Verse number " + ToDecimal(ParseInt(text).value) + " already exists for this poem")
    else
      (changed, "")
  }

  /** A typed number is a duplicate exactly when another verse of the poem
      carries it. */
  lemma DuplicateOfTypedNumber(current: seq<Verse>, formVerseId: int, n: int)
    ensures IsDuplicate(current, formVerseId, ToDecimal(n)) <==>
      exists v :: v in current && v.verseNumber == n && v.verseId != formVerseId
  {
    ParseIntToDecimal(n);
  }

  /** The verse being edited never conflicts with itself, and a number input
      holding no digits is never flagged. */
  lemma EditedVerseNeverConflicts(verse: Verse, text: string)
    ensures !IsDuplicate([verse], verse.verseId, text)
    ensures forall current, id :: !IsDuplicate(current, id, "")
  {
  }

  /** The number input may hold a fraction or an exponent, and `parseInt`
      reads only the integer in front of it: "2.5" and "2e3" are flagged
      when the poem already has a verse 2. */
  lemma FractionReadsAsItsIntegerPart(current: seq<Verse>, formVerseId: int, n: int, rest: string)
    requires rest == [] || !IsDigit(rest[0])
    ensures IsDuplicate(current, formVerseId, ToDecimal(n) + rest) <==>
      exists v :: v in current && v.verseNumber == n && v.verseId != formVerseId
  {
    ParseIntStopsAtNonDigit(n, rest);
  }

  /** With verses numbered 1 and 2 in the poem, a new verse numbered 2 is
      flagged and one numbered 3 is not. */
  lemma DuplicateExample(poemId: int)
    ensures var current := [Verse(10, poemId, 1, "a"), Verse(11, poemId, 2, "b")];
      IsDuplicate(current, 0, ToDecimal(2)) && !IsDuplicate(current, 0, ToDecimal(3))
  {
    var current := [Verse(10, poemId, 1, "a"), Verse(11, poemId, 2, "b")];
    DuplicateOfTypedNumber(current, 0, 2);
    DuplicateOfTypedNumber(current, 0, 3);
    assert current[1] in current;
  }

  // ---------------------------------------------------------------------
  // Stable sort by verse number

  predicate SortedByNumber(vs: seq<Verse>) {
    forall i, j :: 0 <= i < j < |vs| ==> vs[i].verseNumber <= vs[j].verseNumber
  }

  function HasNumber(k: int): Verse -> bool {
    (v: Verse) => v.verseNumber == k
  }

  /** Every verse number in `vs` is at least `lo`. */
  predicate AllAtLeast(vs: seq<Verse>, lo: int) {
    forall i :: 0 <= i < |vs| ==> lo <= vs[i].verseNumber
  }

  /** Places `v` before the first verse whose number is not smaller. */
  function Insert(v: Verse, vs: seq<Verse>): (r: seq<Verse>)
    requires SortedByNumber(vs)
    ensures SortedByNumber(r)
    ensures multiset(r) == multiset(vs) + multiset{v}
    ensures |r| == |vs| + 1
    ensures forall lo :: lo <= v.verseNumber && AllAtLeast(vs, lo) ==> AllAtLeast(r, lo)
    decreases |vs|
  {
    if vs == [] then [v]
    else if v.verseNumber <= vs[0].verseNumber then [v] + vs
    else
      var rest := Insert(v, vs[1..]);
      InsertBehind(v, vs, rest);
      [vs[0]] + rest
  }

  /** Putting the head of `vs` back in front of `v` inserted into the tail. */
  lemma InsertBehind(v: Verse, vs: seq<Verse>, rest: seq<Verse>)
    requires vs != [] && SortedByNumber(vs) && vs[0].verseNumber < v.verseNumber
    requires SortedByNumber(rest) && multiset(rest) == multiset(vs[1..]) + multiset{v}
    requires forall lo :: lo <= v.verseNumber && AllAtLeast(vs[1..], lo) ==> AllAtLeast(rest, lo)
    ensures SortedByNumber([vs[0]] + rest)
    ensures multiset([vs[0]] + rest) == multiset(vs) + multiset{v}
    ensures forall lo :: lo <= v.verseNumber && AllAtLeast(vs, lo) ==> AllAtLeast([vs[0]] + rest, lo)
  {
    var r := [vs[0]] + rest;
    assert vs == [vs[0]] + vs[1..];
    assert AllAtLeast(vs[1..], vs[0].verseNumber);
    assert AllAtLeast(rest, vs[0].verseNumber);
    forall i, j | 0 <= i < j < |r|
      ensures r[i].verseNumber <= r[j].verseNumber
    {
      if i > 0 {
        assert r[i] == rest[i - 1] && r[j] == rest[j - 1];
      } else {
        assert r[j] == rest[j - 1];
      }
    }
    forall lo | lo <= v.verseNumber && AllAtLeast(vs, lo)
      ensures AllAtLeast(r, lo)
    {
      assert AllAtLeast(vs[1..], lo);
      assert AllAtLeast(rest, lo);
      forall i | 0 <= i < |r|
        ensures lo <= r[i].verseNumber
      {
        if i > 0 {
          assert r[i] == rest[i - 1];
        }
      }
    }
  }

  /** `verses.sort((a, b) => a.verseNumber - b.verseNumber)`: ascending by
      number, a permutation of its input. */
  function SortByNumber(vs: seq<Verse>): (r: seq<Verse>)
    ensures SortedByNumber(r)
    ensures multiset(r) == multiset(vs)
    ensures |r| == |vs|
    decreases |vs|
  {
    if vs == [] then []
    else
      assert vs == [vs[0]] + vs[1..];
      Insert(vs[0], SortByNumber(vs[1..]))
  }

  lemma {:induction false} InsertStable(v: Verse, vs: seq<Verse>, k: int)
    requires SortedByNumber(vs)
    ensures Seqs.Filter(Insert(v, vs), HasNumber(k)) ==
      (if v.verseNumber == k then [v] + Seqs.Filter(vs, HasNumber(k)) else Seqs.Filter(vs, HasNumber(k)))
    decreases |vs|
  {
    var p := HasNumber(k);
    if vs == [] {
      assert Insert(v, vs) == [v];
      assert [v][1..] == [];
    } else if v.verseNumber <= vs[0].verseNumber {
      assert Insert(v, vs) == [v] + vs;
      assert ([v] + vs)[1..] == vs;
    } else {
      InsertStable(v, vs[1..], k);
      var rest := Insert(v, vs[1..]);
      assert Insert(v, vs) == [vs[0]] + rest;
      assert ([vs[0]] + rest)[1..] == rest;
      assert Seqs.Filter(vs, p) == (if p(vs[0]) then [vs[0]] else []) + Seqs.Filter(vs[1..], p);
    }
  }

  /** The sort is stable: verses with equal numbers keep their order. */
  lemma {:induction false} SortStable(vs: seq<Verse>, k: int)
    ensures Seqs.Filter(SortByNumber(vs), HasNumber(k)) == Seqs.Filter(vs, HasNumber(k))
    decreases |vs|
  {
    if vs != [] {
      SortStable(vs[1..], k);
      InsertStable(vs[0], SortByNumber(vs[1..]), k);
    }
  }

  // ---------------------------------------------------------------------
  // groupedData

  datatype PoemEntry = PoemEntry(poem: PoemPage.Poem, verses: seq<Verse>, isLoading: bool)
  datatype Group = Group(book: BookPage.Book, poems: seq<PoemEntry>)

  /** `poemVerses[poemId] || []` */
  function CachedOrEmpty(cache: Cache, poemId: int): seq<Verse> {
    var key := PropertyKey(Num(poemId));
    if key in cache then cache[key] else []
  }

  function InBook(book: BookPage.Book): PoemPage.Poem -> bool {
    (p: PoemPage.Poem) => p.bookId == Num(book.BookId)
  }

  function EntryFor(cache: Cache, loading: Flags): PoemPage.Poem -> PoemEntry {
    (p: PoemPage.Poem) =>
      PoemEntry(p, SortByNumber(CachedOrEmpty(cache, p.poemId)), Flag(loading, PropertyKey(Num(p.poemId))))
  }

  function GroupFor(poems: seq<PoemPage.Poem>, cache: Cache, loading: Flags): BookPage.Book -> Group {
    (b: BookPage.Book) => Group(b, Seqs.Map(Seqs.Filter(poems, InBook(b)), EntryFor(cache, loading)))
  }

  function NonEmpty(g: Group): bool {
    |g.poems| > 0
  }

  function BookOf(g: Group): BookPage.Book {
    g.book
  }

  function EntryPoem(e: PoemEntry): PoemPage.Poem {
    e.poem
  }

  predicate HasPoems(poems: seq<PoemPage.Poem>, book: BookPage.Book) {
    exists i :: 0 <= i < |poems| && poems[i].bookId == Num(book.BookId)
  }

  function HasPoemsFor(poems: seq<PoemPage.Poem>): BookPage.Book -> bool {
    (b: BookPage.Book) => HasPoems(poems, b)
  }

  /** `groupedData`: the books mapped to their groups, the empty groups
      dropped. */
  function GroupedData(books: seq<BookPage.Book>, poems: seq<PoemPage.Poem>, cache: Cache, loading: Flags): (r: seq<Group>)
    ensures forall i :: 0 <= i < |r| ==> |r[i].poems| > 0 && r[i].book in books
  {
    Seqs.Filter(Seqs.Map(books, GroupFor(poems, cache, loading)), NonEmpty)
  }

  /** One group per book that has poems, in book order. */
  lemma GroupedDataBooks(books: seq<BookPage.Book>, poems: seq<PoemPage.Poem>, cache: Cache, loading: Flags)
    ensures Seqs.Map(GroupedData(books, poems, cache, loading), BookOf) == Seqs.Filter(books, HasPoemsFor(poems))
  {
    var g := GroupFor(poems, cache, loading);
    forall i | 0 <= i < |books|
      ensures BookOf(g(books[i])) == books[i]
      ensures NonEmpty(g(books[i])) == HasPoemsFor(poems)(books[i])
    {
      if HasPoems(poems, books[i]) {
        var j :| 0 <= j < |poems| && poems[j].bookId == Num(books[i].BookId);
        assert poems[j] in Seqs.Filter(poems, InBook(books[i]));
      }
    }
    Seqs.MapFilterMap(books, g, NonEmpty, BookOf, HasPoemsFor(poems));
  }

  /** Each group lists exactly its book's poems, in list order. */
  lemma GroupedDataPoems(books: seq<BookPage.Book>, poems: seq<PoemPage.Poem>, cache: Cache, loading: Flags)
    ensures var r := GroupedData(books, poems, cache, loading);
      forall i :: 0 <= i < |r| ==> Seqs.Map(r[i].poems, EntryPoem) == Seqs.Filter(poems, InBook(r[i].book))
  {
    var r := GroupedData(books, poems, cache, loading);
    var all := Seqs.Map(books, GroupFor(poems, cache, loading));
    forall i | 0 <= i < |r|
      ensures Seqs.Map(r[i].poems, EntryPoem) == Seqs.Filter(poems, InBook(r[i].book))
    {
      assert r[i] in all;
      var k :| 0 <= k < |all| && all[k] == r[i];
      var inBook := Seqs.Filter(poems, InBook(books[k]));
      assert Seqs.Map(Seqs.Map(inBook, EntryFor(cache, loading)), EntryPoem) == inBook;
    }
  }

  /** Each poem shows its cached verses (none when not cached) sorted by
      number, and its loading flag. */
  lemma GroupedDataVerses(books: seq<BookPage.Book>, poems: seq<PoemPage.Poem>, cache: Cache, loading: Flags)
    ensures var r := GroupedData(books, poems, cache, loading);
      forall i, j :: 0 <= i < |r| && 0 <= j < |r[i].poems| ==>
        var e := r[i].poems[j];
        && SortedByNumber(e.verses)
        && multiset(e.verses) == multiset(CachedOrEmpty(cache, e.poem.poemId))
        && e.isLoading == Flag(loading, PropertyKey(Num(e.poem.poemId)))
  {
    var r := GroupedData(books, poems, cache, loading);
    var all := Seqs.Map(books, GroupFor(poems, cache, loading));
    forall i, j | 0 <= i < |r| && 0 <= j < |r[i].poems|
      ensures r[i].poems[j] == EntryFor(cache, loading)(r[i].poems[j].poem)
    {
      assert r[i] in all;
      var k :| 0 <= k < |all| && all[k] == r[i];
    }
  }
}
