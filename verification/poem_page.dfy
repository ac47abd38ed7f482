/** The poems page (src/pages/AddPoem.jsx): the poem list and its search, the
    poet and book lookups, the two filterable dropdowns of the form, and the
    delete and submit handlers. Every call on this page goes to `fetch`
    directly, without the auth wrapper. */
module PoemPage {
  import opened JsValues
  import opened Net
  import Seqs
  import Text
  import Dropdown
  import AuthService
  import PoetPage
  import BookPage

  /** A poem as the service sends it and as the form holds it. The poet and
      book references are numbers from the service and `''` in an empty form. */
  datatype Poem = Poem(poemId: int, title: string, poetId: Value, bookId: Value)

  datatype PoemState = PoemState(
    poems: seq<Poem>,
    poets: seq<PoetPage.Poet>,
    books: seq<BookPage.Book>,
    showModal: bool,
    isEditing: bool,
    searchTerm: string,
    poetSearch: string,
    bookSearch: string,
    showPoetDropdown: bool,
    showBookDropdown: bool,
    form: Poem)

  const EmptyForm := Poem(0, "", Str(""), Str(""))

  const PoemsUrl := "https://sheltered-mountain-64913-f230179cbd70.herokuapp.com/poems/"

  // ---------------------------------------------------------------------
  // Searches

  function TitleShownFor(term: string): Poem -> bool {
    (p: Poem) => Text.Matches(p.title, term)
  }

  /** `filteredPoems`: the poems whose title contains the term, ignoring
      case, in list order. */
  function FilteredPoems(poems: seq<Poem>, term: string): (r: seq<Poem>)
    ensures forall i :: 0 <= i < |r| ==> r[i] in poems
    ensures forall i :: 0 <= i < |poems| ==> (poems[i] in r <==> Text.Matches(poems[i].title, term))
    ensures Seqs.SubseqOf(r, poems)
    ensures forall i :: 0 <= i < |poems| && poems[i] in r ==> multiset(r)[poems[i]] == multiset(poems)[poems[i]]
  {
    Seqs.FilterCount(poems, TitleShownFor(term));
    Seqs.Filter(poems, TitleShownFor(term))
  }

  lemma FilterIdempotent(poems: seq<Poem>, term: string)
    ensures FilteredPoems(FilteredPoems(poems, term), term) == FilteredPoems(poems, term)
  {
    Seqs.FilterIdempotent(poems, TitleShownFor(term));
  }

  lemma EmptyTermKeepsAll(poems: seq<Poem>)
    ensures FilteredPoems(poems, "") == poems
  {
    forall i | 0 <= i < |poems| ensures TitleShownFor("")(poems[i]) {
      Text.EmptyTermMatches(poems[i].title);
    }
    Seqs.FilterKeepsAll(poems, TitleShownFor(""));
  }

  /** This page reads `poet.name.toLowerCase()` without a guard, so a poet
      whose name is `null` makes the search throw a TypeError. */
  predicate HasNamelessPoet(poets: seq<PoetPage.Poet>) {
    exists i :: 0 <= i < |poets| && poets[i].name.None?
  }

  function PoetName(p: PoetPage.Poet): string {
    p.name.GetOr("")
  }

  /** `filteredPoets` of the poet dropdown: `None` when the filter throws,
      otherwise the poets whose name contains the search text. */
  function FilteredPoets(poets: seq<PoetPage.Poet>, text: string): (r: Option<seq<PoetPage.Poet>>)
    ensures r.None? <==> HasNamelessPoet(poets)
    ensures r.Some? ==>
      && (forall i :: 0 <= i < |r.value| ==> r.value[i] in poets)
      && (forall i :: 0 <= i < |poets| ==> (poets[i] in r.value <==> Text.Matches(poets[i].name.value, text)))
      && Seqs.SubseqOf(r.value, poets)
      && (forall i :: 0 <= i < |poets| && poets[i] in r.value ==> multiset(r.value)[poets[i]] == multiset(poets)[poets[i]])
  {
    if HasNamelessPoet(poets) then None
    else Some(Dropdown.Matching(poets, PoetName, text))
  }

  function BookTitle(b: BookPage.Book): string {
    b.Title
  }

  /** `filteredBooks` of the book dropdown: the books whose title contains the
      search text. */
  function FilteredBooks(books: seq<BookPage.Book>, text: string): (r: seq<BookPage.Book>)
    ensures forall i :: 0 <= i < |r| ==> r[i] in books
    ensures forall i :: 0 <= i < |books| ==> (books[i] in r <==> Text.Matches(books[i].Title, text))
    ensures Seqs.SubseqOf(r, books)
    ensures forall i :: 0 <= i < |books| && books[i] in r ==> multiset(r)[books[i]] == multiset(books)[books[i]]
  {
    Dropdown.Matching(books, BookTitle, text)
  }

  // ---------------------------------------------------------------------
  // Lookups

  /** `getPoetName(poetId)`: the name of the first poet whose identifier is
      strictly equal to `poetId`, or "Unknown". A found poet's name may itself
      be `null` (None). */
  function GetPoetName(poets: seq<PoetPage.Poet>, poetId: Value): (r: Option<string>)
    ensures (exists i :: 0 <= i < |poets| && Num(poets[i].poetId) == poetId) ==>
      exists i :: 0 <= i < |poets| && Num(poets[i].poetId) == poetId && r == poets[i].name
        && forall j :: 0 <= j < i ==> Num(poets[j].poetId) != poetId
    ensures (forall i :: 0 <= i < |poets| ==> Num(poets[i].poetId) != poetId) ==> r == Some("Unknown")
  {
    var found := Seqs.Find(poets, (p: PoetPage.Poet) => Num(p.poetId) == poetId);
    if found.Some? then found.value.name else Some("Unknown")
  }

  /** `getBookTitle(bookId)`: the title of the first book whose identifier is
      strictly equal to `bookId`, or "Unknown". */
  function GetBookTitle(books: seq<BookPage.Book>, bookId: Value): (r: string)
    ensures (exists i :: 0 <= i < |books| && Num(books[i].BookId) == bookId) ==>
      exists i :: 0 <= i < |books| && Num(books[i].BookId) == bookId && r == books[i].Title
        && forall j :: 0 <= j < i ==> Num(books[j].BookId) != bookId
    ensures (forall i :: 0 <= i < |books| ==> Num(books[i].BookId) != bookId) ==> r == "Unknown"
  {
    var found := Seqs.Find(books, (b: BookPage.Book) => Num(b.BookId) == bookId);
    if found.Some? then found.value.Title else "Unknown"
  }

  // ---------------------------------------------------------------------
  // Form handlers

  /** `openAddModal`: an empty form, both dropdown searches cleared, add mode. */
  function OpenAddModal(s: PoemState): (r: PoemState)
    ensures r.form.poemId == 0 && r.form.title == "" && r.form.poetId == Str("") && r.form.bookId == Str("")
    ensures r.poetSearch == "" && r.bookSearch == ""
    ensures !r.isEditing && r.showModal
    ensures r == s.(form := r.form, poetSearch := r.poetSearch, bookSearch := r.bookSearch,
                    isEditing := r.isEditing, showModal := r.showModal)
  {
    s.(form := EmptyForm, poetSearch := "", bookSearch := "", isEditing := false, showModal := true)
  }

  /** `openEditModal(poem)` as written: the poet is looked up by `p.poet_id`,
      a field the service's poets do not have, so the lookup compares
      `undefined` with the poem's poet reference. */
  function OpenEditModal(s: PoemState, poem: Poem): (r: PoemState)
    ensures r.form == poem && r.isEditing && r.showModal
    ensures r.poetSearch == (if poem.poetId == Undefined && |s.poets| > 0 then PoetName(s.poets[0]) else "")
    ensures r.bookSearch == (if exists i :: 0 <= i < |s.books| && Num(s.books[i].BookId) == poem.bookId
                             then GetBookTitle(s.books, poem.bookId) else "")
    ensures r == s.(form := poem, poetSearch := r.poetSearch, bookSearch := r.bookSearch,
                    isEditing := true, showModal := true)
  {
    var selectedPoet := Seqs.Find(s.poets, (p: PoetPage.Poet) => Undefined == poem.poetId);
    var selectedBook := Seqs.Find(s.books, (b: BookPage.Book) => Num(b.BookId) == poem.bookId);
    s.(form := poem,
       poetSearch := if selectedPoet.Some? then PoetName(selectedPoet.value) else "",
       bookSearch := if selectedBook.Some? then selectedBook.value.Title else "",
       isEditing := true, showModal := true)
  }

  /** `openEditModal(poem)` looking the poet up by `poetId`, the field
      `getPoetName` and the poets page use. */
  function OpenEditModalByPoetId(s: PoemState, poem: Poem): (r: PoemState)
    ensures r.form == poem && r.isEditing && r.showModal
    ensures r.poetSearch == (if exists i :: 0 <= i < |s.poets| && Num(s.poets[i].poetId) == poem.poetId
                             then GetPoetName(s.poets, poem.poetId).GetOr("") else "")
    ensures r.bookSearch == OpenEditModal(s, poem).bookSearch
    ensures r == s.(form := poem, poetSearch := r.poetSearch, bookSearch := r.bookSearch,
                    isEditing := true, showModal := true)
  {
    var selectedPoet := Seqs.Find(s.poets, (p: PoetPage.Poet) => Num(p.poetId) == poem.poetId);
    OpenEditModal(s, poem).(poetSearch := if selectedPoet.Some? then PoetName(selectedPoet.value) else "")
  }

  /** With the lookup as written, editing a poem whose poet is in the list
      leaves the poet search empty; looking up by `poetId` shows the poet's
      name. */
  lemma EditModalLosesPoetName()
    ensures var poet := PoetPage.Poet(1, Some("Hafiz"), Num(1315), Num(1390), Some(""));
      var s := PoemState([], [poet], [], false, false, "", "", "", false, false, EmptyForm);
      var poem := Poem(7, "Ghazal", Num(1), Num(2));
      && OpenEditModal(s, poem).poetSearch == ""
      && OpenEditModalByPoetId(s, poem).poetSearch == "Hafiz"
  {
    var poet := PoetPage.Poet(1, Some("Hafiz"), Num(1315), Num(1390), Some(""));
    var poem := Poem(7, "Ghazal", Num(1), Num(2));
    assert Num(poet.poetId) == poem.poetId;
  }

  /** `selectPoet(poet)`: the form references the poet and the search box
      shows its name; the dropdown closes; the rest of the form is kept. */
  function SelectPoet(s: PoemState, poet: PoetPage.Poet): (r: PoemState)
    ensures r.form.poetId == Num(poet.poetId) && r.poetSearch == PoetName(poet) && !r.showPoetDropdown
    ensures r.form.poemId == s.form.poemId && r.form.title == s.form.title && r.form.bookId == s.form.bookId
    ensures r == s.(form := r.form, poetSearch := r.poetSearch, showPoetDropdown := false)
  {
    s.(form := s.form.(poetId := Num(poet.poetId)), poetSearch := PoetName(poet), showPoetDropdown := false)
  }

  /** `selectBook(book)`: the form references the book and the search box
      shows its title; the dropdown closes; the rest of the form is kept. */
  function SelectBook(s: PoemState, book: BookPage.Book): (r: PoemState)
    ensures r.form.bookId == Num(book.BookId) && r.bookSearch == book.Title && !r.showBookDropdown
    ensures r.form.poemId == s.form.poemId && r.form.title == s.form.title && r.form.poetId == s.form.poetId
    ensures r == s.(form := r.form, bookSearch := r.bookSearch, showBookDropdown := false)
  {
    s.(form := s.form.(bookId := Num(book.BookId)), bookSearch := book.Title, showBookDropdown := false)
  }

  /** `handleChange` of the title input. */
  function HandleTitleChange(s: PoemState, value: string): (r: PoemState)
    ensures r.form.title == value
    ensures r.form.poemId == s.form.poemId && r.form.poetId == s.form.poetId && r.form.bookId == s.form.bookId
    ensures r == s.(form := r.form)
  {
    s.(form := s.form.(title := value))
  }

  /** Typing in the poet search box. Text that matches some poet's name, or
      the empty text, is taken and unselects the poet; other text is refused
      and changes nothing but opening the dropdown. A nameless poet makes the
      handler throw before it changes anything. */
  function PoetSearchInput(s: PoemState, text: string): (r: PoemState)
    ensures HasNamelessPoet(s.poets) ==> r == s
    ensures !HasNamelessPoet(s.poets) ==> r.showPoetDropdown
    ensures !HasNamelessPoet(s.poets) ==>
      if text == "" || exists i :: 0 <= i < |s.poets| && Text.Matches(s.poets[i].name.value, text)
      then r.poetSearch == text && r.form == s.form.(poetId := Str(""))
      else r.poetSearch == s.poetSearch && r.form == s.form
    ensures r == s.(poetSearch := r.poetSearch, form := r.form, showPoetDropdown := r.showPoetDropdown)
  {
    if HasNamelessPoet(s.poets) then s
    else if Dropdown.Accepts(s.poets, PoetName, text) then
      s.(poetSearch := text, form := s.form.(poetId := Str("")), showPoetDropdown := true)
    else
      s.(showPoetDropdown := true)
  }

  /** Typing in the book search box, with the same rule on book titles. */
  function BookSearchInput(s: PoemState, text: string): (r: PoemState)
    ensures r.showBookDropdown
    ensures if text == "" || exists i :: 0 <= i < |s.books| && Text.Matches(s.books[i].Title, text)
      then r.bookSearch == text && r.form == s.form.(bookId := Str(""))
      else r.bookSearch == s.bookSearch && r.form == s.form
    ensures r == s.(bookSearch := r.bookSearch, form := r.form, showBookDropdown := true)
  {
    if Dropdown.Accepts(s.books, BookTitle, text) then
      s.(bookSearch := text, form := s.form.(bookId := Str("")), showBookDropdown := true)
    else
      s.(showBookDropdown := true)
  }

  // ---------------------------------------------------------------------
  // Network handlers

  /** `handleDelete(id)`: after the user confirms and the DELETE call
      resolves (whatever its status), the poems with that identifier leave the
      list; a declined dialog or a rejected call changes nothing. */
  function HandleDelete(s: PoemState, id: int, confirmed: bool, outcome: Settled): (r: PoemState)
    ensures r == s.(poems := r.poems)
    ensures !confirmed || outcome.Rejected? ==> r.poems == s.poems
    ensures confirmed && outcome.Resolved? ==>
      && (forall i :: 0 <= i < |r.poems| ==> r.poems[i].poemId != id && r.poems[i] in s.poems)
      && (forall i :: 0 <= i < |s.poems| && s.poems[i].poemId != id ==> s.poems[i] in r.poems)
      && Seqs.SubseqOf(r.poems, s.poems)
      && (forall i :: 0 <= i < |s.poems| && s.poems[i].poemId != id ==>
            multiset(r.poems)[s.poems[i]] == multiset(s.poems)[s.poems[i]])
  {
    if confirmed && outcome.Resolved? then
      s.(poems := Seqs.RemoveById(s.poems, (p: Poem) => p.poemId, id))
    else
      s
  }

  /** The request `handleSubmit` sends: PUT to update in edit mode, POST to
      add otherwise, the form as body. */
  function SubmitRequest(s: PoemState): (r: AuthService.Request<Poem>)
    ensures s.isEditing ==> r.url == PoemsUrl + "updatePoem" && r.options.httpMethod == Some("PUT")
    ensures !s.isEditing ==> r.url == PoemsUrl + "addPoem" && r.options.httpMethod == Some("POST")
    ensures r.options.body == Some(s.form)
    ensures r.options.headers == Some(map[AuthService.ContentTypeHeader := AuthService.JsonContentType])
  {
    AuthService.Request(
      PoemsUrl + (if s.isEditing then "updatePoem" else "addPoem"),
      AuthService.Options(
        Some(if s.isEditing then "PUT" else "POST"),
        Some(map["Content-Type" := "application/json"]),
        Some(s.form),
        map[]))
  }

  /** `handleSubmit` once settled: any response, ok or not, re-fetches the
      poems and closes the modal; only a rejected call leaves the modal open.
      The re-fetch keeps the old list if it throws. */
  function HandleSubmit(s: PoemState, outcome: Settled, refetch: JsonReply<seq<Poem>>): (r: PoemState)
    ensures outcome.Rejected? ==> r == s
    ensures outcome.Resolved? ==>
      && !r.showModal
      && r.poems == (if refetch.Decoded? then refetch.data else s.poems)
      && r == s.(poems := r.poems, showModal := false)
  {
    match outcome
    case Rejected(_) => s
    case Resolved(_) =>
      s.(poems := if refetch.Decoded? then refetch.data else s.poems, showModal := false)
  }
}
