/** The books page (src/pages/AddBook.jsx): the add/edit form, the delete and
    submit handlers and the three-field search. Every call on this page goes
    to `fetch` directly, without the auth wrapper. */
module BookPage {
  import opened JsValues
  import opened Net
  import Seqs
  import Text
  import AuthService

  /** A book as the service sends it and as the form holds it. The year is
      a number from the service and the input's text once edited. */
  datatype Book = Book(BookId: int, Title: string, PublicationYear: Value, Genre: string, Author: string)

  /** The `name` attributes of the form's inputs. */
  datatype BookInput = TitleInput | AuthorInput | YearInput | GenreInput

  datatype BookState = BookState(
    books: seq<Book>,
    showModal: bool,
    isEditing: bool,
    searchTerm: string,
    form: Book)

  const EmptyForm := Book(0, "", Str(""), "", "")

  const BooksUrl := "https://sheltered-mountain-64913-f230179cbd70.herokuapp.com/books/"

  /** The value an input shows for the form. */
  function InputValue(form: Book, input: BookInput): Value {
    match input
    case TitleInput => Str(form.Title)
    case AuthorInput => Str(form.Author)
    case YearInput => form.PublicationYear
    case GenreInput => Str(form.Genre)
  }

  /** `handleInputChange`: the named input takes the typed text; the
      identifier and every other input keep their values. */
  function HandleInputChange(form: Book, input: BookInput, value: string): (r: Book)
    ensures InputValue(r, input) == Str(value)
    ensures forall other :: other != input ==> InputValue(r, other) == InputValue(form, other)
    ensures r.BookId == form.BookId
  {
    match input
    case TitleInput => form.(Title := value)
    case AuthorInput => form.(Author := value)
    case YearInput => form.(PublicationYear := Str(value))
    case GenreInput => form.(Genre := value)
  }

  /** `openAddModal`: an empty form in add mode, modal shown. */
  function OpenAddModal(s: BookState): (r: BookState)
    ensures r.form.BookId == 0 && r.form.Title == "" && r.form.PublicationYear == Str("")
    ensures r.form.Genre == "" && r.form.Author == ""
    ensures !r.isEditing && r.showModal
    ensures r.books == s.books && r.searchTerm == s.searchTerm
  {
    s.(form := EmptyForm, isEditing := false, showModal := true)
  }

  /** `openEditModal(book)`: the form is a copy of the book, in edit mode. */
  function OpenEditModal(s: BookState, book: Book): (r: BookState)
    ensures forall input :: InputValue(r.form, input) == InputValue(book, input)
    ensures r.form.BookId == book.BookId
    ensures r.isEditing && r.showModal
    ensures r.books == s.books && r.searchTerm == s.searchTerm
  {
    s.(form := book, isEditing := true, showModal := true)
  }

  /** `handleDelete(id)`: after the user confirms and the DELETE call
      resolves (whatever its status), the books with that identifier leave the
      list; nothing else changes. A declined dialog or a rejected call changes
      nothing. */
  function HandleDelete(s: BookState, id: int, confirmed: bool, outcome: Settled): (r: BookState)
    ensures r == s.(books := r.books)
    ensures !confirmed || outcome.Rejected? ==> r.books == s.books
    ensures confirmed && outcome.Resolved? ==>
      && (forall i :: 0 <= i < |r.books| ==> r.books[i].BookId != id && r.books[i] in s.books)
      && (forall i :: 0 <= i < |s.books| && s.books[i].BookId != id ==> s.books[i] in r.books)
      && Seqs.SubseqOf(r.books, s.books)
      && (forall i :: 0 <= i < |s.books| && s.books[i].BookId != id ==>
            multiset(r.books)[s.books[i]] == multiset(s.books)[s.books[i]])
  {
    if confirmed && outcome.Resolved? then
      s.(books := Seqs.RemoveById(s.books, (b: Book) => b.BookId, id))
    else
      s
  }

  /** The request `handleSubmit` sends: PUT to update in edit mode, POST to
      add otherwise, the form as body. */
  function SubmitRequest(s: BookState): (r: AuthService.Request<Book>)
    ensures s.isEditing ==> r.url == BooksUrl + "updateBook" && r.options.httpMethod == Some("PUT")
    ensures !s.isEditing ==> r.url == BooksUrl + "addBook" && r.options.httpMethod == Some("POST")
    ensures r.options.body == Some(s.form)
    ensures r.options.headers == Some(map[AuthService.ContentTypeHeader := AuthService.JsonContentType])
  {
    AuthService.Request(
      BooksUrl + (if s.isEditing then "updateBook" else "addBook"),
      AuthService.Options(
        Some(if s.isEditing then "PUT" else "POST"),
        Some(map["Content-Type" := "application/json"]),
        Some(s.form),
        map[]))
  }

  /** `handleSubmit` once settled: any response, ok or not, re-fetches the
      list and closes the modal; the re-fetch replaces the list with whatever
      JSON it decodes. Only a rejected call leaves the page as it was. */
  function HandleSubmit(s: BookState, outcome: Settled, refetch: JsonReply<seq<Book>>): (r: BookState)
    ensures outcome.Rejected? ==> r == s
    ensures outcome.Resolved? ==> !r.showModal
    ensures outcome.Resolved? && refetch.Decoded? ==> r.books == refetch.data
    ensures outcome.Resolved? && refetch.Unreadable? ==> r.books == s.books
    ensures r.form == s.form && r.isEditing == s.isEditing && r.searchTerm == s.searchTerm
  {
    match outcome
    case Rejected(_) => s
    case Resolved(_) =>
      var books := if refetch.Decoded? then refetch.data else s.books;
      s.(books := books, showModal := false)
  }

  /** The search clause: title, author or genre contains the term. */
  predicate Shown(book: Book, term: string) {
    Text.Matches(book.Title, term) || Text.Matches(book.Author, term) || Text.Matches(book.Genre, term)
  }

  function ShownFor(term: string): Book -> bool {
    (b: Book) => Shown(b, term)
  }

  /** `filteredBooks`: the books whose title, author or genre contains the
      term, ignoring case, in list order. */
  function FilteredBooks(books: seq<Book>, term: string): (r: seq<Book>)
    ensures forall i :: 0 <= i < |r| ==> r[i] in books
    ensures forall i :: 0 <= i < |books| ==>
      (books[i] in r <==> Text.Matches(books[i].Title, term) || Text.Matches(books[i].Author, term)
                          || Text.Matches(books[i].Genre, term))
    ensures Seqs.SubseqOf(r, books)
    ensures forall i :: 0 <= i < |books| && books[i] in r ==> multiset(r)[books[i]] == multiset(books)[books[i]]
  {
    Seqs.FilterCount(books, ShownFor(term));
    Seqs.Filter(books, ShownFor(term))
  }

  /** Searching the search result again changes nothing. */
  lemma FilterIdempotent(books: seq<Book>, term: string)
    ensures FilteredBooks(FilteredBooks(books, term), term) == FilteredBooks(books, term)
  {
    Seqs.FilterIdempotent(books, ShownFor(term));
  }

  /** The empty term shows every book. */
  lemma EmptyTermKeepsAll(books: seq<Book>)
    ensures FilteredBooks(books, "") == books
  {
    forall i | 0 <= i < |books| ensures Shown(books[i], "") {
      Text.EmptyTermMatches(books[i].Title);
    }
    Seqs.FilterKeepsAll(books, ShownFor(""));
  }

  /** The search ignores the case of the term. */
  lemma SearchIgnoresCase(books: seq<Book>, term: string)
    ensures FilteredBooks(books, Text.ToUpper(term)) == FilteredBooks(books, term)
  {
    forall i | 0 <= i < |books| ensures Shown(books[i], Text.ToUpper(term)) == Shown(books[i], term) {
      Text.MatchesIgnoresCase(books[i].Title, term);
      Text.MatchesIgnoresCase(books[i].Author, term);
      Text.MatchesIgnoresCase(books[i].Genre, term);
    }
    Seqs.FilterCongruent(books, ShownFor(Text.ToUpper(term)), ShownFor(term));
  }

  /** Deleting an identifier no book has leaves the list as it was. */
  lemma DeleteAbsentIsNoOp(s: BookState, id: int, outcome: Settled)
    requires forall i :: 0 <= i < |s.books| ==> s.books[i].BookId != id
    ensures HandleDelete(s, id, true, outcome) == s
  {
  }
}
