# Poetry admin front-end: session, list pages and verse cache

This project is a Dafny model of the logic inside a React admin front-end for a poetry corpus. The front-end has books, poets, poems, verses, and the read-only roots, lemmas and tokens. Each page's handlers become pure functions over an immutable page state. The outcome of every network call is an input datatype (`Net.Settled`, `Net.Loaded`, `Net.JsonReply`). Browser storage is a string map passed in and returned.

The files follow the source's structure:

- `js_values.dfy` (`JsValues`): the JavaScript semantics the pages rely on. That is truthiness, `String(n)`, `parseInt`, and object property keys.
- `text.dfy` (`Text`): `toLowerCase`/`toUpperCase` and `includes`, and the case-insensitive match every search box uses.
- `seqs.dfy` (`Seqs`): `filter`, `some`, `find`, `map`, the delete handlers' removal by identifier, and lemmas relating them.
- `net.dfy` (`Net`): network outcomes.
- `auth_service.dfy` (`AuthService`): the session store and the request `authFetch` builds.
- `login_page.dfy` (`LoginPage`): the login form and the session it writes.
- `read_only_list.dfy` (`ReadOnlyList`): the load state machine shared by the roots, lemmas and tokens pages.
- `root_page.dfy`, `lema_page.dfy`, `token_page.dfy`: those three pages.
- `book_page.dfy`, `poet_page.dfy`, `poem_page.dfy`: the three editable list pages.
- `dropdown.dfy` (`Dropdown`): the filterable dropdown rule of the poem and verse forms.
- `verse_page.dfy` (`VersePage`): the per-poem verse cache, the verse form's validation, the stable sort by verse number and the grouping of poems under books.

Three behaviours of the code are easy to misread, and the model keeps them as written:

- Only the poets page checks `response.ok` after a create or update. The book, poem and verse submits reload and close the form on any response, ok or not.
- The book and poem pages delete with a plain `fetch`, without the auth wrapper. Every delete handler removes the record locally on any resolved response, whatever its status.
- A session is a truthy token, not merely a stored one: an empty stored token means no session.

## Model

| member | source | states |
|---|---|---|
| AuthService.GetItem | src/services/authService.js:10-17 | a stored item is returned exactly when its key is present, with the stored value |
| AuthService.GetToken | src/services/authService.js:10-12 | the stored token, present exactly when one is stored |
| AuthService.GetUsername | src/services/authService.js:15-17 | the stored user name, present exactly when one is stored |
| AuthService.IsAuthenticated | src/services/authService.js:4-7 | a session exists iff a token is stored and it is not the empty string |
| AuthService.Logout | src/services/authService.js:20-23 | token and username are gone, no session remains, every other stored item is unchanged |
| AuthService.LogoutIdempotent | src/services/authService.js:20-23 | logging out twice equals logging out once |
| AuthService.GetAuthHeader | src/services/authService.js:26-29 | exactly one `Authorization: Bearer <token>` header with a truthy token, no header otherwise |
| AuthService.AuthFetch | src/services/authService.js:33-49 | Content-Type defaults to JSON and the caller can override it; other caller headers pass through unchanged and nothing else is added; a truthy token sets Authorization and overrides the caller's; with no session Authorization is the caller's or absent; url, method, body and all other options pass through |
| AuthService.AuthFetchAgreesWithGetAuthHeader | src/services/authService.js:26-43 | for the same storage, the Authorization header `authFetch` sends is the one `getAuthHeader` reports |
| AuthService.LoggedOutRequestsCarryNoToken | src/services/authService.js:20-43 | after logout a request carries Authorization only if the caller supplied one |
| LoginPage.HandleChange | src/pages/Login.jsx:13-20 | only the named credential changes and the error is cleared |
| LoginPage.BeginSubmit | src/pages/Login.jsx:22-34 | loading on, error cleared, a POST to the login URL whose body is exactly the credentials, with a JSON content type |
| LoginPage.FinishSubmit | src/pages/Login.jsx:36-52 | an ok response navigates home; a non-ok response shows its text or the fixed failure message; a thrown call shows the network message; in both failure cases storage is untouched; loading ends on every path |
| LoginPage.Submit | src/pages/Login.jsx:22-53 | the whole handler: it navigates iff the response is ok; an ok response writes the token and the submitted name and shows no error; any failure leaves storage untouched and shows a non-empty error; loading ends and the credentials stay |
| LoginPage.LoginWritesSession | src/pages/Login.jsx:36-42 | after an ok login the session store reads the response text as the token and the submitted name as the username; it is authenticated iff the token is non-empty; other items are unchanged |
| LoginPage.LoginAuthorizesRequests | src/pages/Login.jsx:39-40 | after an ok login with a non-empty token every `authFetch` request carries `Bearer <token>` |
| LoginPage.FailedLoginKeepsSession | src/pages/Login.jsx:43-49 | a failed login leaves storage unchanged and shows a non-empty error |
| ReadOnlyList.StartLoad | src/pages/AddRoot.jsx:15-17 | loading on, error cleared, list kept |
| ReadOnlyList.FinishLoad | src/pages/AddRoot.jsx:30-48 | an ok response replaces the list; a non-ok response keeps it and shows the body text or the fallback; a throw keeps it and shows prefix + message; loading ends on every path |
| ReadOnlyList.Load | src/pages/AddRoot.jsx:15-49 | the whole handler: on an ok response the list is replaced and the error is empty; on failure the list is kept and the error is the exact message; loading always ends |
| ReadOnlyList.BlankFieldNeverShown | src/pages/AddRoot.jsx:52 | a missing or empty field never passes its search clause |
| ReadOnlyList.EmptyTermShowsEveryText | src/pages/AddRoot.jsx:52 | every non-empty field passes the empty term |
| RootPage.FetchRoots | src/pages/AddRoot.jsx:15-49 | the load outcomes with the exact messages "Failed to fetch roots" and "Error fetching roots: " + message |
| RootPage.FilteredRoots | src/pages/AddRoot.jsx:51-56 | an entry is kept iff one of its four fields is non-empty text containing the term, ignoring case; the result is an order-preserving subsequence; every kept entry occurs as often as in the input |
| RootPage.BlankEntryHidden | src/pages/AddRoot.jsx:51-56 | an entry whose four fields are all missing or empty is never shown |
| LemaPage.FetchLemas | src/pages/AddLema.jsx:15-49 | the load outcomes with the exact messages "Failed to fetch lemas" and "Error fetching lemas: " + message |
| LemaPage.FilteredLemas | src/pages/AddLema.jsx:51-56 | the same four-field rule over lemmaText, poetName, poemTitle and bookTitle, in order; every kept entry occurs as often as in the input |
| LemaPage.BlankEntryHidden | src/pages/AddLema.jsx:51-56 | an entry with no non-empty field is never shown |
| TokenPage.FetchTokens | src/pages/AddToken.jsx:15-49 | the load outcomes with the exact messages "Failed to fetch tokens" and "Error fetching tokens: " + message |
| TokenPage.FilteredTokens | src/pages/AddToken.jsx:51-56 | the same four-field rule over tokenText, poetName, poemTitle and bookTitle, in order; every kept entry occurs as often as in the input |
| TokenPage.BlankEntryHidden | src/pages/AddToken.jsx:51-56 | an entry with no non-empty field is never shown |
| BookPage.HandleInputChange | src/pages/AddBook.jsx:24-27 | the named input shows the typed text, every other input and the identifier are kept |
| BookPage.OpenAddModal | src/pages/AddBook.jsx:29-33 | form reset to identifier 0 and empty fields, add mode, modal open, list kept |
| BookPage.OpenEditModal | src/pages/AddBook.jsx:35-39 | the form shows the book's values and identifier, edit mode, modal open |
| BookPage.HandleDelete | src/pages/AddBook.jsx:41-48 | after confirmation and any resolved response exactly the books with that identifier are removed; every other book stays with all its copies, in order; declining or a rejected call changes nothing; nothing but the list ever changes |
| BookPage.DeleteAbsentIsNoOp | src/pages/AddBook.jsx:46 | deleting an identifier no book has leaves the page as it was |
| BookPage.SubmitRequest | src/pages/AddBook.jsx:50-63 | PUT to updateBook in edit mode, POST to addBook otherwise; body is the form; only a JSON content type; no token |
| BookPage.HandleSubmit | src/pages/AddBook.jsx:64-69 | any resolved response, ok or not, closes the modal and reloads the list; a rejected call changes nothing |
| BookPage.FilteredBooks | src/pages/AddBook.jsx:72-76 | a book is kept iff its title, author or genre contains the term, ignoring case; order-preserving subsequence; every kept entry occurs as often as in the input |
| BookPage.FilterIdempotent | src/pages/AddBook.jsx:72-76 | searching the result again changes nothing |
| BookPage.EmptyTermKeepsAll | src/pages/AddBook.jsx:72-76 | the empty term keeps every book |
| BookPage.SearchIgnoresCase | src/pages/AddBook.jsx:72-76 | an upper-cased term finds the same books |
| PoetPage.HandleChange | src/pages/AddPoet.jsx:30-36 | only the named input changes |
| PoetPage.OpenAddModal | src/pages/AddPoet.jsx:38-42 | form reset to identifier 0 and empty inputs, add mode, modal open |
| PoetPage.OpenEditModal | src/pages/AddPoet.jsx:44-48 | the form shows the poet, edit mode, modal open |
| PoetPage.HandleDelete | src/pages/AddPoet.jsx:50-58 | after confirmation and any resolved response exactly the poets with that identifier are removed; every other poet stays with all its copies, in order; nothing but the list ever changes |
| PoetPage.SubmitRequest | src/pages/AddPoet.jsx:60-72 | PUT or POST by mode through the auth wrapper: JSON content type, and Authorization iff there is a session |
| PoetPage.HandleSubmit | src/pages/AddPoet.jsx:73-81 | only an ok response reloads and closes; a non-ok response or a thrown call keeps list and modal and raises the fixed alert |
| PoetPage.FilteredPoets | src/pages/AddPoet.jsx:84-87 | a poet is kept iff a present name or a present biography contains the term, ignoring case; order-preserving subsequence; every kept entry occurs as often as in the input |
| PoetPage.EmptyTermShowsPresentFields | src/pages/AddPoet.jsx:84-87 | the empty term shows exactly the poets with a name or a biography present, even an empty one |
| PoetPage.FilterIdempotent | src/pages/AddPoet.jsx:84-87 | searching the result again changes nothing |
| PoetPage.SearchIgnoresCase | src/pages/AddPoet.jsx:84-87 | an upper-cased term finds the same poets |
| PoetPage.ShakespeareFoundInAnyCase | src/pages/AddPoet.jsx:84-87 | "shakespeare" and "SHAKESPEARE" both find William Shakespeare |
| PoetPage.AvatarLetter | src/pages/AddPoet.jsx:157 | the upper-cased first letter of a non-empty name, '?' otherwise |
| PoetPage.YearText | src/pages/AddPoet.jsx:162-163 | a truthy year is shown as such, a falsy one as '—' |
| PoetPage.YearTextOfNumber | src/pages/AddPoet.jsx:162-163 | a missing year and the year 0 show '—', any other year its decimal digits |
| PoetPage.NameText | src/pages/AddPoet.jsx:159 | a non-empty name, 'Unknown' otherwise; the cell is never empty |
| PoetPage.BiographyText | src/pages/AddPoet.jsx:166 | a non-empty biography, 'No biography available' otherwise; the cell is never empty |
| PoemPage.FilteredPoems | src/pages/AddPoem.jsx:113-115 | a poem is kept iff its title contains the term, ignoring case; order-preserving subsequence; every kept entry occurs as often as in the input |
| PoemPage.FilterIdempotent | src/pages/AddPoem.jsx:113-115 | searching the result again changes nothing |
| PoemPage.EmptyTermKeepsAll | src/pages/AddPoem.jsx:113-115 | the empty term keeps every poem |
| PoemPage.FilteredPoets | src/pages/AddPoem.jsx:117-119 | the poet dropdown throws iff some poet has a null name; otherwise it keeps, in order and with every copy, exactly the poets whose name contains the text |
| PoemPage.FilteredBooks | src/pages/AddPoem.jsx:121-123 | the book dropdown keeps, in order and with every copy, exactly the books whose title contains the text |
| PoemPage.GetPoetName | src/pages/AddPoem.jsx:125-128 | the name of the first poet with that identifier, "Unknown" when there is none |
| PoemPage.GetBookTitle | src/pages/AddPoem.jsx:130-133 | the title of the first book with that identifier, "Unknown" when there is none |
| PoemPage.OpenAddModal | src/pages/AddPoem.jsx:59-65 | form reset to identifier 0, empty title and empty references; both searches cleared; add mode, modal open; nothing else changes |
| PoemPage.OpenEditModal | src/pages/AddPoem.jsx:67-75 | as written: the form is the poem, edit mode, modal open; the poet search finds a poet only when the poem's poet reference is `undefined`; the book search shows the referenced book's title; nothing else changes |
| PoemPage.OpenEditModalByPoetId | src/pages/AddPoem.jsx:67-75 | corrected: the poet search shows the name of the poet the poem references; the rest as in the as-written dialog, and nothing else changes |
| PoemPage.EditModalLosesPoetName | src/pages/AddPoem.jsx:69 | a poem by a listed poet opens with an empty poet search as written, and with the poet's name when corrected |
| PoemPage.SelectPoet | src/pages/AddPoem.jsx:135-139 | the form references the poet, the search shows its name, the dropdown closes; the other form fields and the rest of the page are kept |
| PoemPage.SelectBook | src/pages/AddPoem.jsx:141-145 | the form references the book, the search shows its title, the dropdown closes; the other form fields and the rest of the page are kept |
| PoemPage.HandleTitleChange | src/pages/AddPoem.jsx:51-57 | only the form's title changes; nothing else in the page does |
| PoemPage.PoetSearchInput | src/pages/AddPoem.jsx:294-305 | empty or matching text is taken and clears the poet reference; other text changes nothing but opening the dropdown; a null poet name makes the handler throw; only search, form and dropdown flag can change |
| PoemPage.BookSearchInput | src/pages/AddPoem.jsx:335-346 | the same rule for book titles and the book reference; only search, form and dropdown flag can change |
| PoemPage.HandleDelete | src/pages/AddPoem.jsx:77-85 | after confirmation and any resolved response exactly the poems with that identifier are removed; every other poem stays with all its copies, in order; nothing but the list ever changes |
| PoemPage.SubmitRequest | src/pages/AddPoem.jsx:87-105 | PUT to updatePoem or POST to addPoem; the form as body; a JSON content type; no token |
| PoemPage.HandleSubmit | src/pages/AddPoem.jsx:106-110 | any resolved response reloads the poems and closes the modal; only a rejected call leaves it open |
| Dropdown.Matching | src/pages/AddPoem.jsx:296-298 | the options are exactly the entries whose label contains the text, in order, each as often as in the list |
| Dropdown.Accepts | src/pages/AddPoem.jsx:300 | the box takes text iff it is empty or some label contains it, ignoring case |
| VersePage.BeginFetch | src/pages/AddVerse.jsx:32-38 | a cached entry, even an empty one, is answered at once and nothing changes; a miss marks only that poem as loading |
| VersePage.EndFetch | src/pages/AddVerse.jsx:40-51 | decoded data becomes the poem's entry; a failure leaves the cache and yields no verses; loading ends for that poem either way and every other poem's loading flag is kept; nothing else changes |
| VersePage.FetchVersesByPoemId | src/pages/AddVerse.jsx:32-52 | a hit sends nothing and changes nothing; a miss fetches, stores the data or keeps the cache on failure, and ends loading |
| VersePage.FetchIsMemoised | src/pages/AddVerse.jsx:32-46 | after a successful fetch the same poem is answered from the cache with no request |
| VersePage.HandleDelete | src/pages/AddVerse.jsx:97-111 | after confirmation and any resolved response exactly the verses with that identifier leave that poem's entry; every other verse stays with all its copies, in order; every other entry and the rest of the page are kept; a poem with no entry makes the update throw |
| VersePage.DeleteAbsentIsNoOp | src/pages/AddVerse.jsx:105-108 | deleting an identifier none of the poem's verses has changes nothing |
| VersePage.SubmitRequest | src/pages/AddVerse.jsx:113-129 | PUT to updateVerse or POST to addVerse through the auth wrapper, the form as body |
| VersePage.HandleSubmitAsWritten | src/pages/AddVerse.jsx:130-142 | as written: any response drops exactly the form poem's entry and closes the modal; an expanded poem is refetched only if it was not cached before; only the cache, the loading flags and the modal change |
| VersePage.HandleSubmit | src/pages/AddVerse.jsx:130-142 | corrected: any response drops exactly the form poem's entry, keeps every other entry and closes the modal; the poem is refetched iff it is expanded; only the cache, the loading flags and the modal change |
| VersePage.SaveLeavesOpenPoemEmpty | src/pages/AddVerse.jsx:137-139 | saving a verse of an expanded, cached poem sends no request and leaves it with no verses as written, and refetches them when corrected |
| VersePage.SubmitAgreesWhenNotCached | src/pages/AddVerse.jsx:137-139 | the two submits agree whenever the poem was not cached or is collapsed |
| VersePage.TogglePoem | src/pages/AddVerse.jsx:164-172 | the poem's flag flips and no other flag changes; collapsing never fetches and changes nothing else; expanding a cached poem sends nothing and keeps the cache; expanding an uncached one fetches, caches decoded data and ends its loading; only the flags and the cache change |
| VersePage.ToggleBook | src/pages/AddVerse.jsx:160-162 | the book's flag flips, nothing else changes |
| VersePage.SubmitForcesRefetch | src/pages/AddVerse.jsx:132-172 | after a saved verse, expanding its collapsed poem sends a request |
| VersePage.SelectPoem | src/pages/AddVerse.jsx:145-154 | the form references the poem with a cleared verse number; the search shows the title; the dropdown closes; a cached poem's verses are used with no request and the cache unchanged; a miss sends a request, caches decoded data, ends loading, and uses the data or no verses; nothing else changes |
| VersePage.OpenAddModal | src/pages/AddVerse.jsx:76-82 | empty form, no poem, no verses to check against, add mode, modal open; cache, flags and lists are kept |
| VersePage.OpenEditModal | src/pages/AddVerse.jsx:84-95 | the form is the verse, edit mode, modal open; the search shows the title of the first poem with its identifier, or nothing; cached verses are used with no request; a miss sends a request, caches decoded data, ends loading, and uses the data or no verses; nothing else changes |
| VersePage.PoemSearchInput | src/pages/AddVerse.jsx:454-467 | empty text or text matching some title is taken and clears the poem reference; other text changes nothing; the dropdown opens |
| VersePage.DropdownPoems | src/pages/AddVerse.jsx:156-158 | the dropdown lists exactly the poems whose title contains the search text, in list order, each as often as in the list |
| VersePage.SelectedPoemStaysListed | src/pages/AddVerse.jsx:145-158 | a picked poem is still offered by the dropdown |
| VersePage.VerseTextInput | src/pages/AddVerse.jsx:68-74 | only the verse text changes |
| VersePage.IsDuplicate | src/pages/AddVerse.jsx:499-502 | a number is a duplicate iff some verse of the poem has the parsed number and another identifier |
| VersePage.VerseNumberInput | src/pages/AddVerse.jsx:496-507 | the form takes the text; the validity message names the duplicate number, or is empty |
| VersePage.DuplicateOfTypedNumber | src/pages/AddVerse.jsx:499-502 | typing n flags a duplicate iff another verse of the poem is numbered n |
| VersePage.EditedVerseNeverConflicts | src/pages/AddVerse.jsx:499-502 | the edited verse never conflicts with itself, and an empty input (NaN) is never flagged |
| VersePage.FractionReadsAsItsIntegerPart | src/pages/AddVerse.jsx:499-502 | a number input holding n followed by a fraction or an exponent ("2.5", "2e3") is a duplicate iff n would be |
| VersePage.DuplicateExample | src/pages/AddVerse.jsx:499-507 | with verses 1 and 2, a new verse 2 is flagged and 3 is not |
| VersePage.Insert | src/pages/AddVerse.jsx:183 | inserting into a sorted list gives a sorted list with the same verses plus the new one |
| VersePage.SortByNumber | src/pages/AddVerse.jsx:182-183 | ascending by verse number, a permutation of the input |
| VersePage.SortStable | src/pages/AddVerse.jsx:182-183 | verses with the same number keep their relative order |
| VersePage.GroupedData | src/pages/AddVerse.jsx:175-188 | every group has poems and belongs to a listed book |
| VersePage.GroupedDataBooks | src/pages/AddVerse.jsx:175-188 | the groups' books are exactly the books with at least one poem, in book order |
| VersePage.GroupedDataPoems | src/pages/AddVerse.jsx:177-185 | each group holds exactly its book's poems, in list order |
| VersePage.GroupedDataVerses | src/pages/AddVerse.jsx:180-185 | each poem's verses are its cached verses, or none, sorted by number; it is loading iff its flag is set |
| Seqs.Filter | src/pages/AddBook.jsx:72-76 | the kept elements are exactly those passing the test, as an order-preserving subsequence |
| Seqs.Any | src/pages/AddVerse.jsx:500-502 | true iff some element passes the test |
| Seqs.Find | src/pages/AddPoem.jsx:126 | the first element passing the test, or nothing iff none does |
| Seqs.RemoveById | src/pages/AddBook.jsx:46 | keeps exactly the elements with another identifier, in order and each as often as in the input; an absent identifier keeps the list |
| Seqs.FilterCount | src/pages/AddBook.jsx:72-76 | `filter` keeps every passing value as often as it occurs and drops every other one |
| Seqs.FilterIdempotent | src/pages/AddBook.jsx:72-76 | filtering twice with the same test is filtering once |
| Seqs.MapFilterMap | src/pages/AddVerse.jsx:175-188 | mapping, filtering the images and mapping back is filtering the list itself |
| Text.ToLower | src/pages/AddBook.jsx:73 | same length; each capital letter becomes its small letter, every other character stays; no capital letter is left |
| Text.ToUpper | src/pages/AddPoet.jsx:157 | same length; each small letter becomes its capital letter, every other character stays; no small letter is left |
| Text.Matches | src/pages/AddBook.jsx:73-75 | the field matches iff the term occurs in it at some index when the two are compared letter by letter without case |
| Text.Includes | src/pages/AddBook.jsx:73 | `includes` holds iff the term occurs at some index |
| Text.MatchesIgnoresCase | src/pages/AddBook.jsx:73-75 | the case of the term and of the field does not change a match |
| Text.MatchesInfix | src/pages/AddPoet.jsx:85 | a field matches every piece of itself |
| JsValues.TextOr | src/pages/AddPoet.jsx:159 | `text || fallback`: a non-empty text shows as itself, a missing or empty one as the fallback, so a non-empty fallback never leaves the cell empty |
| JsValues.ToDecimal | src/pages/AddVerse.jsx:504 | `String(n)`: non-empty, a minus sign exactly for negatives, digits otherwise |
| JsValues.DigitsRoundTrip | src/pages/AddVerse.jsx:504 | the decimal spelling of n denotes n |
| JsValues.ParseIntToDecimal | src/pages/AddVerse.jsx:499 | `parseInt` reads back every integer `String` writes |
| JsValues.ParseInt | src/pages/AddVerse.jsx:499 | text with no digit, the cleared input among it, parses to NaN; a plain run of digits parses to the number it spells; how it stops at the first non-digit is JsValues.ParseIntStopsAtNonDigit |
| JsValues.ParseIntStopsAtNonDigit | src/pages/AddVerse.jsx:499 | `parseInt` reads the leading integer and ignores everything after its last digit: "2.5" reads as 2 and "1e3" as 1 |
| JsValues.LeadingDigitsStops | src/pages/AddVerse.jsx:499 | the run of digits `parseInt` takes ends at the first character that is not a digit |
| JsValues.PropertyKey | src/pages/AddVerse.jsx:33-43 | a number keys its decimal spelling, which `parseInt` reads back, with no sign exactly when it is not negative; `undefined` and `null` key digit-free words; a string keys itself |
| JsValues.NumberKeysInjective | src/pages/AddVerse.jsx:43 | two numbers index the same cache entry iff they are equal |

## Findings

| source | as written | input that shows it | evidently intended | confidence | as-written member | corrected member |
|---|---|---|---|---|---|---|
| src/pages/AddPoem.jsx:69 | the edit dialog looks the poet up by a `poet_id` field; poets from the service carry `poetId`, so the lookup compares `undefined` with the poem's poet reference | poets `[Hafiz, poetId 1]`, editing a poem with poet reference 1: the poet search opens empty | look the poet up by `poetId`, as `getPoetName` does, and show "Hafiz" | medium, not executed | PoemPage.OpenEditModal, PoemPage.EditModalLosesPoetName | PoemPage.OpenEditModalByPoetId |
| src/pages/AddVerse.jsx:137-139 | after a save, an expanded poem is refetched through the `fetchVersesByPoemId` captured at render time, whose cache still holds the entry just dropped | editing a verse of an expanded poem whose verses are cached (the usual way to reach the edit dialog): no request is sent, and the poem is left with no entry, so it lists no verses | refetch the expanded poem's verses after dropping its entry | medium, not executed | VersePage.HandleSubmitAsWritten, VersePage.SaveLeavesOpenPoemEmpty | VersePage.HandleSubmit |

## Left out

- Rendering and markup: the JSX, the "Existing verses" hint, the `required`/`min` attributes of the form inputs, and the AddPoem dropdown's `birth_year` line. They only display state.
- Home, BookCard, Navbar, Layout and the routing in App: presentational, no logic to model.
- src/services/api.js and src/services/mockData.js: URL constants and unused static data. URLs are opaque strings here, written out where a page builds them.
- The mount-time loads of the book, poem, poet and verse pages (`useEffect` fetches): each is a plain "decoded JSON replaces the list" step. The same step is modelled where a submit reloads a list.
- Browser side effects are parameters or results. `window.confirm` is a `confirmed` flag. `alert` is `PoetPage.SubmitResult.alert`. `navigate` is `LoginPage.SubmitResult.redirected`. `console` output is dropped.
- Asynchrony: each handler's calls are settled in one step with given outcomes. Interleaved promises, setState batching and last-write-wins races are not modelled.
- Text.ToLower / Text.ToUpper / PoetPage.AvatarLetter: only ASCII letters change case, one character for one. JavaScript's full Unicode case mapping is not modelled: `'é'.toUpperCase()` is `"É"` and `'ß'.toUpperCase()` is the two letters `"SS"`, so the avatar can be longer than one character in the source. `charAt(0)` takes one UTF-16 code unit, while the model takes a whole character, which differs for a name starting outside the Basic Multilingual Plane. Text.MatchesIgnoresCase, BookPage.SearchIgnoresCase and PoetPage.SearchIgnoresCase hold under this ASCII mapping.
- JsValues.ParseInt: only decimal digits are read, and only the white space of `IsSpace` is skipped. The `0x` prefix and the other Unicode space separators (U+1680, U+2000 to U+200A, U+202F, U+205F, U+3000) that `parseInt` also skips cannot be typed into a number input. Results are exact unbounded integers, while `parseInt` rounds to a double past 2^53.
- JsValues.ToDecimal / JsValues.ParseInt: `String(n)` and `parseInt` work on doubles, so they agree with this model only for |n| < 2^53; from 1e21 on `String` switches to exponent notation such as "1e+21". JsValues.ParseIntToDecimal, JsValues.NumberKeysInjective and JsValues.PropertyKey inherit that bound. Identifiers and verse numbers of this system stay far below it.
- VersePage.GroupedData: `.sort` on line 183 of src/pages/AddVerse.jsx sorts the cached array in place during render, so the cache entry itself becomes sorted. The model sorts a copy and leaves the cache as it was; what the page shows is the same.
- BookPage.FilteredBooks / PoemPage.FilteredPoems / PoemPage.FilteredBooks: `Title`, `Author`, `Genre` and `title` are plain strings here. A record whose field is `null` makes the source's `toLowerCase` call throw a TypeError, which these models do not show.
- JsValues.Value: fractional numbers are not modelled. Identifiers, years and verse numbers are integers in this system.
- AuthService.AuthFetch: header names are compared exactly, as the object spread does. The later case-insensitive merge inside `fetch`'s Headers object is not modelled.
- VersePage.BeginFetch: every cache entry is a list, so every entry is truthy. A falsy non-array JSON body (such as `null`) cached for a poem would count as a miss in the source.
- PoemPage.SelectPoet / PoemPage.OpenEditModal / PoemPage.OpenEditModalByPoetId: a poet with a `null` name puts `""` into the poet search box. The source puts `null` there. The page cannot reach that state, because `filteredPoets` already throws during render (src/pages/AddPoem.jsx:117-119).
- Non-array JSON bodies in general: a decoded reply is always a list of records of the page's type.
