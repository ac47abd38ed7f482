/** The load state machine shared by the three read-only pages (roots,
    lemmas, tokens): each keeps a list, a loading flag and an error text, and
    its fetch handler differs from the others only in two messages. */
module ReadOnlyList {
  import opened JsValues
  import opened Net
  import Text

  datatype ListState<T> = ListState(items: seq<T>, loading: bool, error: string)

  /** The state a page mounts with: nothing loaded, loading, no error. */
  function Initial<T>(): ListState<T> {
    ListState([], true, "")
  }

  /** The messages that differ from page to page. */
  datatype Messages = Messages(fallback: string, thrownPrefix: string)

  /** The synchronous start of the fetch handler. */
  function StartLoad<T>(s: ListState<T>): (r: ListState<T>)
    ensures r.loading && r.error == "" && r.items == s.items
  {
    s.(loading := true, error := "")
  }

  /** The rest of the fetch handler once the outcome is known: an ok response
      replaces the list, a failure keeps it and sets the error, and loading
      ends on every path. */
  function FinishLoad<T>(s: ListState<T>, outcome: Loaded<seq<T>>, msgs: Messages): (r: ListState<T>)
    ensures !r.loading
    ensures outcome.OkBody? ==> r.items == outcome.data && r.error == s.error
    ensures outcome.ErrBody? ==>
      r.items == s.items && r.error == (if outcome.text != "" then outcome.text else msgs.fallback)
    ensures outcome.Thrown? ==> r.items == s.items && r.error == msgs.thrownPrefix + outcome.message
  {
    match outcome
    case OkBody(data) => s.(items := data, loading := false)
    case ErrBody(text) => s.(error := if text != "" then text else msgs.fallback, loading := false)
    case Thrown(message) => s.(error := msgs.thrownPrefix + message, loading := false)
  }

  /** The whole fetch handler. */
  function Load<T>(s: ListState<T>, outcome: Loaded<seq<T>>, msgs: Messages): (r: ListState<T>)
    ensures !r.loading
    ensures outcome.OkBody? ==> r.items == outcome.data && r.error == ""
    ensures !outcome.OkBody? ==> r.items == s.items
    ensures outcome.ErrBody? ==> r.error == (if outcome.text != "" then outcome.text else msgs.fallback)
    ensures outcome.Thrown? ==> r.error == msgs.thrownPrefix + outcome.message
  {
    FinishLoad(StartLoad(s), outcome, msgs)
  }

  /** The guard of every search clause on these pages: the field is truthy
      (present and not empty) and contains the term, ignoring case. */
  predicate FieldShown(field: Option<string>, term: string) {
    TruthyText(field) && Text.Matches(field.value, term)
  }

  /** A missing or empty field never shows, whatever the term. */
  lemma BlankFieldNeverShown(field: Option<string>, term: string)
    requires !TruthyText(field)
    ensures !FieldShown(field, term)
  {
  }

  /** With the empty term every non-empty field shows. */
  lemma EmptyTermShowsEveryText(field: Option<string>)
    requires TruthyText(field)
    ensures FieldShown(field, "")
  {
    Text.EmptyTermMatches(field.value);
  }
}
