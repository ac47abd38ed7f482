/** The tokens page (src/pages/AddToken.jsx): the fetch handler's outcome
    state machine and the four-field search. */
module TokenPage {
  import opened JsValues
  import opened Net
  import Seqs
  import Text
  import ReadOnlyList

  /** One entry of the tokens list; every field may be missing. */
  datatype Token = Token(tokenText: Option<string>, poetName: Option<string>,
                       poemTitle: Option<string>, bookTitle: Option<string>)

  const Msgs := ReadOnlyList.Messages("Failed to fetch tokens", "Error fetching tokens: ")

  /** `fetchTokens` from start to end. */
  function FetchTokens(s: ReadOnlyList.ListState<Token>, outcome: Loaded<seq<Token>>): (r: ReadOnlyList.ListState<Token>)
    ensures !r.loading
    ensures outcome.OkBody? ==> r.items == outcome.data && r.error == ""
    ensures outcome.ErrBody? ==>
      r.items == s.items && r.error == (if outcome.text != "" then outcome.text else "Failed to fetch tokens")
    ensures outcome.Thrown? ==> r.items == s.items && r.error == "Error fetching tokens: " + outcome.message
  {
    ReadOnlyList.Load(s, outcome, Msgs)
  }

  /** The search clause of the page. */
  predicate Shown(item: Token, term: string) {
    || ReadOnlyList.FieldShown(item.tokenText, term)
    || ReadOnlyList.FieldShown(item.poetName, term)
    || ReadOnlyList.FieldShown(item.poemTitle, term)
    || ReadOnlyList.FieldShown(item.bookTitle, term)
  }

  /** `filteredTokens`: the entries one of whose four fields is a non-empty
      text containing the term, in list order. */
  function FilteredTokens(items: seq<Token>, term: string): (r: seq<Token>)
    ensures forall i :: 0 <= i < |r| ==> r[i] in items
    ensures forall i :: 0 <= i < |items| ==>
      (items[i] in r <==> exists f :: f in [items[i].tokenText, items[i].poetName, items[i].poemTitle, items[i].bookTitle]
                                    && TruthyText(f) && Text.Matches(f.value, term))
    ensures Seqs.SubseqOf(r, items)
    ensures forall i :: 0 <= i < |items| && items[i] in r ==> multiset(r)[items[i]] == multiset(items)[items[i]]
  {
    var shown := (x: Token) => Shown(x, term);
    Seqs.FilterCount(items, shown);
    Seqs.Filter(items, shown)
  }

  /** An entry whose four fields are all missing or empty never shows, not
      even for the empty term. */
  lemma BlankEntryHidden(items: seq<Token>, term: string, item: Token)
    requires !TruthyText(item.tokenText) && !TruthyText(item.poetName)
    requires !TruthyText(item.poemTitle) && !TruthyText(item.bookTitle)
    ensures item !in FilteredTokens(items, term)
  {
  }
}
