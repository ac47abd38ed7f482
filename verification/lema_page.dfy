/** The lemas page (src/pages/AddLema.jsx): the fetch handler's outcome
    state machine and the four-field search. */
module LemaPage {
  import opened JsValues
  import opened Net
  import Seqs
  import Text
  import ReadOnlyList

  /** One entry of the lemas list; every field may be missing. */
  datatype Lema = Lema(lemmaText: Option<string>, poetName: Option<string>,
                       poemTitle: Option<string>, bookTitle: Option<string>)

  const Msgs := ReadOnlyList.Messages("Failed to fetch lemas", "Error fetching lemas: ")

  /** `fetchLemas` from start to end. */
  function FetchLemas(s: ReadOnlyList.ListState<Lema>, outcome: Loaded<seq<Lema>>): (r: ReadOnlyList.ListState<Lema>)
    ensures !r.loading
    ensures outcome.OkBody? ==> r.items == outcome.data && r.error == ""
    ensures outcome.ErrBody? ==>
      r.items == s.items && r.error == (if outcome.text != "" then outcome.text else "Failed to fetch lemas")
    ensures outcome.Thrown? ==> r.items == s.items && r.error == "Error fetching lemas: " + outcome.message
  {
    ReadOnlyList.Load(s, outcome, Msgs)
  }

  /** The search clause of the page. */
  predicate Shown(item: Lema, term: string) {
    || ReadOnlyList.FieldShown(item.lemmaText, term)
    || ReadOnlyList.FieldShown(item.poetName, term)
    || ReadOnlyList.FieldShown(item.poemTitle, term)
    || ReadOnlyList.FieldShown(item.bookTitle, term)
  }

  /** `filteredLemas`: the entries one of whose four fields is a non-empty
      text containing the term, in list order. */
  function FilteredLemas(items: seq<Lema>, term: string): (r: seq<Lema>)
    ensures forall i :: 0 <= i < |r| ==> r[i] in items
    ensures forall i :: 0 <= i < |items| ==>
      (items[i] in r <==> exists f :: f in [items[i].lemmaText, items[i].poetName, items[i].poemTitle, items[i].bookTitle]
                                    && TruthyText(f) && Text.Matches(f.value, term))
    ensures Seqs.SubseqOf(r, items)
    ensures forall i :: 0 <= i < |items| && items[i] in r ==> multiset(r)[items[i]] == multiset(items)[items[i]]
  {
    var shown := (x: Lema) => Shown(x, term);
    Seqs.FilterCount(items, shown);
    Seqs.Filter(items, shown)
  }

  /** An entry whose four fields are all missing or empty never shows, not
      even for the empty term. */
  lemma BlankEntryHidden(items: seq<Lema>, term: string, item: Lema)
    requires !TruthyText(item.lemmaText) && !TruthyText(item.poetName)
    requires !TruthyText(item.poemTitle) && !TruthyText(item.bookTitle)
    ensures item !in FilteredLemas(items, term)
  {
  }
}
