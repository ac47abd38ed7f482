/** The roots page (src/pages/AddRoot.jsx): the fetch handler's outcome
    state machine and the four-field search. */
module RootPage {
  import opened JsValues
  import opened Net
  import Seqs
  import Text
  import ReadOnlyList

  /** One entry of the roots list; every field may be missing. */
  datatype Root = Root(rootText: Option<string>, poetName: Option<string>,
                       poemTitle: Option<string>, bookTitle: Option<string>)

  const Msgs := ReadOnlyList.Messages("Failed to fetch roots", "Error fetching roots: ")

  /** `fetchRoots` from start to end. */
  function FetchRoots(s: ReadOnlyList.ListState<Root>, outcome: Loaded<seq<Root>>): (r: ReadOnlyList.ListState<Root>)
    ensures !r.loading
    ensures outcome.OkBody? ==> r.items == outcome.data && r.error == ""
    ensures outcome.ErrBody? ==>
      r.items == s.items && r.error == (if outcome.text != "" then outcome.text else "Failed to fetch roots")
    ensures outcome.Thrown? ==> r.items == s.items && r.error == "Error fetching roots: " + outcome.message
  {
    ReadOnlyList.Load(s, outcome, Msgs)
  }

  /** The search clause of the page. */
  predicate Shown(item: Root, term: string) {
    || ReadOnlyList.FieldShown(item.rootText, term)
    || ReadOnlyList.FieldShown(item.poetName, term)
    || ReadOnlyList.FieldShown(item.poemTitle, term)
    || ReadOnlyList.FieldShown(item.bookTitle, term)
  }

  /** `filteredRoots`: the entries one of whose four fields is a non-empty
      text containing the term, in list order. */
  function FilteredRoots(items: seq<Root>, term: string): (r: seq<Root>)
    ensures forall i :: 0 <= i < |r| ==> r[i] in items
    ensures forall i :: 0 <= i < |items| ==>
      (items[i] in r <==> exists f :: f in [items[i].rootText, items[i].poetName, items[i].poemTitle, items[i].bookTitle]
                                    && TruthyText(f) && Text.Matches(f.value, term))
    ensures Seqs.SubseqOf(r, items)
    ensures forall i :: 0 <= i < |items| && items[i] in r ==> multiset(r)[items[i]] == multiset(items)[items[i]]
  {
    var shown := (x: Root) => Shown(x, term);
    Seqs.FilterCount(items, shown);
    Seqs.Filter(items, shown)
  }

  /** An entry whose four fields are all missing or empty never shows, not
      even for the empty term. */
  lemma BlankEntryHidden(items: seq<Root>, term: string, item: Root)
    requires !TruthyText(item.rootText) && !TruthyText(item.poetName)
    requires !TruthyText(item.poemTitle) && !TruthyText(item.bookTitle)
    ensures item !in FilteredRoots(items, term)
  {
  }
}
