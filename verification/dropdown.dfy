/** The filterable dropdowns of the poem and verse forms: the options are
    the entries whose name contains the typed text, and the search box only
    takes text that leaves at least one option (or is empty). */
module Dropdown {
  import Seqs
  import Text

  function MatchesFor<T>(name: T -> string, text: string): T -> bool {
    (x: T) => Text.Matches(name(x), text)
  }

  /** The options offered for the typed text, in list order; `name` gives an
      entry's label. */
  function Matching<T>(items: seq<T>, name: T -> string, text: string): (r: seq<T>)
    ensures forall i :: 0 <= i < |r| ==> r[i] in items
    ensures forall i :: 0 <= i < |items| ==> (items[i] in r <==> Text.Matches(name(items[i]), text))
    ensures Seqs.SubseqOf(r, items)
    ensures forall i :: 0 <= i < |items| && items[i] in r ==> multiset(r)[items[i]] == multiset(items)[items[i]]
  {
    Seqs.FilterCount(items, MatchesFor(name, text));
    Seqs.Filter(items, MatchesFor(name, text))
  }

  /** The box's rule, `matching.length > 0 || text === ''`: accept the empty
      text and any text some name contains, ignoring case. */
  predicate Accepts<T>(items: seq<T>, name: T -> string, text: string)
    ensures Accepts(items, name, text) <==>
      text == "" || exists i :: 0 <= i < |items| && Text.Matches(name(items[i]), text)
  {
    var matching := Matching(items, name, text);
    assert (exists i :: 0 <= i < |items| && Text.Matches(name(items[i]), text)) ==> |matching| > 0 by {
      if exists i :: 0 <= i < |items| && Text.Matches(name(items[i]), text) {
        var i :| 0 <= i < |items| && Text.Matches(name(items[i]), text);
        assert items[i] in matching;
      }
    }
    assert |matching| > 0 ==> Text.Matches(name(matching[0]), text) && matching[0] in items;
    |matching| > 0 || text == ""
  }
}
