/** Case-insensitive substring search: `field.toLowerCase().includes(term.toLowerCase())`,
    the test every search box of the pages applies. Case mapping is ASCII. */
module Text {

  function LowerChar(c: char): char {
    if 'A' <= c <= 'Z' then ((c as int) + 32) as char else c
  }

  function UpperChar(c: char): char {
    if 'a' <= c <= 'z' then ((c as int) - 32) as char else c
  }

  predicate IsUpper(c: char) {
    'A' <= c <= 'Z'
  }

  predicate IsLower(c: char) {
    'a' <= c <= 'z'
  }

  /** `s.toLowerCase()`: each capital letter becomes its small letter, 32
      code points on; every other character stays. */
  function ToLower(s: string): (r: string)
    ensures |r| == |s|
    ensures forall i :: 0 <= i < |s| ==> r[i] == LowerChar(s[i])
    ensures forall i :: 0 <= i < |s| ==> if IsUpper(s[i]) then r[i] as int == s[i] as int + 32 && IsLower(r[i]) else r[i] == s[i]
    ensures forall i :: 0 <= i < |r| ==> !IsUpper(r[i])
  {
    seq(|s|, i requires 0 <= i < |s| => LowerChar(s[i]))
  }

  /** `s.toUpperCase()`: each small letter becomes its capital letter, 32
      code points back; every other character stays. */
  function ToUpper(s: string): (r: string)
    ensures |r| == |s|
    ensures forall i :: 0 <= i < |s| ==> r[i] == UpperChar(s[i])
    ensures forall i :: 0 <= i < |s| ==> if IsLower(s[i]) then r[i] as int == s[i] as int - 32 && IsUpper(r[i]) else r[i] == s[i]
    ensures forall i :: 0 <= i < |r| ==> !IsLower(r[i])
  {
    seq(|s|, i requires 0 <= i < |s| => UpperChar(s[i]))
  }

  /** `t` occurs in `s` starting at index `i`. */
  ghost predicate OccursAt(s: string, t: string, i: int) {
    0 <= i && i + |t| <= |s| && s[i..i + |t|] == t
  }

  /** `s.includes(t)` */
  function Includes(s: string, t: string): (r: bool)
    ensures r <==> exists i :: OccursAt(s, t, i)
    decreases |s|
  {
    if |t| > |s| then
      false
    else if s[..|t|] == t then
      assert OccursAt(s, t, 0);
      true
    else
      var r := Includes(s[1..], t);
      assert forall j :: OccursAt(s[1..], t, j) ==> OccursAt(s, t, j + 1) by {
        forall j | OccursAt(s[1..], t, j) ensures OccursAt(s, t, j + 1) {
          assert s[1..][j..j + |t|] == s[j + 1..j + 1 + |t|];
        }
      }
      assert forall j :: OccursAt(s, t, j) ==> j > 0 && OccursAt(s[1..], t, j - 1) by {
        forall j | OccursAt(s, t, j) ensures j > 0 && OccursAt(s[1..], t, j - 1) {
          assert j != 0;
          assert s[1..][j - 1..j - 1 + |t|] == s[j..j + |t|];
        }
      }
      r
  }

  /** The term, compared letter by letter without regard to case, lies in
      the field starting at index `i`. */
  ghost predicate MatchesAt(field: string, term: string, i: int) {
    0 <= i && i + |term| <= |field| && forall j :: 0 <= j < |term| ==> LowerChar(field[i + j]) == LowerChar(term[j])
  }

  /** The search rule of every list page: the lower-cased field contains the
      lower-cased term, that is, the term occurs somewhere in the field when
      case is ignored. */
  predicate Matches(field: string, term: string)
    ensures Matches(field, term) <==> exists i :: MatchesAt(field, term, i)
  {
    var low, t := ToLower(field), ToLower(term);
    assert forall i :: OccursAt(low, t, i) <==> MatchesAt(field, term, i) by {
      forall i ensures OccursAt(low, t, i) <==> MatchesAt(field, term, i) {
        if 0 <= i && i + |t| <= |low| {
          assert OccursAt(low, t, i) <==> forall j :: 0 <= j < |t| ==> low[i..i + |t|][j] == t[j];
        }
      }
    }
    Includes(low, t)
  }

  /** The empty term matches every field. */
  lemma EmptyTermMatches(field: string)
    ensures Matches(field, "")
  {
    assert OccursAt(ToLower(field), ToLower(""), 0);
  }

  lemma LowerAfterUpper(s: string)
    ensures ToLower(ToUpper(s)) == ToLower(s)
    ensures ToLower(ToLower(s)) == ToLower(s)
  {
  }

  /** Strings that differ only in case match the same fields. */
  lemma SameLower(a: string, b: string)
    requires |a| == |b|
    requires forall i :: 0 <= i < |a| ==> LowerChar(a[i]) == LowerChar(b[i])
    ensures ToLower(a) == ToLower(b)
    ensures forall field :: Matches(field, a) == Matches(field, b)
  {
  }

  /** Matching ignores the case of the term and of the field. */
  lemma MatchesIgnoresCase(field: string, term: string)
    ensures Matches(field, ToUpper(term)) == Matches(field, term)
    ensures Matches(field, ToLower(term)) == Matches(field, term)
    ensures Matches(ToUpper(field), term) == Matches(field, term)
  {
    LowerAfterUpper(term);
    LowerAfterUpper(field);
  }

  /** A field matches every term it literally contains, the field itself among them. */
  lemma MatchesInfix(field: string, i: int, j: int)
    requires 0 <= i <= j <= |field|
    ensures Matches(field, field[i..j])
  {
    var low := ToLower(field);
    assert ToLower(field[i..j]) == low[i..j];
    assert OccursAt(low, ToLower(field[i..j]), i);
  }
}
