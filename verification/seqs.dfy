/** The array operations the pages use on their lists: `filter`, `some`, `find`
    and `map`, with the facts about them the pages' contracts are built on. */
module Seqs {
  import opened JsValues

  /** `a` is `b` with some elements left out, the rest in their order. */
  ghost predicate SubseqOf<T>(a: seq<T>, b: seq<T>)
    decreases |b|
  {
    if a == [] then true
    else if b == [] then false
    else (a[0] == b[0] && SubseqOf(a[1..], b[1..])) || SubseqOf(a, b[1..])
  }

  /** `xs.filter(p)` */
  function Filter<T>(xs: seq<T>, p: T -> bool): (r: seq<T>)
    ensures |r| <= |xs|
    ensures forall i :: 0 <= i < |r| ==> r[i] in xs && p(r[i])
    ensures forall i :: 0 <= i < |xs| && p(xs[i]) ==> xs[i] in r
    ensures SubseqOf(r, xs)
    decreases |xs|
  {
    if xs == [] then []
    else if p(xs[0]) then [xs[0]] + Filter(xs[1..], p)
    else Filter(xs[1..], p)
  }

  /** `filter` keeps every passing value as often as it occurs in the list and
      drops every other one. */
  lemma {:induction false} FilterCount<T>(xs: seq<T>, p: T -> bool)
    ensures forall i :: 0 <= i < |xs| ==>
      multiset(Filter(xs, p))[xs[i]] == if p(xs[i]) then multiset(xs)[xs[i]] else 0
    decreases |xs|
  {
    if xs != [] {
      FilterCount(xs[1..], p);
      assert xs == [xs[0]] + xs[1..];
      var rest := Filter(xs[1..], p);
      forall i | 0 <= i < |xs|
        ensures multiset(Filter(xs, p))[xs[i]] == if p(xs[i]) then multiset(xs)[xs[i]] else 0
      {
        var x := xs[i];
        if x !in xs[1..] {
          assert multiset(xs[1..])[x] == 0;
          assert x !in rest;
          assert multiset(rest)[x] == 0;
        } else {
          var k :| 0 <= k < |xs[1..]| && xs[1..][k] == x;
          assert multiset(rest)[xs[1..][k]] == if p(x) then multiset(xs[1..])[x] else 0;
        }
      }
    }
  }

  /** `xs.some(p)` */
  function Any<T>(xs: seq<T>, p: T -> bool): (r: bool)
    ensures r <==> exists i :: 0 <= i < |xs| && p(xs[i])
    decreases |xs|
  {
    if xs == [] then false
    else p(xs[0]) || Any(xs[1..], p)
  }

  /** `xs.find(p)`: the first element satisfying `p`, or `undefined`. */
  function Find<T>(xs: seq<T>, p: T -> bool): (r: Option<T>)
    ensures r.Some? <==> exists i :: 0 <= i < |xs| && p(xs[i])
    ensures r.Some? ==> exists i :: 0 <= i < |xs| && xs[i] == r.value && p(xs[i])
                          && forall j :: 0 <= j < i ==> !p(xs[j])
    decreases |xs|
  {
    if xs == [] then None
    else if p(xs[0]) then Some(xs[0])
    else
      var r := Find(xs[1..], p);
      assert forall i :: 1 <= i < |xs| ==> xs[i] == xs[1..][i - 1];
      r
  }

  /** `xs.map(f)` */
  function Map<T, U>(xs: seq<T>, f: T -> U): (r: seq<U>)
    ensures |r| == |xs|
    ensures forall i :: 0 <= i < |xs| ==> r[i] == f(xs[i])
  {
    seq(|xs|, i requires 0 <= i < |xs| => f(xs[i]))
  }

  /** `xs.filter(x => key(x) !== id)`: the delete handlers' local removal. */
  function RemoveById<T>(xs: seq<T>, key: T -> int, id: int): (r: seq<T>)
    ensures forall i :: 0 <= i < |r| ==> key(r[i]) != id && r[i] in xs
    ensures forall i :: 0 <= i < |xs| && key(xs[i]) != id ==> xs[i] in r
    ensures SubseqOf(r, xs)
    // every other element is kept as often as it occurs
    ensures forall i :: 0 <= i < |xs| ==>
      multiset(r)[xs[i]] == if key(xs[i]) != id then multiset(xs)[xs[i]] else 0
    ensures (forall i :: 0 <= i < |xs| ==> key(xs[i]) != id) ==> r == xs
  {
    var keep := (x: T) => key(x) != id;
    var r := Filter(xs, keep);
    FilterCount(xs, keep);
    assert (forall i :: 0 <= i < |xs| ==> keep(xs[i])) ==> r == xs by {
      if forall i :: 0 <= i < |xs| ==> keep(xs[i]) {
        FilterKeepsAll(xs, keep);
      }
    }
    r
  }

  /** Filtering a list twice with the same test gives the once-filtered list. */
  lemma {:induction false} FilterIdempotent<T>(xs: seq<T>, p: T -> bool)
    ensures Filter(Filter(xs, p), p) == Filter(xs, p)
    decreases |xs|
  {
    if xs != [] {
      FilterIdempotent(xs[1..], p);
      if p(xs[0]) {
        assert Filter(xs, p)[1..] == Filter(xs[1..], p);
      }
    }
  }

  /** A test every element passes keeps the whole list. */
  lemma {:induction false} FilterKeepsAll<T>(xs: seq<T>, p: T -> bool)
    requires forall i :: 0 <= i < |xs| ==> p(xs[i])
    ensures Filter(xs, p) == xs
    decreases |xs|
  {
    if xs != [] {
      FilterKeepsAll(xs[1..], p);
    }
  }

  /** Filtering distributes over concatenation: the kept elements of a list
      come in the order of the list. */
  lemma {:induction false} FilterConcat<T>(xs: seq<T>, ys: seq<T>, p: T -> bool)
    ensures Filter(xs + ys, p) == Filter(xs, p) + Filter(ys, p)
    decreases |xs|
  {
    if xs == [] {
      assert xs + ys == ys;
    } else {
      assert (xs + ys)[1..] == xs[1..] + ys;
      FilterConcat(xs[1..], ys, p);
    }
  }

  /** Tests that agree on every element of the list filter it alike. */
  lemma {:induction false} FilterCongruent<T>(xs: seq<T>, p: T -> bool, q: T -> bool)
    requires forall i :: 0 <= i < |xs| ==> p(xs[i]) == q(xs[i])
    ensures Filter(xs, p) == Filter(xs, q)
    decreases |xs|
  {
    if xs != [] {
      FilterCongruent(xs[1..], p, q);
    }
  }

  /** Mapping a list, filtering the images and mapping back is filtering the
      list itself, when mapping back recovers each element and the image
      test agrees with a test on the element. */
  lemma {:induction false} MapFilterMap<T, U>(xs: seq<T>, f: T -> U, keep: U -> bool, back: U -> T, has: T -> bool)
    requires forall i :: 0 <= i < |xs| ==> back(f(xs[i])) == xs[i] && keep(f(xs[i])) == has(xs[i])
    ensures Map(Filter(Map(xs, f), keep), back) == Filter(xs, has)
    decreases |xs|
  {
    if xs != [] {
      var images := Map(xs, f);
      assert images[1..] == Map(xs[1..], f);
      MapFilterMap(xs[1..], f, keep, back, has);
      var rest := Filter(images[1..], keep);
      if keep(images[0]) {
        assert Map([images[0]] + rest, back) == [back(images[0])] + Map(rest, back);
      }
    }
  }
}
