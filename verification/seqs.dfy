/** Sequence facts behind `Array.prototype.filter`, `includes` and the
    duplicate-free variable list of the template form. */
module Seqs {

  /** `a` can be obtained from `b` by deleting elements, keeping the order of
      the rest. Greedy matching from the front decides this exactly. */
  predicate SubsequenceOf<T(==)>(a: seq<T>, b: seq<T>)
    decreases |b|
  {
    if a == [] then true
    else if b == [] then false
    else if a[0] == b[0] then SubsequenceOf(a[1..], b[1..])
    else SubsequenceOf(a, b[1..])
  }

  /** No element occurs twice. */
  predicate NoDup<T(==)>(xs: seq<T>) {
    forall i, j :: 0 <= i < j < |xs| ==> xs[i] != xs[j]
  }

  /** `Array.prototype.filter`: the elements of `xs` that satisfy `p`, in
      their original order. */
  function Filter<T(==)>(p: T -> bool, xs: seq<T>): (r: seq<T>)
    ensures |r| <= |xs|
    ensures forall i :: 0 <= i < |r| ==> p(r[i])
    ensures forall i :: 0 <= i < |xs| ==> (xs[i] in r <==> p(xs[i]))
    ensures forall i :: 0 <= i < |r| ==> r[i] in xs
  {
    if xs == [] then []
    else if p(xs[0]) then
      var rest := Filter(p, xs[1..]);
      assert ([xs[0]] + rest)[1..] == rest;
      [xs[0]] + rest
    else
      Filter(p, xs[1..])
  }

  /** Filtering keeps the order: its result is a subsequence of the input. */
  lemma {:induction false} FilterIsSubsequence<T>(p: T -> bool, xs: seq<T>)
    ensures SubsequenceOf(Filter(p, xs), xs)
  {
    if xs != [] {
      FilterIsSubsequence(p, xs[1..]);
      var rest := Filter(p, xs[1..]);
      if p(xs[0]) {
        assert ([xs[0]] + rest)[1..] == rest;
      }
    }
  }

  /** Filtering distributes over concatenation. */
  lemma {:induction false} FilterConcat<T>(p: T -> bool, a: seq<T>, b: seq<T>)
    ensures Filter(p, a + b) == Filter(p, a) + Filter(p, b)
  {
    if a == [] {
      assert a + b == b;
    } else {
      var ab := a + b;
      assert ab[0] == a[0];
      assert ab[1..] == a[1..] + b;
      FilterConcat(p, a[1..], b);
      var fa, fb := Filter(p, a[1..]), Filter(p, b);
      if p(a[0]) {
        assert [a[0]] + (fa + fb) == ([a[0]] + fa) + fb;
      }
    }
  }

  /** When every element passes, filtering changes nothing. */
  lemma {:induction false} FilterKeepsAll<T>(p: T -> bool, xs: seq<T>)
    requires forall i :: 0 <= i < |xs| ==> p(xs[i])
    ensures Filter(p, xs) == xs
  {
    if xs != [] {
      FilterKeepsAll(p, xs[1..]);
    }
  }

  /** Filtering out one rejected element between two runs of accepted ones
      closes the gap. */
  lemma FilterRemoveOne<T>(p: T -> bool, before: seq<T>, x: T, after: seq<T>)
    requires forall i :: 0 <= i < |before| ==> p(before[i])
    requires !p(x)
    requires forall i :: 0 <= i < |after| ==> p(after[i])
    ensures Filter(p, before + [x] + after) == before + after
  {
    var front := before + [x];
    FilterConcat(p, front, after);
    FilterConcat(p, before, [x]);
    FilterKeepsAll(p, before);
    FilterKeepsAll(p, after);
    assert [x][1..] == [];
    assert Filter(p, [x]) == [];
    assert Filter(p, front) == before;
  }

  /** When no element passes, filtering leaves nothing. */
  lemma {:induction false} FilterDropsAll<T>(p: T -> bool, xs: seq<T>)
    requires forall i :: 0 <= i < |xs| ==> !p(xs[i])
    ensures Filter(p, xs) == []
  {
    if xs != [] {
      FilterDropsAll(p, xs[1..]);
    }
  }

  /** Filtering a duplicate-free sequence gives a duplicate-free sequence. */
  lemma {:induction false} FilterNoDup<T>(p: T -> bool, xs: seq<T>)
    requires NoDup(xs)
    ensures NoDup(Filter(p, xs))
  {
    if xs != [] {
      FilterNoDup(p, xs[1..]);
    }
  }

  /** Two filters whose predicates agree on every element of `xs` give the
      same result. */
  lemma {:induction false} FilterAgree<T>(p: T -> bool, q: T -> bool, xs: seq<T>)
    requires forall i :: 0 <= i < |xs| ==> p(xs[i]) == q(xs[i])
    ensures Filter(p, xs) == Filter(q, xs)
  {
    if xs != [] {
      FilterAgree(p, q, xs[1..]);
    }
  }

  /** A filter whose predicate is implied by another's keeps more: the
      stricter result is a subsequence of the looser one. */
  lemma {:induction false} FilterNarrows<T>(p: T -> bool, q: T -> bool, xs: seq<T>)
    requires forall i :: 0 <= i < |xs| ==> p(xs[i]) ==> q(xs[i])
    ensures SubsequenceOf(Filter(p, xs), Filter(q, xs))
  {
    if xs != [] {
      FilterNarrows(p, q, xs[1..]);
      var a, b := Filter(p, xs[1..]), Filter(q, xs[1..]);
      if p(xs[0]) {
        assert ([xs[0]] + a)[1..] == a;
        assert ([xs[0]] + b)[1..] == b;
      } else if q(xs[0]) {
        SubsequenceSkip(a, xs[0], b);
      }
    }
  }

  /** Prepending an element the subsequence does not start with keeps the
      relation. */
  lemma {:induction false} SubsequenceSkip<T>(a: seq<T>, x: T, b: seq<T>)
    requires SubsequenceOf(a, b)
    ensures SubsequenceOf(a, [x] + b)
    decreases |b|, 1
  {
    if a != [] && a[0] == x {
      assert ([x] + b)[1..] == b;
      SubsequenceDropFirst(a, b);
    } else if a != [] {
      assert ([x] + b)[1..] == b;
    }
  }

  /** Dropping the first element of a subsequence keeps it a subsequence. */
  lemma {:induction false} SubsequenceDropFirst<T>(a: seq<T>, b: seq<T>)
    requires a != [] && SubsequenceOf(a, b)
    ensures SubsequenceOf(a[1..], b)
    decreases |b|, 0
  {
    if a[0] == b[0] {
      SubsequenceSkip(a[1..], b[0], b[1..]);
      assert [b[0]] + b[1..] == b;
    } else {
      SubsequenceDropFirst(a, b[1..]);
      SubsequenceSkip(a[1..], b[0], b[1..]);
      assert [b[0]] + b[1..] == b;
    }
  }
}
