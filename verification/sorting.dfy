/** `sort.Slice` and `sort.Strings` as their callers may rely on them: the result is a sorted
    permutation of the argument, and nothing is promised about elements that compare equal. */
module Sorting {

  ghost predicate Total<T(!new)>(leq: (T, T) -> bool) {
    forall x, y :: leq(x, y) || leq(y, x)
  }

  ghost predicate Transitive<T(!new)>(leq: (T, T) -> bool) {
    forall x, y, z :: leq(x, y) && leq(y, z) ==> leq(x, z)
  }

  ghost predicate SortedBy<T>(s: seq<T>, leq: (T, T) -> bool) {
    forall i :: 0 < i < |s| ==> leq(s[i - 1], s[i])
  }

  /** Insertion behind every element at the end that does not exceed `x`. */
  function Insert<T(!new)>(s: seq<T>, x: T, leq: (T, T) -> bool): (r: seq<T>)
    requires Total(leq) && SortedBy(s, leq)
    ensures |r| == |s| + 1 && (r[|s|] == x || (s != [] && r[|s|] == s[|s| - 1]))
    ensures SortedBy(r, leq)
  {
    if s == [] then [x]
    else if leq(s[|s| - 1], x) then s + [x]
    else Insert(s[..|s| - 1], x, leq) + [s[|s| - 1]]
  }

  lemma {:induction false} InsertKeeps<T(!new)>(s: seq<T>, x: T, leq: (T, T) -> bool)
    requires Total(leq) && SortedBy(s, leq)
    ensures multiset(Insert(s, x, leq)) == multiset(s) + multiset{x}
  {
    if s != [] && !leq(s[|s| - 1], x) {
      InsertKeeps(s[..|s| - 1], x, leq);
      assert s == s[..|s| - 1] + [s[|s| - 1]];
    }
  }

  /** The list the library sort returns, as a function of its argument. */
  function Sorted<T(!new)>(xs: seq<T>, leq: (T, T) -> bool): (r: seq<T>)
    requires Total(leq)
    ensures SortedBy(r, leq)
  {
    if xs == [] then [] else Insert(Sorted(xs[..|xs| - 1], leq), xs[|xs| - 1], leq)
  }

  lemma {:induction false} SortedKeeps<T(!new)>(xs: seq<T>, leq: (T, T) -> bool)
    requires Total(leq)
    ensures multiset(Sorted(xs, leq)) == multiset(xs)
  {
    if xs != [] {
      SortedKeeps(xs[..|xs| - 1], leq);
      InsertKeeps(Sorted(xs[..|xs| - 1], leq), xs[|xs| - 1], leq);
      assert xs == xs[..|xs| - 1] + [xs[|xs| - 1]];
    }
  }

  method SortBy<T(!new)>(xs: seq<T>, leq: (T, T) -> bool) returns (r: seq<T>)
    requires Total(leq)
    ensures r == Sorted(xs, leq)
    ensures multiset(r) == multiset(xs)
    ensures SortedBy(r, leq)
  {
    r := [];
    for n := 0 to |xs|
      invariant r == Sorted(xs[..n], leq)
    {
      assert xs[..n + 1][..n] == xs[..n];
      r := Insert(r, xs[n], leq);
    }
    assert xs[..|xs|] == xs;
    SortedKeeps(xs, leq);
  }

  lemma {:induction false} FirstIsLeast<T(!new)>(s: seq<T>, leq: (T, T) -> bool, k: nat)
    requires Total(leq) && Transitive(leq) && SortedBy(s, leq) && k < |s|
    ensures leq(s[0], s[k])
  {
    if k > 0 { FirstIsLeast(s, leq, k - 1); }
  }

  /** When no two different elements compare equal, there is only one sorted permutation: the
      order in which the elements were produced leaves no trace. */
  lemma {:induction false} SortedPermutationUnique<T(!new)>(a: seq<T>, b: seq<T>, leq: (T, T) -> bool)
    requires Total(leq) && Transitive(leq) && SortedBy(a, leq) && SortedBy(b, leq)
    requires multiset(a) == multiset(b)
    requires forall x, y :: x in multiset(a) && y in multiset(a) && leq(x, y) && leq(y, x) ==> x == y
    ensures a == b
  {
    assert |a| == |multiset(a)| == |multiset(b)| == |b|;
    if a != [] {
      assert a[0] in multiset(b) && b[0] in multiset(a);
      var i :| 0 <= i < |b| && b[i] == a[0];
      var j :| 0 <= j < |a| && a[j] == b[0];
      FirstIsLeast(a, leq, j);
      FirstIsLeast(b, leq, i);
      TailsAgree(a, b);
      SortedPermutationUnique(a[1..], b[1..], leq);
    }
  }

  lemma TailsAgree<T>(a: seq<T>, b: seq<T>)
    requires a != [] && b != [] && a[0] == b[0] && multiset(a) == multiset(b)
    ensures a == [a[0]] + a[1..] && b == [b[0]] + b[1..]
    ensures multiset(a[1..]) == multiset(b[1..]) && multiset(a[1..]) <= multiset(a)
  {
    assert a == [a[0]] + a[1..] && b == [b[0]] + b[1..];
    assert multiset(a[1..]) == multiset(a) - multiset{a[0]};
    assert multiset(b[1..]) == multiset(b) - multiset{b[0]};
  }
}
