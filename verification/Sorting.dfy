/** The stable sort and the selection of Rust's slices, with the facts about
    sorted lists the searches need. */
module Sorting {

  /** What Rust asks of a comparison: total and transitive (ties allowed). */
  ghost predicate TotalPreorder<T(!new)>(le: (T, T) -> bool) {
    && (forall x, y :: le(x, y) || le(y, x))
    && (forall x, y, z :: le(x, y) && le(y, z) ==> le(x, z))
  }

  ghost predicate Sorted<T>(xs: seq<T>, le: (T, T) -> bool) {
    forall i, j | 0 <= i < j < |xs| :: le(xs[i], xs[j])
  }

  /** Puts x before the first element it may precede. */
  function Insert<T>(x: T, xs: seq<T>, le: (T, T) -> bool): (r: seq<T>) {
    if xs == [] then [x]
    else if le(x, xs[0]) then [x] + xs
    else [xs[0]] + Insert(x, xs[1..], le)
  }

  /** `sort_by`: equal elements keep their order. */
  function Sort<T>(xs: seq<T>, le: (T, T) -> bool): (r: seq<T>) {
    if xs == [] then [] else Insert(xs[0], Sort(xs[1..], le), le)
  }

  lemma {:induction false} InsertIsPermutation<T>(x: T, xs: seq<T>, le: (T, T) -> bool)
    ensures multiset(Insert(x, xs, le)) == multiset{x} + multiset(xs)
  {
    if xs != [] {
      assert xs == [xs[0]] + xs[1..];
      if !le(x, xs[0]) {
        InsertIsPermutation(x, xs[1..], le);
      }
    }
  }

  lemma {:induction false} SortIsPermutation<T>(xs: seq<T>, le: (T, T) -> bool)
    ensures multiset(Sort(xs, le)) == multiset(xs)
    ensures |Sort(xs, le)| == |xs|
  {
    if xs != [] {
      assert xs == [xs[0]] + xs[1..];
      SortIsPermutation(xs[1..], le);
      InsertIsPermutation(xs[0], Sort(xs[1..], le), le);
    }
    SameSize(Sort(xs, le), xs);
  }

  lemma SameSize<T>(a: seq<T>, b: seq<T>)
    requires multiset(a) == multiset(b)
    ensures |a| == |b|
  {
    assert |multiset(a)| == |a|;
  }

  /** Being the head of a sorted list, given by membership. */
  lemma SortedCons<T>(x: T, xs: seq<T>, le: (T, T) -> bool)
    requires Sorted(xs, le) && forall y | y in xs :: le(x, y)
    ensures Sorted([x] + xs, le)
  {
  }

  lemma {:induction false} InsertSorted<T(!new)>(x: T, xs: seq<T>, le: (T, T) -> bool)
    requires TotalPreorder(le) && Sorted(xs, le)
    ensures Sorted(Insert(x, xs, le), le)
  {
    if xs != [] {
      if le(x, xs[0]) {
        SortedCons(x, xs, le);
      } else {
        InsertSorted(x, xs[1..], le);
        InsertIsPermutation(x, xs[1..], le);
        forall y | y in Insert(x, xs[1..], le)
          ensures le(xs[0], y)
        {
          assert y in multiset(Insert(x, xs[1..], le));
        }
        SortedCons(xs[0], Insert(x, xs[1..], le), le);
      }
    }
  }

  lemma {:induction false} SortIsSorted<T(!new)>(xs: seq<T>, le: (T, T) -> bool)
    requires TotalPreorder(le)
    ensures Sorted(Sort(xs, le), le)
  {
    if xs != [] {
      SortIsSorted(xs[1..], le);
      InsertSorted(xs[0], Sort(xs[1..], le), le);
    }
  }

  /** The head of a sorted list precedes every element. */
  lemma HeadIsLeast<T(!new)>(xs: seq<T>, le: (T, T) -> bool, x: T)
    requires TotalPreorder(le) && Sorted(xs, le) && x in xs
    ensures le(xs[0], x)
  {
    assert le(xs[0], xs[0]);
  }

  lemma TailMultiset<T>(xs: seq<T>)
    requires xs != []
    ensures multiset(xs[1..]) == multiset(xs) - multiset{xs[0]}
  {
    assert xs == [xs[0]] + xs[1..];
  }

  /** The first element of one list, pulled out of a rearrangement of it. */
  lemma PullOut<T>(a: seq<T>, b: seq<T>) returns (p: seq<T>, t: seq<T>)
    requires a != [] && multiset(a) == multiset(b)
    ensures b == p + ([a[0]] + t) && multiset(a[1..]) == multiset(p + t)
  {
    SameMembers(a, b, a[0]);
    var i :| 0 <= i < |b| && b[i] == a[0];
    p, t := b[..i], b[i + 1..];
    assert b == p + ([a[0]] + t);
    TailMultiset(a);
    MiddleOut(p, a[0], t);
  }

  lemma MiddleOut<T>(p: seq<T>, x: T, t: seq<T>)
    ensures multiset(p + t) == multiset(p + ([x] + t)) - multiset{x}
  {
  }

  lemma SameMembers<T>(a: seq<T>, b: seq<T>, x: T)
    requires multiset(a) == multiset(b)
    ensures x in a <==> x in b
  {
    assert x in a <==> x in multiset(a);
  }

  /** Two sorted lists with the same elements are one list when ties are equal. */
  lemma {:induction false} SortedIsUnique<T(!new)>(a: seq<T>, b: seq<T>, le: (T, T) -> bool)
    requires TotalPreorder(le) && Sorted(a, le) && Sorted(b, le)
    requires multiset(a) == multiset(b)
    requires forall x, y | x in a && y in a && le(x, y) && le(y, x) :: x == y
    ensures a == b
    decreases |a|
  {
    hide TotalPreorder, Sorted;
    SameSize(a, b);
    if a != [] {
      SameMembers(a, b, a[0]);
      SameMembers(a, b, b[0]);
      HeadIsLeast(a, le, b[0]);
      HeadIsLeast(b, le, a[0]);
      TailMultiset(a);
      TailMultiset(b);
      SortedTail(a, le);
      SortedTail(b, le);
      SortedIsUnique(a[1..], b[1..], le);
      assert a == [a[0]] + a[1..] && b == [b[0]] + b[1..];
    }
  }

  lemma SortedTail<T>(xs: seq<T>, le: (T, T) -> bool)
    requires Sorted(xs, le) && xs != []
    ensures Sorted(xs[1..], le)
  {
  }

  /** A property of every element survives a rearrangement. */
  lemma PermutationKeeps<T>(a: seq<T>, b: seq<T>, p: T -> bool)
    requires multiset(a) == multiset(b) && forall x | x in a :: p(x)
    ensures forall x | x in b :: p(x)
  {
    forall x | x in b
      ensures p(x)
    {
      assert x in multiset(a);
    }
  }

  /** `select_nth_unstable_by`: some rearrangement with nothing before
      position n above it and nothing after it below. */
  method SelectNth<T(!new)>(xs: seq<T>, n: nat, le: (T, T) -> bool) returns (r: seq<T>)
    requires n < |xs| && TotalPreorder(le)
    ensures |r| == |xs| && multiset(r) == multiset(xs)
    ensures forall i | 0 <= i < n :: le(r[i], r[n])
    ensures forall i | n < i < |r| :: le(r[n], r[i])
  {
    r := Sort(xs, le);
    SortIsPermutation(xs, le);
    SortIsSorted(xs, le);
  }

  // ----- filtering

  function Filter<T>(xs: seq<T>, p: T -> bool): (r: seq<T>) {
    if xs == [] then []
    else Filter(xs[..|xs| - 1], p) + if p(xs[|xs| - 1]) then [xs[|xs| - 1]] else []
  }

  lemma {:induction false} FilterMembers<T(!new)>(xs: seq<T>, p: T -> bool)
    ensures forall x :: x in Filter(xs, p) <==> x in xs && p(x)
  {
    if xs != [] {
      FilterMembers(xs[..|xs| - 1], p);
      assert xs == xs[..|xs| - 1] + [xs[|xs| - 1]];
    }
  }

  lemma {:induction false} FilterSorted<T(!new)>(xs: seq<T>, p: T -> bool, le: (T, T) -> bool)
    requires Sorted(xs, le)
    ensures Sorted(Filter(xs, p), le)
  {
    if xs != [] {
      var init, last := xs[..|xs| - 1], xs[|xs| - 1];
      var kept := Filter(init, p);
      FilterSorted(init, p, le);
      FilterMembers(init, p);
      forall i | 0 <= i < |kept|
        ensures le(kept[i], last)
      {
        assert kept[i] in kept;
        var j :| 0 <= j < |init| && init[j] == kept[i];
        assert xs[j] == kept[i];
      }
    }
  }

  lemma {:induction false} FilterCounts<T(!new)>(xs: seq<T>, p: T -> bool, x: T)
    ensures multiset(Filter(xs, p))[x] == if p(x) then multiset(xs)[x] else 0
  {
    if xs != [] {
      FilterCounts(xs[..|xs| - 1], p, x);
      assert xs == xs[..|xs| - 1] + [xs[|xs| - 1]];
    }
  }

  lemma FilterPermutes<T(!new)>(a: seq<T>, b: seq<T>, p: T -> bool)
    requires multiset(a) == multiset(b)
    ensures multiset(Filter(a, p)) == multiset(Filter(b, p))
  {
    hide Filter;
    var m, n := multiset(Filter(a, p)), multiset(Filter(b, p));
    forall x
      ensures m[x] == n[x]
    {
      FilterCounts(a, p, x);
      FilterCounts(b, p, x);
    }
    assert m == n;
  }

  /** Sorting what is kept is keeping from what is sorted. */
  lemma FilterThenSort<T(!new)>(xs: seq<T>, p: T -> bool, le: (T, T) -> bool)
    requires TotalPreorder(le)
    requires forall x, y | x in xs && y in xs && le(x, y) && le(y, x) :: x == y
    ensures Sort(Filter(xs, p), le) == Filter(Sort(xs, le), p)
  {
    hide TotalPreorder, Sorted;
    var a, b := Sort(Filter(xs, p), le), Filter(Sort(xs, le), p);
    SortIsPermutation(xs, le);
    SortIsPermutation(Filter(xs, p), le);
    SortIsSorted(xs, le);
    SortIsSorted(Filter(xs, p), le);
    FilterSorted(Sort(xs, le), p, le);
    FilterPermutes(xs, Sort(xs, le), p);
    FilterMembers(xs, p);
    forall x | x in a
      ensures x in xs
    {
      SameMembers(a, Filter(xs, p), x);
    }
    SortedIsUnique(a, b, le);
  }

  lemma {:induction false} FilterKeepsPrefix<T(!new)>(xs: seq<T>, p: T -> bool, k: nat)
    requires k <= |xs| && forall i | 0 <= i < k :: p(xs[i])
    ensures |Filter(xs, p)| >= k && Filter(xs, p)[..k] == xs[..k]
  {
    if |xs| > k {
      FilterKeepsPrefix(xs[..|xs| - 1], p, k);
      assert xs[..|xs| - 1][..k] == xs[..k];
    } else if k > 0 {
      FilterKeepsPrefix(xs[..|xs| - 1], p, k - 1);
      assert xs[..|xs| - 1][..k - 1] == xs[..k - 1];
      FilterShorter(xs[..|xs| - 1], p);
      assert xs[..k] == xs[..k - 1] + [xs[k - 1]];
    }
  }

  lemma {:induction false} FilterShorter<T(!new)>(xs: seq<T>, p: T -> bool)
    ensures |Filter(xs, p)| <= |xs|
  {
    if xs != [] {
      FilterShorter(xs[..|xs| - 1], p);
    }
  }
}
