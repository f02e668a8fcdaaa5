/** The k nearest locations: the heap of read.rs and the two-precision scan of
    scan.rs, against one reference answer. */
module Scan {
  import opened Wrappers
  import opened Vectors
  import opened Rounding
  import opened Sorting

  /** A location's index and its similarity to the query. */
  datatype Scored = Scored(index: nat, sim: real)

  /** Most similar first, the lowest index first among equals. */
  predicate Before(a: Scored, b: Scored) {
    a.sim > b.sim || (a.sim == b.sim && a.index <= b.index)
  }

  /** Most similar first, ties in any order: what the heap and its sort see. */
  predicate NoLess(a: Scored, b: Scored) {
    a.sim >= b.sim
  }

  predicate Descending(a: real, b: real) {
    a >= b
  }

  function AllScored(sims: seq<real>): (r: seq<Scored>) {
    seq(|sims|, i requires 0 <= i < |sims| => Scored(i, sims[i]))
  }

  /** The reference answer: the first k of all locations in that order. */
  function TopK(sims: seq<real>, k: nat): (r: seq<Scored>) {
    var ranked := Sort(AllScored(sims), Before);
    if k <= |ranked| then ranked[..k] else ranked
  }

  function SimsOf(xs: seq<Scored>): (r: seq<real>)
    ensures |r| == |xs|
  {
    if xs == [] then [] else SimsOf(xs[..|xs| - 1]) + [xs[|xs| - 1].sim]
  }

  lemma OrdersArePreorders()
    ensures TotalPreorder(Before) && TotalPreorder(NoLess) && TotalPreorder(Descending)
  {
  }

  // ----- counting what reaches a threshold

  function CountAtLeast(xs: seq<real>, t: real): nat {
    if xs == [] then 0 else CountAtLeast(xs[..|xs| - 1], t) + if xs[|xs| - 1] >= t then 1 else 0
  }

  lemma {:induction false} CountByFilter(xs: seq<real>, t: real)
    ensures CountAtLeast(xs, t) == |Filter(xs, (x: real) => x >= t)|
  {
    if xs != [] {
      CountByFilter(xs[..|xs| - 1], t);
    }
  }

  lemma CountPermutes(a: seq<real>, b: seq<real>, t: real)
    requires multiset(a) == multiset(b)
    ensures CountAtLeast(a, t) == CountAtLeast(b, t)
  {
    var p := (x: real) => x >= t;
    CountByFilter(a, t);
    CountByFilter(b, t);
    FilterPermutes(a, b, p);
    SameSize(Filter(a, p), Filter(b, p));
  }

  lemma {:induction false} CountPrefix(xs: seq<real>, t: real, k: nat)
    requires k <= |xs| && forall i | 0 <= i < k :: xs[i] >= t
    ensures CountAtLeast(xs, t) >= k
  {
    if |xs| > 0 {
      CountPrefix(xs[..|xs| - 1], t, if k == |xs| then k - 1 else k);
    }
  }

  lemma {:induction false} CountBounded(xs: seq<real>, t: real, r: nat)
    requires r <= |xs| && forall i | r <= i < |xs| :: xs[i] < t
    ensures CountAtLeast(xs, t) <= r
  {
    if |xs| > 0 {
      CountBounded(xs[..|xs| - 1], t, if r == |xs| then r - 1 else r);
    }
  }

  lemma {:induction false} CountImplies(a: seq<real>, b: seq<real>, s: real, t: real)
    requires |a| == |b| && forall i | 0 <= i < |a| && a[i] >= s :: b[i] >= t
    ensures CountAtLeast(a, s) <= CountAtLeast(b, t)
  {
    if a != [] {
      CountImplies(a[..|a| - 1], b[..|b| - 1], s, t);
    }
  }

  // ----- similarities of a list

  lemma {:induction false} SimsAt(xs: seq<Scored>, i: nat)
    requires i < |xs|
    ensures SimsOf(xs)[i] == xs[i].sim
  {
    if i < |xs| - 1 {
      SimsAt(xs[..|xs| - 1], i);
    }
  }

  lemma {:induction false} SimsAppend(a: seq<Scored>, b: seq<Scored>)
    ensures SimsOf(a + b) == SimsOf(a) + SimsOf(b)
  {
    if b == [] {
      assert a + b == a;
    } else {
      assert (a + b)[..|a + b| - 1] == a + b[..|b| - 1];
      SimsAppend(a, b[..|b| - 1]);
    }
  }

  lemma SimsOfAll(sims: seq<real>)
    ensures SimsOf(AllScored(sims)) == sims
  {
    var xs := AllScored(sims);
    forall i | 0 <= i < |xs|
      ensures SimsOf(xs)[i] == sims[i]
    {
      SimsAt(xs, i);
    }
  }

  lemma SimsMiddle(p: seq<Scored>, x: Scored, t: seq<Scored>)
    ensures multiset(SimsOf(p + ([x] + t))) == multiset(SimsOf(p + t)) + multiset{x.sim}
  {
    hide SimsOf;
    SimsAppend(p, [x] + t);
    SimsAppend([x], t);
    SimsAppend(p, t);
    SimsOne(x);
    Middle(SimsOf(p), x.sim, SimsOf(t));
  }

  lemma Middle(p: seq<real>, x: real, t: seq<real>)
    ensures multiset(p + ([x] + t)) == multiset(p + t) + multiset{x}
  {
  }

  lemma SimsOne(x: Scored)
    ensures SimsOf([x]) == [x.sim]
  {
  }

  lemma SimsCons(x: Scored, t: seq<Scored>)
    ensures multiset(SimsOf([x] + t)) == multiset(SimsOf(t)) + multiset{x.sim}
  {
    hide SimsOf;
    SimsAppend([x], t);
    SimsOne(x);
  }

  lemma {:induction false} SimsPermute(a: seq<Scored>, b: seq<Scored>)
    requires multiset(a) == multiset(b)
    ensures multiset(SimsOf(a)) == multiset(SimsOf(b))
    decreases |a|
  {
    hide SimsOf;
    SameSize(a, b);
    if a != [] {
      var p, t := PullOut(a, b);
      SimsPermute(a[1..], p + t);
      SimsCons(a[0], a[1..]);
      SimsMiddle(p, a[0], t);
      assert a == [a[0]] + a[1..];
    }
  }

  // ----- the cut

  /** Every approximate score is within err of the exact one. */
  ghost predicate Within(approx: seq<real>, exact: seq<real>, err: real) {
    && |approx| == |exact|
    && forall i | 0 <= i < |approx| :: Abs(approx[i] - exact[i]) <= err
  }

  function KeepFrom(approx: seq<real>, floor: real): Scored -> bool {
    (s: Scored) => s.index < |approx| && approx[s.index] >= floor
  }

  /** The locations a cut at `floor` lets through, in index order. */
  function Candidates(approx: seq<real>, exact: seq<real>, floor: real): (r: seq<Scored>) {
    Filter(AllScored(exact), KeepFrom(approx, floor))
  }

  /** A ranked list holds the locations it ranks. */
  lemma RankedFacts(exact: seq<real>)
    ensures var s := Sort(AllScored(exact), Before);
      && |s| == |exact| && Sorted(s, Before)
      && multiset(SimsOf(s)) == multiset(exact)
      && forall r | 0 <= r < |s| :: s[r].index < |exact| && s[r].sim == exact[s[r].index]
  {
    var all := AllScored(exact);
    var s := Sort(all, Before);
    OrdersArePreorders();
    SortIsPermutation(all, Before);
    SortIsSorted(all, Before);
    SimsPermute(s, all);
    SimsOfAll(exact);
    forall r | 0 <= r < |s|
      ensures s[r].index < |exact| && s[r].sim == exact[s[r].index]
    {
      SameMembers(s, all, s[r]);
    }
  }

  /** Fewer than r + 1 locations reach a similarity the r-th falls short of. */
  lemma RankBoundsCount(exact: seq<real>, r: nat, c: real)
    requires r < |exact|
    ensures var s := Sort(AllScored(exact), Before);
      |s| == |exact| && (s[r].sim < c ==> CountAtLeast(exact, c) <= r)
  {
    hide Sort, SimsOf, CountAtLeast;
    var s := Sort(AllScored(exact), Before);
    RankedFacts(exact);
    if s[r].sim < c {
      forall i | r <= i < |s|
        ensures SimsOf(s)[i] < c
      {
        SimsAt(s, i);
        assert i > r ==> Before(s[r], s[i]);
      }
      CountBounded(SimsOf(s), c, r);
      CountPermutes(exact, SimsOf(s), c);
    }
  }

  /** No location of the true top k falls to a cut at t - 2 err, when k
      approximate scores reach t. */
  lemma CutKeepsTop(approx: seq<real>, exact: seq<real>, k: nat, t: real, err: real, r: nat)
    requires Within(approx, exact, err) && r < k <= |exact| && CountAtLeast(approx, t) >= k
    ensures var s := Sort(AllScored(exact), Before); |s| == |exact| && KeepFrom(approx, t - 2.0 * err)(s[r])
  {
    hide Sort, SimsOf, CountAtLeast, Sorted;
    var s := Sort(AllScored(exact), Before);
    RankedFacts(exact);
    CountImplies(approx, exact, t, t - err);
    RankBoundsCount(exact, r, t - err);
    assert Abs(approx[s[r].index] - exact[s[r].index]) <= err;
  }

  lemma EqualInBothOrders(exact: seq<real>)
    ensures forall x, y | x in AllScored(exact) && y in AllScored(exact) && Before(x, y) && Before(y, x) :: x == y
  {
  }

  /** Ranking what the cut lets through ranks the same first k as ranking all. */
  lemma CutIsExact(approx: seq<real>, exact: seq<real>, k: nat, t: real, err: real)
    requires Within(approx, exact, err) && k <= |exact| && CountAtLeast(approx, t) >= k
    ensures var kept := Sort(Candidates(approx, exact, t - 2.0 * err), Before);
      |kept| >= k && kept[..k] == TopK(exact, k)
  {
    hide Sort, Filter, KeepFrom;
    var p := KeepFrom(approx, t - 2.0 * err);
    var s := Sort(AllScored(exact), Before);
    OrdersArePreorders();
    EqualInBothOrders(exact);
    FilterThenSort(AllScored(exact), p, Before);
    RankedFacts(exact);
    forall r | 0 <= r < k
      ensures p(s[r])
    {
      CutKeepsTop(approx, exact, k, t, err, r);
    }
    FilterKeepsPrefix(s, p, k);
  }

  // ----- the heap

  /** The heap holds as many of the first i scores as fit in k, and nothing it
      let go of beats anything it holds. */
  ghost predicate Kept(sims: seq<real>, k: nat, i: nat, heap: seq<Scored>, dropped: seq<Scored>)
    requires i <= |sims|
  {
    && |heap| == (if i < k then i else k)
    && multiset(heap) + multiset(dropped) == multiset(AllScored(sims)[..i])
    && forall x, y | x in dropped && y in heap :: x.sim <= y.sim
  }

  /** `BinaryHeap::peek` under MinEntry's reversed order: the position of an
      entry of least similarity (which one of several is the library's choice). */
  method Peek(heap: seq<Scored>) returns (m: nat)
    requires heap != []
    ensures m < |heap| && forall j | 0 <= j < |heap| :: heap[m].sim <= heap[j].sim
  {
    m := 0;
    for i := 1 to |heap|
      invariant m < |heap| && forall j | 0 <= j < i :: heap[m].sim <= heap[j].sim
    {
      if heap[i].sim < heap[m].sim {
        m := i;
      }
    }
  }

  lemma Replaced(heap: seq<Scored>, m: nat, x: Scored)
    requires m < |heap|
    ensures var after := heap[..m] + heap[m + 1..] + [x];
      |after| == |heap| && multiset(after) + multiset{heap[m]} == multiset(heap) + multiset{x}
  {
    assert heap == heap[..m] + [heap[m]] + heap[m + 1..];
  }

  lemma KeptGrows(sims: seq<real>, k: nat, i: nat, heap: seq<Scored>, dropped: seq<Scored>)
    requires i < |sims| && i < k && Kept(sims, k, i, heap, dropped)
    ensures Kept(sims, k, i + 1, heap + [Scored(i, sims[i])], dropped)
  {
    var all, x := AllScored(sims), Scored(i, sims[i]);
    assert all[..i + 1] == all[..i] + [x];
    assert |multiset(heap) + multiset(dropped)| == i;
    assert dropped == [];
  }

  lemma KeptSkips(sims: seq<real>, k: nat, i: nat, heap: seq<Scored>, dropped: seq<Scored>)
    requires i < |sims| && i >= k && Kept(sims, k, i, heap, dropped)
    requires forall y | y in heap :: sims[i] <= y.sim
    ensures Kept(sims, k, i + 1, heap, dropped + [Scored(i, sims[i])])
  {
    var all, x := AllScored(sims), Scored(i, sims[i]);
    assert all[..i + 1] == all[..i] + [x];
  }

  lemma KeptReplaces(sims: seq<real>, k: nat, i: nat, heap: seq<Scored>, dropped: seq<Scored>, m: nat)
    requires i < |sims| && i >= k && Kept(sims, k, i, heap, dropped)
    requires m < |heap| && (forall j | 0 <= j < |heap| :: heap[m].sim <= heap[j].sim) && sims[i] > heap[m].sim
    ensures Kept(sims, k, i + 1, heap[..m] + heap[m + 1..] + [Scored(i, sims[i])], dropped + [heap[m]])
  {
    var all, x := AllScored(sims), Scored(i, sims[i]);
    assert all[..i + 1] == all[..i] + [x];
    Replaced(heap, m, x);
    var after, dropped' := heap[..m] + heap[m + 1..] + [x], dropped + [heap[m]];
    forall d, y | d in dropped' && y in after
      ensures d.sim <= y.sim
    {
      assert heap[m] in heap;
      assert d in dropped || d == heap[m];
      assert y in heap || y == x;
    }
    Rebalance(multiset(after), multiset{heap[m]}, multiset(heap), multiset{x}, multiset(dropped), multiset(all[..i]));
  }

  lemma Rebalance<T>(after: multiset<T>, out: multiset<T>, before: multiset<T>, added: multiset<T>,
                     dropped: multiset<T>, total: multiset<T>)
    requires after + out == before + added && before + dropped == total
    ensures after + (dropped + out) == total + added
  {
    assert after + (dropped + out) == (after + out) + dropped;
    assert (before + added) + dropped == (before + dropped) + added;
  }

  /** `activate`: the k best of the given similarities, by a heap. */
  method Activate(sims: seq<real>, k: nat) returns (best: seq<Scored>)
    ensures |best| == (if |sims| < k then |sims| else k)
    ensures forall e | e in best :: e.index < |sims| && e.sim == sims[e.index]
    ensures forall a, b | 0 <= a < b < |best| :: best[a].index != best[b].index
    ensures SimsOf(best) == SimsOf(TopK(sims, k))
  {
    hide Kept, Sort;
    var heap: seq<Scored> := [];
    ghost var dropped: seq<Scored> := [];
    KeptNone(sims, k);
    for i := 0 to |sims|
      invariant Kept(sims, k, i, heap, dropped) && |heap| == (if i < k then i else k)
    {
      if |heap| < k {
        KeptGrows(sims, k, i, heap, dropped);
        heap := heap + [Scored(i, sims[i])];
      } else if k > 0 {
        var m := Peek(heap);
        if sims[i] > heap[m].sim {
          KeptReplaces(sims, k, i, heap, dropped, m);
          dropped := dropped + [heap[m]];
          heap := heap[..m] + heap[m + 1..] + [Scored(i, sims[i])];
        } else {
          KeptSkips(sims, k, i, heap, dropped);
          dropped := dropped + [Scored(i, sims[i])];
        }
      } else {
        KeptSkips(sims, k, i, heap, dropped);
        dropped := dropped + [Scored(i, sims[i])];
      }
    }
    best := Sort(heap, NoLess);
    HeapIsTop(sims, k, heap, dropped);
  }

  lemma KeptNone(sims: seq<real>, k: nat)
    ensures Kept(sims, k, 0, [], [])
  {
    assert AllScored(sims)[..0] == [];
  }

  /** The sorted heap followed by the sorted rest is all similarities in
      descending order, so its first k are those of the reference. */
  lemma HeapIsTop(sims: seq<real>, k: nat, heap: seq<Scored>, dropped: seq<Scored>)
    requires Kept(sims, k, |sims|, heap, dropped)
    ensures var best := Sort(heap, NoLess);
      && |best| == |heap|
      && (forall e | e in best :: e.index < |sims| && e.sim == sims[e.index])
      && (forall a, b | 0 <= a < b < |best| :: best[a].index != best[b].index)
      && SimsOf(best) == SimsOf(TopK(sims, k))
  {
    hide Sort;
    var best, rest := Sort(heap, NoLess), Sort(dropped, NoLess);
    OrdersArePreorders();
    SortIsPermutation(heap, NoLess);
    SortIsPermutation(dropped, NoLess);
    SortIsSorted(heap, NoLess);
    SortIsSorted(dropped, NoLess);
    assert AllScored(sims)[..|sims|] == AllScored(sims);
    HeapMembers(sims, best, heap, dropped);
    HeapSims(sims, k, heap, dropped, best, rest);
  }

  lemma HeapMembers(sims: seq<real>, best: seq<Scored>, heap: seq<Scored>, dropped: seq<Scored>)
    requires multiset(best) == multiset(heap)
    requires multiset(heap) + multiset(dropped) == multiset(AllScored(sims))
    ensures forall e | e in best :: e.index < |sims| && e.sim == sims[e.index]
    ensures forall a, b | 0 <= a < b < |best| :: best[a].index != best[b].index
  {
    var all := AllScored(sims);
    forall e | e in best
      ensures e.index < |sims| && e.sim == sims[e.index] && multiset(best)[e] == 1
    {
      assert e in multiset(best);
      assert e in multiset(all);
      AllOnce(sims, e);
    }
    forall a, b | 0 <= a < b < |best|
      ensures best[a].index != best[b].index
    {
      if best[a].index == best[b].index {
        var e := best[a];
        assert best[b] == e;
        TwiceCounted(best, a, b);
      }
    }
  }

  lemma TwiceCounted(xs: seq<Scored>, a: nat, b: nat)
    requires a < b < |xs| && xs[a] == xs[b]
    ensures multiset(xs)[xs[a]] >= 2
  {
    assert xs == xs[..b] + [xs[b]] + xs[b + 1..];
    assert xs[..b][a] in multiset(xs[..b]);
  }

  lemma {:induction false} AllOnce(sims: seq<real>, e: Scored)
    ensures multiset(AllScored(sims))[e] <= 1
    ensures e in AllScored(sims) ==> e.index < |sims| && e.sim == sims[e.index]
  {
    if sims != [] {
      var init := sims[..|sims| - 1];
      AllOnce(init, e);
      assert AllScored(sims) == AllScored(init) + [Scored(|sims| - 1, sims[|sims| - 1])];
    }
  }

  lemma HeapSims(sims: seq<real>, k: nat, heap: seq<Scored>, dropped: seq<Scored>, best: seq<Scored>, rest: seq<Scored>)
    requires multiset(best) == multiset(heap) && multiset(rest) == multiset(dropped)
    requires multiset(heap) + multiset(dropped) == multiset(AllScored(sims))
    requires Sorted(best, NoLess) && Sorted(rest, NoLess)
    requires forall x, y | x in dropped && y in heap :: x.sim <= y.sim
    requires |best| == if |sims| < k then |sims| else k
    ensures SimsOf(best) == SimsOf(TopK(sims, k))
  {
    hide Sort, SimsOf, AllScored, Sorted;
    assert multiset(best + rest) == multiset(best) + multiset(rest);
    HeapThenRest(heap, dropped, best, rest);
    SameRanking(sims, best + rest);
    var s := Sort(AllScored(sims), Before);
    assert |SimsOf(s)| == |s|;
    SimsPrefix(best, rest, s);
    assert s[..|s|] == s;
  }

  lemma SameRanking(sims: seq<real>, xs: seq<Scored>)
    requires multiset(xs) == multiset(AllScored(sims)) && Sorted(SimsOf(xs), Descending)
    ensures SimsOf(xs) == SimsOf(Sort(AllScored(sims), Before)) && |xs| == |sims|
  {
    hide Sort, SimsOf, Sorted, TotalPreorder;
    RankedFacts(sims);
    SimsOfAll(sims);
    SimsPermute(xs, AllScored(sims));
    SameSize(xs, AllScored(sims));
    RankedDescends(Sort(AllScored(sims), Before));
    OrdersArePreorders();
    SortedIsUnique(SimsOf(xs), SimsOf(Sort(AllScored(sims), Before)), Descending);
  }

  lemma SimsPrefix(best: seq<Scored>, rest: seq<Scored>, s: seq<Scored>)
    requires SimsOf(best + rest) == SimsOf(s) && |best| <= |s|
    ensures SimsOf(best) == SimsOf(s[..|best|])
  {
    hide SimsOf;
    SimsAppend(best, rest);
    SimsAppend(s[..|best|], s[|best|..]);
    assert s == s[..|best|] + s[|best|..];
    assert SimsOf(best) == (SimsOf(best) + SimsOf(rest))[..|best|];
    assert SimsOf(s[..|best|]) == (SimsOf(s[..|best|]) + SimsOf(s[|best|..]))[..|best|];
  }

  lemma RankedDescends(s: seq<Scored>)
    requires Sorted(s, Before)
    ensures Sorted(SimsOf(s), Descending)
  {
    hide SimsOf;
    forall i, j | 0 <= i < j < |s|
      ensures s[i].sim >= s[j].sim
    {
      assert Before(s[i], s[j]);
    }
    Descends(s);
  }

  lemma HeapThenRest(heap: seq<Scored>, dropped: seq<Scored>, best: seq<Scored>, rest: seq<Scored>)
    requires multiset(best) == multiset(heap) && multiset(rest) == multiset(dropped)
    requires Sorted(best, NoLess) && Sorted(rest, NoLess)
    requires forall x, y | x in dropped && y in heap :: x.sim <= y.sim
    ensures Sorted(SimsOf(best + rest), Descending)
  {
    hide SimsOf;
    forall i, j | 0 <= i < |best| && 0 <= j < |rest|
      ensures best[i].sim >= rest[j].sim
    {
      SameMembers(best, heap, best[i]);
      SameMembers(rest, dropped, rest[j]);
    }
    forall i, j | 0 <= i < j < |best + rest|
      ensures (best + rest)[i].sim >= (best + rest)[j].sim
    {
      if j < |best| {
        assert NoLess(best[i], best[j]);
      } else if i >= |best| {
        assert NoLess(rest[i - |best|], rest[j - |best|]);
      }
    }
    Descends(best + rest);
  }

  lemma Descends(xs: seq<Scored>)
    requires forall i, j | 0 <= i < j < |xs| :: xs[i].sim >= xs[j].sim
    ensures Sorted(SimsOf(xs), Descending)
  {
    forall i, j | 0 <= i < j < |xs|
      ensures Descending(SimsOf(xs)[i], SimsOf(xs)[j])
    {
      SimsAt(xs, i);
      SimsAt(xs, j);
    }
  }

  // ----- scan.rs

  /** The engine's f64 similarities of every location to the query. */
  function ExactScores(q: Vec, addresses: seq<Vec>, rnd64: real -> real): (r: seq<real>)
    requires forall i | 0 <= i < |addresses| :: |addresses[i]| == |q|
    ensures |r| == |addresses|
  {
    seq(|addresses|, i requires 0 <= i < |addresses| => Dot64(q, addresses[i], |q|, rnd64))
  }

  /** The f32 copy a scan searches: row i is address i rounded, and maxNorm bounds
      the norms, as f64 arithmetic computes them. */
  ghost predicate Copies(matrix: seq<Vec>, maxNorm: real, addresses: seq<Vec>, rnd32: real -> real) {
    && |matrix| == |addresses|
    && maxNorm >= 0.0
    && forall i | 0 <= i < |addresses| :: matrix[i] == ToF32(addresses[i], rnd32) && CoversNorm(maxNorm, addresses[i])
  }

  /** `normalize`, for a vector of the given norm. */
  function Normalize(v: Vec, norm: real): (r: Vec)
    ensures |r| == |v|
  {
    if norm < 0.000000000001 then v else Scale(v, 1.0 / norm)
  }

  /** What `normalize` divides by. */
  function Divisor(norm: real): real {
    if norm < 0.000000000001 then 1.0 else norm
  }

  lemma {:induction false} ScaleCoordinate(v: Vec, c: real, j: nat)
    requires j < |v|
    ensures Scale(v, c)[j] == v[j] * c
  {
    if j > 0 {
      ScaleCoordinate(v[1..], c, j - 1);
    }
  }

  lemma ScaledBack(v: Vec, n: real, c: real)
    requires n * c == 1.0
    ensures forall j | 0 <= j < |v| :: n * Scale(v, c)[j] == v[j]
  {
    hide Scale;
    forall j | 0 <= j < |v| ensures n * Scale(v, c)[j] == v[j] {
      ScaleCoordinate(v, c, j);
      Undone(n, c, v[j]);
    }
  }

  lemma ScaledToUnit(v: Vec, n: real, c: real)
    requires n * c == 1.0 && n * n == Dot(v, v)
    ensures Dot(Scale(v, c), Scale(v, c)) == 1.0
  {
    hide Dot, Scale;
    var (u, d) := (Scale(v, c), Dot(v, Scale(v, c)));
    DotScale(v, c, u);
    DotSymmetric(v, u);
    DotScale(v, c, v);
    SquareUndone(n, c, Dot(v, v), d);
  }

  lemma OneOver(n: real)
    requires n > 0.0
    ensures n * (1.0 / n) == 1.0 && 1.0 / n >= 0.0
  {
  }

  /** Normalizing divides each coordinate, and by the norm it leaves a vector of norm 1. */
  lemma NormalizeIsUnit(v: Vec, norm: real)
    ensures forall j | 0 <= j < |v| :: Divisor(norm) * Normalize(v, norm)[j] == v[j]
    ensures norm >= 0.000000000001 && norm * norm == Dot(v, v) ==> Dot(Normalize(v, norm), Normalize(v, norm)) == 1.0
  {
    hide Dot, Scale;
    if norm >= 0.000000000001 {
      OneOver(norm);
      ScaledBack(v, norm, 1.0 / norm);
      if norm * norm == Dot(v, v) {
        ScaledToUnit(v, norm, 1.0 / norm);
      }
    }
  }

  lemma Undone(n: real, c: real, x: real)
    requires n * c == 1.0
    ensures n * (x * c) == x && n * (c * x) == x
  {
    assert n * (x * c) == (n * c) * x;
  }

  lemma UndoneFrom(n: real, c: real, x: real, y: real)
    requires n * c == 1.0 && y == c * x
    ensures n * y == x
  {
    Undone(n, c, x);
  }

  lemma SquareUndone(n: real, c: real, square: real, d: real)
    requires n * c == 1.0 && n * n == square && d == c * square
    ensures c * d == 1.0
  {
    assert c * d == (n * c) * (n * c);
  }

  /** Dot products with a normalized vector are those with the vector, divided. */
  lemma NormalizedDot(v: Vec, norm: real, a: Vec)
    requires |a| == |v|
    ensures Divisor(norm) * Dot(Normalize(v, norm), a) == Dot(v, a)
    ensures Divisor(norm) > 0.0 && Divisor(norm) * Mass(Normalize(v, norm), a) == Mass(v, a)
  {
    hide Dot, Scale, MassPrefix;
    if norm >= 0.000000000001 {
      var c := 1.0 / norm;
      OneOver(norm);
      DotScale(v, c, a);
      MassScale(v, c, a, |v|);
      Undone(norm, c, Dot(v, a));
      UndoneFrom(norm, c, Mass(v, a), Mass(Normalize(v, norm), a));
    }
  }

  lemma {:induction false} MassScale(v: Vec, c: real, a: Vec, n: nat)
    requires n <= |a| == |v| && c >= 0.0
    ensures MassPrefix(Scale(v, c), a, n) == c * MassPrefix(v, a, n)
  {
    hide Abs;
    if n > 0 {
      MassScale(v, c, a, n - 1);
      ScaleCoordinate(v, c, n - 1);
      AbsScaled(v[n - 1], c, Scale(v, c)[n - 1]);
      OneTerm(Abs(v[n - 1]), c, Abs(a[n - 1]), MassPrefix(v, a, n - 1), MassPrefix(v, a, n), Abs(Scale(v, c)[n - 1]));
    }
  }

  lemma OneTerm(x: real, c: real, y: real, before: real, after: real, xc: real)
    requires after == before + x * y && xc == x * c
    ensures c * before + xc * y == c * after
  {
  }

  lemma AbsScaled(x: real, c: real, y: real)
    requires c >= 0.0 && y == x * c
    ensures Abs(y) == Abs(x) * c
  {
  }

  /** Scores are cosines: but for the rounding of its dot product, the score of a
      location is Dot(query, a) divided by the norm of the query. */
  ghost predicate IsCosine(score: real, query: Vec, norm: real, a: Vec)
    requires |a| == |query|
  {
    IsQuotient(score, Dot(query, a), Divisor(norm), Gamma(U64, |query| + 1) * Mass(query, a))
  }

  /** score is dot / n, but for an error of this much over n. */
  ghost predicate IsQuotient(score: real, dot: real, n: real, error: real) {
    Abs(n * score - dot) <= error
  }

  lemma ScoreIsCosine(query: Vec, norm: real, a: Vec, rnd64: real -> real)
    requires |a| == |query| && Rounds(rnd64, U64)
    ensures IsCosine(Dot64(Normalize(query, norm), a, |query|, rnd64), query, norm, a)
  {
    hide Rounds, Dot, Dot64, Gamma, Mass, Normalize, Divisor, Abs, DotPrefix, MassPrefix, Close, IsCosine;
    var (u, d) := (Normalize(query, norm), |query|);
    var score := Dot64(u, a, d, rnd64);
    Dot64Close(u, a, d, rnd64);
    CloseToDot(u, a, score);
    NormalizedDot(query, norm, a);
    CosineBy(score, query, norm, a, Mass(u, a), Dot(u, a));
  }

  lemma CosineBy(score: real, query: Vec, norm: real, a: Vec, mass: real, dot: real)
    requires |a| == |query| && Divisor(norm) > 0.0
    requires Divisor(norm) * mass == Mass(query, a) && Divisor(norm) * dot == Dot(query, a)
    requires Abs(score - dot) <= Gamma(U64, |query| + 1) * mass
    ensures IsCosine(score, query, norm, a)
  {
    hide Gamma, Mass, Dot, Divisor, IsQuotient;
    ScaledError(Divisor(norm), score, dot, Gamma(U64, |query| + 1), mass, Dot(query, a), Mass(query, a),
                Gamma(U64, |query| + 1) * Mass(query, a));
  }

  lemma CloseToDot(u: Vec, a: Vec, score: real)
    requires |a| == |u| && Close(score, DotPrefix(u, a, |u|), MassPrefix(u, a, |u|), U64, |u| + 1)
    ensures Abs(score - Dot(u, a)) <= Gamma(U64, |u| + 1) * Mass(u, a)
  {
    hide Gamma, Dot, DotPrefix, MassPrefix;
    PrefixIsDot(u, a, |u|);
    assert u[..|u|] == u && a[..|u|] == a;
  }

  lemma ScaledError(n: real, score: real, dot: real, g: real, mass: real, dot': real, mass': real,
                    error: real)
    requires n > 0.0 && Abs(score - dot) <= g * mass && dot' == n * dot && mass' == n * mass && error == g * mass'
    ensures IsQuotient(score, dot', n, error)
  {
    assert n * score - n * dot == n * (score - dot);
    assert g * (n * mass) == n * (g * mass);
    if score >= dot {
      assert n * (score - dot) <= n * (g * mass);
    } else {
      assert n * (dot - score) <= n * (g * mass);
    }
  }

  /** `score_rows`: every f32 score is within `error_bound` of the f64 one. */
  method ScoreRows(q: Vec, matrix: seq<Vec>, rnd32: real -> real, ghost rnd64: real -> real,
                   ghost addresses: seq<Vec>, qNorm: real, maxNorm: real)
    returns (approx: seq<real>)
    requires Rounds(rnd32, U32) && Rounds(rnd64, U64)
    requires forall i | 0 <= i < |addresses| :: |addresses[i]| == |q|
    requires Copies(matrix, maxNorm, addresses, rnd32)
    requires CoversNorm(qNorm, q)
    requires (|q| as real + 3.0) * U32 <= 0.0099
    ensures Within(approx, ExactScores(q, addresses, rnd64), ErrorBound(|q|, qNorm, maxNorm))
  {
    hide Rounds, Dot, Dot64, ErrorBound, Close, Mass, DotPrefix, Abs, CoversNorm;
    var q32 := ToF32(q, rnd32);
    approx := [];
    for i := 0 to |matrix|
      invariant |approx| == i
      invariant forall j | 0 <= j < i ::
        Abs(approx[j] - ExactScores(q, addresses, rnd64)[j]) <= ErrorBound(|q|, qNorm, maxNorm)
    {
      var score := DotF32(q32, matrix[i], rnd32, q, addresses[i]);
      ErrorBoundHolds(q, addresses[i], score, rnd64, qNorm, maxNorm);
      approx := approx + [score];
    }
  }

  /** `nearest`: score in f32, cut at the k-th best less twice the error bound,
      rank what is left in f64. With a usable copy the answer is the reference
      one; without, the heap's, which has the same similarities. */
  method Nearest(query: Vec, norm: real, addresses: seq<Vec>, k: nat, matrix: seq<Vec>, maxNorm: real, qNorm: real,
                 rnd32: real -> real, rnd64: real -> real)
    returns (best: seq<Scored>)
    requires Rounds(rnd32, U32) && Rounds(rnd64, U64)
    requires forall i | 0 <= i < |addresses| :: |addresses[i]| == |query|
    requires |matrix| == |addresses| ==> Copies(matrix, maxNorm, addresses, rnd32)
    requires CoversNorm(qNorm, Normalize(query, norm))
    requires (|query| as real + 3.0) * U32 <= 0.0099
    ensures SimsOf(best) == SimsOf(TopK(ExactScores(Normalize(query, norm), addresses, rnd64), k))
    ensures 0 < k <= |addresses| && |matrix| == |addresses| && maxNorm < 1000000000000000000000000000000.0 ==>
              best == TopK(ExactScores(Normalize(query, norm), addresses, rnd64), k)
    ensures |best| == (if |addresses| < k then |addresses| else k)
    ensures forall a, b | 0 <= a < b < |best| :: best[a].index != best[b].index
    ensures forall t | 0 <= t < |best| ::
              best[t].index < |addresses| && IsCosine(best[t].sim, query, norm, addresses[best[t].index])
  {
    hide Rounds, Dot, Dot64, ErrorBound, Copies, CoversNorm, Sort, Normalize, Filter, IsCosine;
    var q := Normalize(query, norm);
    var usable := 0 < k <= |addresses| && |matrix| == |addresses| && maxNorm < 1000000000000000000000000000000.0;
    if !usable {
      best := Activate(ExactScores(q, addresses, rnd64), k);
      AreCosines(query, norm, addresses, rnd64, best);
      return;
    }
    var approx := ScoreRows(q, matrix, rnd32, rnd64, addresses, qNorm, maxNorm);
    var err := ErrorBound(|q|, qNorm, maxNorm);
    var t := KthBest(approx, k);
    var kept := CollectCandidates(q, approx, addresses, t - 2.0 * err, rnd64);
    CutIsExact(approx, ExactScores(q, addresses, rnd64), k, t, err);
    best := Sort(kept, Before)[..k];
    TopAreScores(ExactScores(q, addresses, rnd64), k);
    AreCosines(query, norm, addresses, rnd64, best);
  }

  lemma TopAreScores(sims: seq<real>, k: nat)
    ensures forall e | e in TopK(sims, k) :: e.index < |sims| && e.sim == sims[e.index]
    ensures forall a, b | 0 <= a < b < |TopK(sims, k)| :: TopK(sims, k)[a].index != TopK(sims, k)[b].index
    ensures |TopK(sims, k)| == (if |sims| < k then |sims| else k)
  {
    hide Sort, SimsOf, AllScored;
    var s := Sort(AllScored(sims), Before);
    RankedFacts(sims);
    forall a, b | 0 <= a < b < |s| ensures s[a].index != s[b].index {
      RankedOnce(sims, a, b);
    }
  }

  lemma RankedOnce(sims: seq<real>, a: nat, b: nat)
    requires a < b < |Sort(AllScored(sims), Before)|
    ensures Sort(AllScored(sims), Before)[a].index != Sort(AllScored(sims), Before)[b].index
  {
    hide Sort, SimsOf, AllScored;
    var s := Sort(AllScored(sims), Before);
    RankedFacts(sims);
    SortIsPermutation(AllScored(sims), Before);
    if s[a].index == s[b].index {
      assert s[a] == s[b];
      TwiceCounted(s, a, b);
      AllOnce(sims, s[a]);
    }
  }

  lemma AreCosines(query: Vec, norm: real, addresses: seq<Vec>, rnd64: real -> real, best: seq<Scored>)
    requires Rounds(rnd64, U64) && forall i | 0 <= i < |addresses| :: |addresses[i]| == |query|
    requires var scores := ExactScores(Normalize(query, norm), addresses, rnd64);
      forall e | e in best :: e.index < |scores| && e.sim == scores[e.index]
    ensures forall t | 0 <= t < |best| ::
              best[t].index < |addresses| && IsCosine(best[t].sim, query, norm, addresses[best[t].index])
  {
    hide Rounds, Dot64, IsCosine, Normalize;
    forall t | 0 <= t < |best|
      ensures best[t].index < |addresses| && IsCosine(best[t].sim, query, norm, addresses[best[t].index])
    {
      assert best[t] in best;
      ScoreIsCosine(query, norm, addresses[best[t].index], rnd64);
    }
  }

  /** The k-th best score: k scores reach it. */
  method KthBest(approx: seq<real>, k: nat) returns (t: real)
    requires 0 < k <= |approx|
    ensures CountAtLeast(approx, t) >= k
  {
    OrdersArePreorders();
    var sorted := SelectNth(approx, k - 1, Descending);
    t := sorted[k - 1];
    forall i | 0 <= i < k
      ensures sorted[i] >= t
    {
      assert i < k - 1 ==> Descending(sorted[i], sorted[k - 1]);
    }
    CountPrefix(sorted, t, k);
    CountPermutes(approx, sorted, t);
  }

  /** The candidates with their f64 similarities, in index order. */
  method CollectCandidates(q: Vec, approx: seq<real>, addresses: seq<Vec>, floor: real, rnd64: real -> real)
    returns (kept: seq<Scored>)
    requires |approx| == |addresses| && forall i | 0 <= i < |addresses| :: |addresses[i]| == |q|
    ensures kept == Candidates(approx, ExactScores(q, addresses, rnd64), floor)
  {
    hide Dot64;
    kept := [];
    ghost var all := AllScored(ExactScores(q, addresses, rnd64));
    for i := 0 to |approx|
      invariant kept == Filter(all[..i], KeepFrom(approx, floor))
    {
      if approx[i] >= floor {
        kept := kept + [Scored(i, Dot64(q, addresses[i], |q|, rnd64))];
      }
      assert all[..i + 1][..i] == all[..i];
    }
    assert all[..|approx|] == all;
  }
}
