/** Permutation binding (permute.rs): the symmetric group acting on vectors. */
module Permute {
  import opened Wrappers
  import opened Vectors
  import Sorting

  /** Why an operation is refused. */
  datatype Refusal = NotAPermutation | DimensionMismatch

  /** The forward index map (out[i] = v[perm[i]]) and its inverse. */
  datatype Permutation = Permutation(perm: seq<nat>, inv: seq<nat>) {
    function Dim(): nat {
      |perm|
    }

    ghost predicate Valid() {
      && |inv| == |perm|
      && (forall i | 0 <= i < |perm| :: perm[i] < |perm| && inv[perm[i]] == i)
      && (forall i | 0 <= i < |perm| :: inv[i] < |perm| && perm[inv[i]] == i)
    }
  }

  /** An index map that names each of 0..|m| exactly once. */
  ghost predicate Bijective(m: seq<nat>) {
    && (forall i | 0 <= i < |m| :: m[i] < |m|)
    && (forall i, j | 0 <= i < j < |m| :: m[i] != m[j])
  }

  // ----- from_indices

  function Below(n: nat): (s: set<nat>)
    ensures forall x: nat :: x in s <==> x < n
    ensures |s| == n
  {
    if n == 0 then {} else Below(n - 1) + {n - 1}
  }

  ghost function Range(m: seq<nat>, n: nat): (s: set<nat>)
    requires n <= |m|
    ensures forall x :: x in s <==> exists i | 0 <= i < n :: m[i] == x
  {
    if n == 0 then {} else Range(m, n - 1) + {m[n - 1]}
  }

  lemma {:induction false} RangeSize(m: seq<nat>, n: nat)
    requires n <= |m| && forall i, j | 0 <= i < j < |m| :: m[i] != m[j]
    ensures |Range(m, n)| == n
  {
    if n > 0 {
      RangeSize(m, n - 1);
    }
  }

  lemma SubsetOfSameSize(a: set<nat>, b: set<nat>)
    requires a <= b && |a| == |b|
    ensures a == b
  {
    if x :| x in b && x !in a {
      assert a <= b - {x};
      SubsetSize(a, b - {x});
    }
  }

  lemma {:induction false} SubsetSize(a: set<nat>, b: set<nat>)
    requires a <= b
    ensures |a| <= |b|
    decreases a
  {
    if x :| x in a {
      SubsetSize(a - {x}, b - {x});
    }
  }

  /** A map that hits no index twice hits every index. */
  lemma Pigeonhole(m: seq<nat>, x: nat)
    requires Bijective(m) && x < |m|
    ensures exists i :: 0 <= i < |m| && m[i] == x
  {
    RangeSize(m, |m|);
    SubsetOfSameSize(Range(m, |m|), Below(|m|));
    assert x in Range(m, |m|);
  }

  /** `from_indices`: accepts exactly the bijections, and builds the inverse. */
  method FromIndices(perm: seq<nat>) returns (r: Result<Permutation, Refusal>)
    ensures r.Success? <==> Bijective(perm)
    ensures r.Success? ==> r.value.perm == perm && r.value.Valid()
    ensures r.Failure? ==> r.error == NotAPermutation
  {
    var d := |perm|;
    var seen := new bool[d](_ => false);
    var inv := new nat[d](_ => 0);
    for i := 0 to d
      invariant forall j | 0 <= j < i :: perm[j] < d && seen[perm[j]] && inv[perm[j]] == j
      invariant forall p | 0 <= p < d && seen[p] :: inv[p] < i && perm[inv[p]] == p
    {
      var p := perm[i];
      if p >= d || seen[p] {
        assert p < d ==> inv[p] < i && perm[inv[p]] == perm[i];
        return Failure(NotAPermutation);
      }
      seen[p] := true;
      inv[p] := i;
    }
    assert Bijective(perm);
    forall p | 0 <= p < d
      ensures seen[p]
    {
      Pigeonhole(perm, p);
    }
    r := Success(Permutation(perm, inv[..]));
  }

  // ----- powers

  /** n steps along an index map. */
  function Iterate(step: seq<nat>, i: nat, n: nat): (r: nat)
    requires i < |step| && forall j | 0 <= j < |step| :: step[j] < |step|
    ensures r < |step|
  {
    if n == 0 then i else step[Iterate(step, i, n - 1)]
  }

  /** The source coordinate of position i under the k-th power. */
  function Move(rho: Permutation, i: nat, k: int): (r: nat)
    requires rho.Valid() && i < rho.Dim()
    ensures r < rho.Dim()
  {
    if k >= 0 then Iterate(rho.perm, i, k) else Iterate(rho.inv, i, -k)
  }

  lemma MoveNext(rho: Permutation, i: nat, k: int)
    requires rho.Valid() && i < rho.Dim()
    ensures Move(rho, i, k + 1) == rho.perm[Move(rho, i, k)]
    ensures Move(rho, i, k - 1) == rho.inv[Move(rho, i, k)]
  {
    if k > 0 {
      assert Iterate(rho.perm, i, k) == rho.perm[Iterate(rho.perm, i, k - 1)];
    } else {
      assert Iterate(rho.inv, i, 1 - k) == rho.inv[Iterate(rho.inv, i, -k)];
    }
  }

  /** Moving by b and then by a moves by their sum, for all integers. */
  lemma {:induction false} MovesAdd(rho: Permutation, i: nat, a: int, b: int)
    requires rho.Valid() && i < rho.Dim()
    ensures Move(rho, Move(rho, i, a), b) == Move(rho, i, a + b)
    decreases if b < 0 then -b else b
  {
    hide Move, Iterate;
    if b == 0 {
      MoveZero(rho, Move(rho, i, a));
    } else if b > 0 {
      MovesAdd(rho, i, a, b - 1);
      MoveNext(rho, Move(rho, i, a), b - 1);
      MoveNext(rho, i, a + b - 1);
    } else {
      MovesAdd(rho, i, a, b + 1);
      MoveNext(rho, Move(rho, i, a), b + 1);
      MoveNext(rho, i, a + b + 1);
    }
  }

  lemma MoveZero(rho: Permutation, i: nat)
    requires rho.Valid() && i < rho.Dim()
    ensures Move(rho, i, 0) == i
  {
  }

  /** The index map of the k-th power. */
  ghost function Power(rho: Permutation, k: int): (m: seq<nat>)
    requires rho.Valid()
    ensures |m| == rho.Dim()
  {
    seq(rho.Dim(), i requires 0 <= i < rho.Dim() => Move(rho, i, k))
  }

  lemma PowerIsBijective(rho: Permutation, k: int)
    requires rho.Valid()
    ensures Bijective(Power(rho, k))
  {
    hide Move;
    var m := Power(rho, k);
    forall i, j | 0 <= i < j < |m|
      ensures m[i] != m[j]
    {
      MovesAdd(rho, i, k, -k);
      MovesAdd(rho, j, k, -k);
      MoveZero(rho, i);
      MoveZero(rho, j);
    }
  }

  /** `gather`: out[i] = v[map[i]]. */
  function Gather(v: Vec, m: seq<nat>): (r: Vec)
    requires forall i | 0 <= i < |m| :: m[i] < |v|
    ensures |r| == |m|
  {
    seq(|m|, i requires 0 <= i < |m| => v[m[i]])
  }

  /** `pow_indices`. */
  method PowIndices(rho: Permutation, k: int) returns (m: seq<nat>)
    requires rho.Valid()
    ensures m == Power(rho, k)
  {
    if k == 0 {
      m := seq(rho.Dim(), i requires 0 <= i => i);
    } else if k == 1 {
      m := rho.perm;
      OneStep(rho);
    } else if k == -1 {
      m := rho.inv;
      OneStep(rho);
    } else {
      var step := if k > 0 then rho.perm else rho.inv;
      var d := rho.Dim();
      var cur := new nat[d](i requires 0 <= i < d => step[i]);
      var next := new nat[d](_ => 0);
      var count := if k > 0 then k else -k;
      assert forall i | 0 <= i < d :: Iterate(step, i, 1) == step[Iterate(step, i, 0)];
      for n := 1 to count
        invariant cur != next && cur.Length == next.Length == d && fresh(cur) && fresh(next)
        invariant forall i | 0 <= i < d :: cur[i] == Iterate(step, i, n)
      {
        ComposeStep(step, cur, next, n);
        cur, next := next, cur;
      }
      m := cur[..];
    }
  }

  /** One more step along the map, from `cur` into `next`. */
  method ComposeStep(step: seq<nat>, cur: array<nat>, next: array<nat>, ghost n: nat)
    requires cur != next && cur.Length == next.Length == |step|
    requires forall j | 0 <= j < |step| :: step[j] < |step|
    requires forall i | 0 <= i < |step| :: cur[i] == Iterate(step, i, n)
    modifies next
    ensures forall i | 0 <= i < |step| :: next[i] == Iterate(step, i, n + 1)
  {
    for i := 0 to |step|
      invariant forall j | 0 <= j < i :: next[j] == Iterate(step, j, n + 1)
    {
      next[i] := step[cur[i]];
    }
  }

  lemma OneStep(rho: Permutation)
    requires rho.Valid()
    ensures Power(rho, 1) == rho.perm && Power(rho, -1) == rho.inv
  {
    forall i | 0 <= i < rho.Dim()
      ensures Move(rho, i, 1) == rho.perm[i] && Move(rho, i, -1) == rho.inv[i]
    {
      MoveNext(rho, i, 0);
    }
  }

  /** `apply_pow`; `apply` and `apply_inv` are the powers 1 and -1. */
  method ApplyPow(rho: Permutation, v: Vec, k: int) returns (r: Result<Vec, Refusal>)
    requires rho.Valid()
    ensures r == Applied(rho, v, k)
  {
    if |v| != rho.Dim() {
      return Failure(DimensionMismatch);
    }
    var m := PowIndices(rho, k);
    r := Success(Gather(v, m));
  }

  ghost function Applied(rho: Permutation, v: Vec, k: int): Result<Vec, Refusal>
    requires rho.Valid()
  {
    if |v| != rho.Dim() then Failure(DimensionMismatch) else Success(Gather(v, Power(rho, k)))
  }

  /** The powers act as a group: the a-th after the b-th is the (a + b)-th, so
      the powers of one permutation commute and -a undoes a. */
  lemma PowersCompose(rho: Permutation, v: Vec, a: int, b: int)
    requires rho.Valid() && |v| == rho.Dim()
    ensures Applied(rho, Applied(rho, v, b).value, a) == Applied(rho, v, a + b)
    ensures Applied(rho, Applied(rho, v, a).value, -a) == Success(v)
  {
    hide Move;
    forall i | 0 <= i < |v|
      ensures Move(rho, Move(rho, i, a), b) == Move(rho, i, a + b)
    {
      MovesAdd(rho, i, a, b);
    }
    var back := Power(rho, -a);
    forall i | 0 <= i < |v|
      ensures Move(rho, back[i], a) == i
    {
      MovesAdd(rho, i, -a, a);
      MoveZero(rho, i);
    }
    assert Gather(Gather(v, Power(rho, b)), Power(rho, a)) == Gather(v, Power(rho, a + b));
    assert Gather(Gather(v, Power(rho, a)), Power(rho, -a)) == v;
  }

  // ----- inner products

  function Identity(n: nat): (r: seq<nat>)
    ensures |r| == n && forall i | 0 <= i < n :: r[i] == i
  {
    seq(n, i requires 0 <= i => i)
  }

  function Term(a: Vec, b: Vec, i: nat): real
    requires i < |a| == |b|
  {
    a[i] * b[i]
  }

  /** The sum of a[i] * b[i] over a list of indices. */
  ghost function SumOver(idx: seq<nat>, a: Vec, b: Vec): real
    requires |a| == |b| && forall t | 0 <= t < |idx| :: idx[t] < |a|
  {
    if idx == [] then 0.0 else Term(a, b, idx[0]) + SumOver(idx[1..], a, b)
  }

  lemma {:induction false} SumAppend(x: seq<nat>, y: seq<nat>, a: Vec, b: Vec)
    requires |a| == |b|
    requires (forall t | 0 <= t < |x| :: x[t] < |a|) && (forall t | 0 <= t < |y| :: y[t] < |a|)
    ensures SumOver(x + y, a, b) == SumOver(x, a, b) + SumOver(y, a, b)
  {
    hide Term;
    if x == [] {
      assert x + y == y;
    } else {
      assert (x + y)[1..] == x[1..] + y;
      SumAppend(x[1..], y, a, b);
    }
  }

  lemma SumCons(x: nat, t: seq<nat>, a: Vec, b: Vec)
    requires |a| == |b| && x < |a| && (forall i | 0 <= i < |t| :: t[i] < |a|)
    ensures SumOver([x] + t, a, b) == Term(a, b, x) + SumOver(t, a, b)
  {
    hide Term;
    assert ([x] + t)[1..] == t;
  }

  lemma SumMiddle(p: seq<nat>, x: nat, t: seq<nat>, a: Vec, b: Vec)
    requires |a| == |b| && x < |a|
    requires (forall i | 0 <= i < |p| :: p[i] < |a|) && (forall i | 0 <= i < |t| :: t[i] < |a|)
    ensures SumOver(p + ([x] + t), a, b) == SumOver(p + t, a, b) + Term(a, b, x)
  {
    hide Term;
    SumCons(x, t, a, b);
    hide SumOver;
    SumAppend(p, t, a, b);
    SumAppend(p, [x] + t, a, b);
  }

  /** Rearranging the indices does not change the sum. */
  lemma {:induction false} SumPermutes(x: seq<nat>, y: seq<nat>, a: Vec, b: Vec)
    requires |a| == |b|
    requires (forall t | 0 <= t < |x| :: x[t] < |a|) && (forall t | 0 <= t < |y| :: y[t] < |a|)
    requires multiset(x) == multiset(y)
    ensures SumOver(x, a, b) == SumOver(y, a, b)
    decreases |x|
  {
    hide SumOver, Term;
    Sorting.SameSize(x, y);
    if x != [] {
      var p, t := Sorting.PullOut(x, y);
      assert forall i | 0 <= i < |t| :: t[i] == y[|p| + 1 + i];
      assert forall i | 0 <= i < |p| :: p[i] == y[i];
      SumPermutes(x[1..], p + t, a, b);
      SumMiddle(p, x[0], t, a, b);
      SumMiddle([], x[0], x[1..], a, b);
      assert x == [] + ([x[0]] + x[1..]) && [] + x[1..] == x[1..];
    }
  }

  lemma {:induction false} SumIsDot(idx: seq<nat>, a: Vec, b: Vec)
    requires |a| == |b| && forall t | 0 <= t < |idx| :: idx[t] < |a|
    ensures SumOver(idx, a, b) == Dot(Gather(a, idx), Gather(b, idx))
  {
    if idx != [] {
      SumIsDot(idx[1..], a, b);
      assert Gather(a, idx)[1..] == Gather(a, idx[1..]);
      assert Gather(b, idx)[1..] == Gather(b, idx[1..]);
    }
  }

  lemma {:induction false} CountAtMostOnce(m: seq<nat>, x: nat)
    requires forall i, j | 0 <= i < j < |m| :: m[i] != m[j]
    ensures multiset(m)[x] <= 1
  {
    if m != [] {
      CountAtMostOnce(m[1..], x);
      assert m == [m[0]] + m[1..];
    }
  }

  lemma BijectiveIsRearrangement(m: seq<nat>)
    requires Bijective(m)
    ensures multiset(m) == multiset(Identity(|m|))
  {
    forall x: nat
      ensures multiset(m)[x] == multiset(Identity(|m|))[x]
    {
      CountAtMostOnce(m, x);
      CountAtMostOnce(Identity(|m|), x);
      if x < |m| {
        Pigeonhole(m, x);
        assert x in m && Identity(|m|)[x] == x;
      } else {
        assert x !in m && x !in Identity(|m|);
      }
    }
  }

  /** A permutation keeps every inner product, and so every norm. */
  lemma InnerProductKept(rho: Permutation, a: Vec, b: Vec, k: int)
    requires rho.Valid() && |a| == |b| == rho.Dim()
    ensures Dot(Applied(rho, a, k).value, Applied(rho, b, k).value) == Dot(a, b)
  {
    hide Dot, SumOver, Move;
    var m := Power(rho, k);
    PowerIsBijective(rho, k);
    BijectiveIsRearrangement(m);
    SumPermutes(m, Identity(|m|), a, b);
    SumIsDot(m, a, b);
    SumIsDot(Identity(|m|), a, b);
    assert Gather(a, Identity(|m|)) == a && Gather(b, Identity(|m|)) == b;
  }

  // ----- cycles

  /** A cycle in move order: the value at cyc[t] moves to cyc[t + 1], the last
      one's to the first. */
  ghost predicate IsCycle(rho: Permutation, cyc: seq<nat>)
    requires rho.Valid()
  {
    && cyc != []
    && (forall t | 0 <= t < |cyc| :: cyc[t] < rho.Dim())
    && (forall t | 0 <= t < |cyc| :: rho.inv[cyc[t]] == cyc[if t + 1 == |cyc| then 0 else t + 1])
  }

  /** The coordinates of some cycles, one after another. */
  ghost function Coordinates(cycles: seq<seq<nat>>): seq<nat> {
    if cycles == [] then [] else Coordinates(cycles[..|cycles| - 1]) + cycles[|cycles| - 1]
  }

  ghost predicate NoneTwice(xs: seq<nat>) {
    forall i, j | 0 <= i < j < |xs| :: xs[i] != xs[j]
  }

  /** What the search of one cycle keeps: a path from `start`, of coordinates not
      visited before, whose next coordinate is `cur`. */
  ghost predicate Path(rho: Permutation, start: nat, cyc: seq<nat>, cur: nat)
    requires rho.Valid()
  {
    && cur < rho.Dim() && NoneTwice(cyc)
    && (forall t | 0 <= t < |cyc| :: cyc[t] < rho.Dim())
    && (if cyc == [] then cur == start else cyc[0] == start && cur == rho.inv[cyc[|cyc| - 1]])
    && (forall t | 0 <= t < |cyc| - 1 :: rho.inv[cyc[t]] == cyc[t + 1])
  }

  /** Coordinates done in whole cycles: closed under the permutation. */
  ghost predicate Closed(rho: Permutation, done: seq<nat>)
    requires rho.Valid()
  {
    forall x | x in done :: x < rho.Dim() && rho.perm[x] in done
  }

  /** The next coordinate of an unfinished path is new. */
  lemma NextIsNew(rho: Permutation, start: nat, cyc: seq<nat>, cur: nat, done: seq<nat>)
    requires rho.Valid() && Path(rho, start, cyc, cur) && cyc != [] && cur != start && Closed(rho, done)
    requires forall t | 0 <= t < |cyc| :: cyc[t] !in done
    ensures cur !in cyc && cur !in done
  {
    var last := cyc[|cyc| - 1];
    assert rho.perm[cur] == last;
    forall t | 0 <= t < |cyc|
      ensures cyc[t] != cur
    {
      if t > 0 {
        assert rho.perm[rho.inv[cyc[t - 1]]] == cyc[t - 1];
      }
    }
  }

  /** One turn of the search: `cyc` plus the cycle of `start`. */
  method Cycle(rho: Permutation, start: nat, visited: array<bool>, ghost done: seq<nat>) returns (cyc: seq<nat>)
    requires rho.Valid() && start < rho.Dim() && visited.Length == rho.Dim()
    requires Closed(rho, done) && NoneTwice(done)
    requires forall x | 0 <= x < rho.Dim() :: visited[x] <==> x in done
    requires !visited[start]
    modifies visited
    ensures IsCycle(rho, cyc) && start in cyc
    ensures Closed(rho, done + cyc) && NoneTwice(done + cyc)
    ensures forall x | 0 <= x < rho.Dim() :: visited[x] <==> x in done + cyc
  {
    hide Path, IsCycle, NoneTwice, Closed;
    cyc := [];
    var cur := start;
    PathStarts(rho, start);
    while cyc == [] || cur != start
      invariant Path(rho, start, cyc, cur)
      invariant forall t | 0 <= t < |cyc| :: cyc[t] !in done
      invariant forall x | 0 <= x < rho.Dim() :: visited[x] <==> x in done + cyc
      decreases rho.Dim() - |cyc|
    {
      if cyc != [] {
        NextIsNew(rho, start, cyc, cur, done);
      }
      PathGrows(rho, start, cyc, cur);
      visited[cur] := true;
      cyc := cyc + [cur];
      cur := rho.inv[cur];
    }
    PathCloses(rho, start, cyc);
    CycleCloses(rho, cyc, done);
  }

  lemma PathStarts(rho: Permutation, start: nat)
    requires rho.Valid() && start < rho.Dim()
    ensures Path(rho, start, [], start)
  {
  }

  /** One more coordinate, not on the path yet. */
  lemma PathGrows(rho: Permutation, start: nat, cyc: seq<nat>, cur: nat)
    requires rho.Valid() && Path(rho, start, cyc, cur) && cur !in cyc
    ensures cur < |rho.inv| && Path(rho, start, cyc + [cur], rho.inv[cur]) && |cyc| < rho.Dim()
  {
    PathFits(rho, cyc + [cur]);
  }

  /** A path back at its start is a cycle. */
  lemma PathCloses(rho: Permutation, start: nat, cyc: seq<nat>)
    requires rho.Valid() && Path(rho, start, cyc, start) && cyc != []
    ensures IsCycle(rho, cyc) && NoneTwice(cyc) && start in cyc
  {
    assert cyc[0] == start;
  }

  lemma PathFits(rho: Permutation, cyc: seq<nat>)
    requires rho.Valid() && NoneTwice(cyc) && forall t | 0 <= t < |cyc| :: cyc[t] < rho.Dim()
    ensures |cyc| <= rho.Dim()
  {
    RangeSize(cyc, |cyc|);
    SubsetSize(Range(cyc, |cyc|), Below(rho.Dim()));
  }

  lemma CycleCloses(rho: Permutation, cyc: seq<nat>, done: seq<nat>)
    requires rho.Valid() && Closed(rho, done) && NoneTwice(done) && NoneTwice(cyc)
    requires IsCycle(rho, cyc) && forall t | 0 <= t < |cyc| :: cyc[t] !in done
    ensures Closed(rho, done + cyc) && NoneTwice(done + cyc)
  {
    forall x | x in cyc
      ensures x < rho.Dim() && rho.perm[x] in cyc
    {
      var t :| 0 <= t < |cyc| && cyc[t] == x;
      var before := if t == 0 then |cyc| - 1 else t - 1;
      assert rho.inv[cyc[before]] == x;
      assert rho.perm[x] == cyc[before];
    }
  }

  /** `cycles`: terminates with disjoint cycles that hold every coordinate
      exactly once. */
  method Cycles(rho: Permutation) returns (cycles: seq<seq<nat>>)
    requires rho.Valid()
    ensures forall c | 0 <= c < |cycles| :: IsCycle(rho, cycles[c])
    ensures NoneTwice(Coordinates(cycles))
    ensures forall x: nat :: x in Coordinates(cycles) <==> x < rho.Dim()
  {
    hide IsCycle, NoneTwice;
    var d := rho.Dim();
    var visited := new bool[d](_ => false);
    cycles := [];
    NothingTwice();
    for start := 0 to d
      invariant forall c | 0 <= c < |cycles| :: IsCycle(rho, cycles[c])
      invariant Closed(rho, Coordinates(cycles)) && NoneTwice(Coordinates(cycles))
      invariant forall x | 0 <= x < d :: visited[x] <==> x in Coordinates(cycles)
      invariant forall x | 0 <= x < start :: visited[x]
    {
      if visited[start] {
        continue;
      }
      var cyc := Cycle(rho, start, visited, Coordinates(cycles));
      ghost var before := cycles;
      cycles := cycles + [cyc];
      assert cycles[..|cycles| - 1] == before;
    }
  }

  lemma NothingTwice()
    ensures NoneTwice([])
  {
  }

  /** Where k steps along a cycle of the given length lead from place t. */
  function Place(t: int, length: nat): (r: nat)
    requires length > 0
    ensures r < length
  {
    t % length
  }

  lemma PlaceIs(t: int, length: nat, q: int, r: nat)
    requires length > 0 && r < length && t == length * q + r
    ensures Place(t, length) == r
  {
    var q', r' := t / length, t % length;
    assert length * (q - q') == r' - r by {
      assert t == length * q' + r';
      assert length * (q - q') == length * q - length * q';
    }
    if q - q' >= 1 {
      AtLeastOnce(length, q - q');
    } else if q - q' <= -1 {
      AtLeastOnce(length, q' - q);
    }
  }

  lemma AtLeastOnce(length: nat, n: int)
    requires n >= 1
    ensures length * n >= length
  {
  }

  lemma PlaceNext(t: int, length: nat)
    requires length > 0
    ensures Place(t + 1, length) == if Place(t, length) + 1 == length then 0 else Place(t, length) + 1
  {
    var q, r := t / length, t % length;
    assert t == length * q + r;
    if r + 1 == length {
      assert t + 1 == length * (q + 1) + 0;
      PlaceIs(t + 1, length, q + 1, 0);
    } else {
      PlaceIs(t + 1, length, q, r + 1);
    }
  }

  lemma PlaceSame(t: nat, length: nat)
    requires t < length
    ensures Place(t, length) == t
  {
    PlaceIs(t, length, 0, t);
  }

  /** k steps against the map lead k places along the cycle. */
  lemma {:induction false} MoveAlong(rho: Permutation, cyc: seq<nat>, t: nat, k: int)
    requires rho.Valid() && IsCycle(rho, cyc) && t < |cyc|
    ensures Move(rho, cyc[t], -k) == cyc[Place(t + k, |cyc|)]
    decreases if k < 0 then -k else k
  {
    hide Move, Place;
    if k == 0 {
      PlaceSame(t, |cyc|);
      MoveZero(rho, cyc[t]);
    } else if k > 0 {
      MoveAlong(rho, cyc, t, k - 1);
      MoveNext(rho, cyc[t], -(k - 1));
      PlaceNext(t + k - 1, |cyc|);
    } else {
      MoveAlong(rho, cyc, t, k + 1);
      MoveNext(rho, cyc[t], -(k + 1));
      PlaceNext(t + k, |cyc|);
      var here := Place(t + k, |cyc|);
      assert rho.perm[rho.inv[cyc[here]]] == cyc[here];
    }
  }

  /** The k-th power moves the value at cyc[t] to cyc[(t + k) mod L]. */
  lemma PowerAlongCycle(rho: Permutation, cyc: seq<nat>, t: nat, k: int, v: Vec)
    requires rho.Valid() && IsCycle(rho, cyc) && t < |cyc| && |v| == rho.Dim()
    ensures Applied(rho, v, k).value[cyc[Place(t + k, |cyc|)]] == v[cyc[t]]
  {
    hide Move, Place;
    MoveAlong(rho, cyc, t, k);
    MovesAdd(rho, cyc[t], -k, k);
    MoveZero(rho, cyc[t]);
  }

  // ----- snapshots

  /** A location as a snapshot holds it. */
  datatype Location = Location(id: nat, address: Vec, counter: Vec)

  /** `permute_snapshot`: one composed map, applied to every location. */
  method PermuteSnapshot(dim: nat, locations: seq<Location>, rho: Permutation, k: int)
    returns (r: Result<seq<Location>, Refusal>)
    requires rho.Valid() && forall i | 0 <= i < |locations| :: |locations[i].address| == |locations[i].counter| == dim
    ensures r == Permuted(dim, locations, rho, k)
  {
    if dim != rho.Dim() {
      return Failure(DimensionMismatch);
    }
    var m := PowIndices(rho, k);
    var out := locations;
    for i := 0 to |locations|
      invariant |out| == |locations|
      invariant forall j | 0 <= j < i :: out[j] == PermutedLocation(locations[j], rho, k)
      invariant forall j | i <= j < |locations| :: out[j] == locations[j]
    {
      out := out[i := out[i].(counter := Gather(out[i].counter, m), address := Gather(out[i].address, m))];
    }
    assert out == seq(|locations|, i requires 0 <= i < |locations| => PermutedLocation(locations[i], rho, k));
    r := Success(out);
  }

  ghost function PermutedLocation(loc: Location, rho: Permutation, k: int): Location
    requires rho.Valid() && |loc.address| == |loc.counter| == rho.Dim()
  {
    loc.(address := Gather(loc.address, Power(rho, k)), counter := Gather(loc.counter, Power(rho, k)))
  }

  ghost function Permuted(dim: nat, locations: seq<Location>, rho: Permutation, k: int): Result<seq<Location>, Refusal>
    requires rho.Valid() && forall i | 0 <= i < |locations| :: |locations[i].address| == |locations[i].counter| == dim
  {
    if dim != rho.Dim() then Failure(DimensionMismatch)
    else Success(seq(|locations|, i requires 0 <= i < |locations| => PermutedLocation(locations[i], rho, k)))
  }

  /** Permuting a snapshot by -k undoes permuting it by k. */
  lemma SnapshotUndone(locations: seq<Location>, rho: Permutation, k: int)
    requires rho.Valid()
    requires forall i | 0 <= i < |locations| :: |locations[i].address| == |locations[i].counter| == rho.Dim()
    ensures var once := Permuted(rho.Dim(), locations, rho, k).value;
      Permuted(rho.Dim(), once, rho, -k) == Success(locations)
  {
    hide Power, Gather;
    forall i | 0 <= i < |locations|
      ensures PermutedLocation(PermutedLocation(locations[i], rho, k), rho, -k) == locations[i]
    {
      PowersCompose(rho, locations[i].address, k, 0);
      PowersCompose(rho, locations[i].counter, k, 0);
    }
    var once := Permuted(rho.Dim(), locations, rho, k).value;
    assert Permuted(rho.Dim(), once, rho, -k).value == locations;
  }
}
