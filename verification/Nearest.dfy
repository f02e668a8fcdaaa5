/** Each location's nearest other location by cosine similarity (nearest.rs):
    the plain scan, the tiled scan and the projected search, all proved to give
    the one answer `IsNearest` allows. */
module Nearest {
  import opened Wrappers
  import opened Vectors
  import KdTree
  import Sorting

  const MIN_PROJECTED: nat := 3000
  const MIN_DIM: nat := 32
  const MAX_K: nat := 16
  const MIN_CAPTURED: real := 0.5
  const SUBSPACE_ITERS: nat := 6
  const SLACK: real := 0.000000000001
  const MIN_NORM: real := 0.000000000001
  const ROWS: nat := 32
  const COLS: nat := 256

  /** A neighbour's index and its similarity. */
  datatype Neighbour = Neighbour(index: nat, sim: real)

  /** The norms given with the addresses are their Euclidean norms. */
  ghost predicate Norms(addresses: seq<Vec>, norms: seq<real>) {
    && |norms| == |addresses|
    && forall i | 0 <= i < |norms| :: norms[i] >= 0.0 && norms[i] * norms[i] == Dot(addresses[i], addresses[i])
  }

  /** A location with a direction: it has, and can be, a nearest neighbour. */
  predicate Usable(norms: seq<real>, i: nat) {
    i < |norms| && norms[i] >= MIN_NORM
  }

  function Sim(addresses: seq<Vec>, norms: seq<real>, i: nat, j: nat): real
    requires |norms| == |addresses| && Usable(norms, i) && Usable(norms, j)
  {
    Dot(addresses[i], addresses[j]) / (norms[i] * norms[j])
  }

  /** j competes to be i's neighbour. */
  predicate Rival(norms: seq<real>, i: nat, j: nat) {
    Usable(norms, i) && Usable(norms, j) && j != i
  }

  /** The answer: the most similar rival, the lowest index among equals, and
      nothing only when there is no rival. */
  ghost predicate IsNearest(addresses: seq<Vec>, norms: seq<real>, i: nat, r: Option<Neighbour>)
    requires |norms| == |addresses|
  {
    BestBelow(addresses, norms, i, |norms|, r)
  }

  /** The answer among the rivals with index below n. */
  ghost predicate BestBelow(addresses: seq<Vec>, norms: seq<real>, i: nat, n: nat, r: Option<Neighbour>)
    requires |norms| == |addresses|
  {
    match r
    case None => forall j | 0 <= j < n :: !Rival(norms, i, j)
    case Some(Neighbour(b, s)) =>
      && b < n && Rival(norms, i, b) && s == Sim(addresses, norms, i, b)
      && (forall j | 0 <= j < n && Rival(norms, i, j) :: Sim(addresses, norms, i, j) <= s)
      && (forall j | 0 <= j < b && Rival(norms, i, j) :: Sim(addresses, norms, i, j) < s)
  }

  /** There is one answer, so two searches that satisfy it agree. */
  lemma NearestIsUnique(addresses: seq<Vec>, norms: seq<real>, i: nat, r: Option<Neighbour>, r': Option<Neighbour>)
    requires |norms| == |addresses|
    requires IsNearest(addresses, norms, i, r) && IsNearest(addresses, norms, i, r')
    ensures r == r'
  {
    if r.Some? && r'.Some? {
      var a, b := r.value.index, r'.value.index;
      assert Sim(addresses, norms, i, a) <= Sim(addresses, norms, i, b);
      assert Sim(addresses, norms, i, b) <= Sim(addresses, norms, i, a);
    }
  }

  /** One comparison of a scan in increasing index order. */
  function Consider(addresses: seq<Vec>, norms: seq<real>, i: nat, j: nat, best: Option<Neighbour>): Option<Neighbour>
    requires |norms| == |addresses| && Usable(norms, i)
  {
    if j == i || !Usable(norms, j) then best
    else
      var s := Sim(addresses, norms, i, j);
      if best.None? || s > best.value.sim then Some(Neighbour(j, s)) else best
  }

  lemma ConsiderExtends(addresses: seq<Vec>, norms: seq<real>, i: nat, j: nat, best: Option<Neighbour>)
    requires |norms| == |addresses| && Usable(norms, i)
    requires BestBelow(addresses, norms, i, j, best)
    ensures BestBelow(addresses, norms, i, j + 1, Consider(addresses, norms, i, j, best))
  {
    hide Sim;
  }

  /** `brute_one`: one location by a plain scan. */
  method BruteOne(addresses: seq<Vec>, norms: seq<real>, i: nat) returns (best: Option<Neighbour>)
    requires |norms| == |addresses| && i < |norms|
    ensures IsNearest(addresses, norms, i, best)
  {
    hide Sim;
    best := None;
    if norms[i] < MIN_NORM {
      return;
    }
    for j := 0 to |norms|
      invariant BestBelow(addresses, norms, i, j, best)
    {
      ConsiderExtends(addresses, norms, i, j, best);
      best := Consider(addresses, norms, i, j, best);
    }
  }

  /** One row against one block of columns of the tiled scan. */
  method ScanColumns(addresses: seq<Vec>, norms: seq<real>, i: nat, start: nat, end: nat, before: Option<Neighbour>)
    returns (best: Option<Neighbour>)
    requires |norms| == |addresses| && i < |norms| && start <= end
    requires BestBelow(addresses, norms, i, start, before)
    ensures BestBelow(addresses, norms, i, end, best)
  {
    hide Sim;
    best := before;
    if norms[i] < MIN_NORM {
      return;
    }
    for j := start to end
      invariant BestBelow(addresses, norms, i, j, best)
    {
      ConsiderExtends(addresses, norms, i, j, best);
      best := Consider(addresses, norms, i, j, best);
    }
  }

  /** One block of rows of the tiled scan. */
  method BruteBlock(addresses: seq<Vec>, norms: seq<real>, first: nat, last: nat)
    returns (best: array<Option<Neighbour>>)
    requires |norms| == |addresses| && first <= last <= |norms|
    ensures fresh(best) && best.Length == last - first
    ensures forall r | 0 <= r < best.Length :: IsNearest(addresses, norms, first + r, best[r])
  {
    hide BestBelow, Sim;
    best := new Option<Neighbour>[last - first](_ => None);
    forall r | 0 <= r < best.Length
      ensures BestBelow(addresses, norms, first + r, 0, best[r])
    {
      NothingYet(addresses, norms, first + r);
    }
    var start := 0;
    while start < |norms|
      invariant 0 <= start <= |norms|
      invariant forall r | 0 <= r < best.Length :: BestBelow(addresses, norms, first + r, start, best[r])
    {
      var end := if start + COLS < |norms| then start + COLS else |norms|;
      for r := 0 to best.Length
        invariant forall s | 0 <= s < r :: BestBelow(addresses, norms, first + s, end, best[s])
        invariant forall s | r <= s < best.Length :: BestBelow(addresses, norms, first + s, start, best[s])
      {
        best[r] := ScanColumns(addresses, norms, first + r, start, end, best[r]);
      }
      start := end;
    }
  }

  lemma NothingYet(addresses: seq<Vec>, norms: seq<real>, i: nat)
    requires |norms| == |addresses|
    ensures BestBelow(addresses, norms, i, 0, None)
  {
  }

  /** `brute`: every pair compared, a block of rows against a block of columns
      at a time. */
  method Brute(addresses: seq<Vec>, norms: seq<real>) returns (out: seq<Option<Neighbour>>)
    requires |norms| == |addresses|
    ensures |out| == |norms|
    ensures forall i | 0 <= i < |norms| :: IsNearest(addresses, norms, i, out[i])
  {
    hide IsNearest;
    out := [];
    while |out| < |norms|
      invariant |out| <= |norms|
      invariant forall i | 0 <= i < |out| :: IsNearest(addresses, norms, i, out[i])
      decreases |norms| - |out|
    {
      var last := if |out| + ROWS < |norms| then |out| + ROWS else |norms|;
      var block := BruteBlock(addresses, norms, |out|, last);
      out := out + block[..];
    }
  }

  // ----- the projection

  ghost predicate Rows(rows: seq<Vec>, d: nat) {
    forall i | 0 <= i < |rows| :: |rows[i]| == d
  }

  /** v is orthogonal to the first n rows. */
  ghost predicate OrthogonalTo(v: Vec, rows: seq<Vec>, n: nat)
    requires n <= |rows|
  {
    forall i | 0 <= i < n :: Dot(v, rows[i]) == 0.0
  }

  /** Taking away v's component along the next of some orthonormal rows keeps
      it orthogonal to the earlier ones. */
  lemma GramSchmidtStep(v: Vec, rows: seq<Vec>, n: nat, d: nat)
    requires |v| == d && Orthonormal(rows, d) && n < |rows| && OrthogonalTo(v, rows, n)
    ensures OrthogonalTo(AddScaled(v, rows[n], -Dot(v, rows[n])), rows, n + 1)
  {
    hide Dot, AddScaled, Orthonormal, OrthogonalTo;
    UnitRow(rows, n, d);
    RemainderAlong(v, rows[n]);
    var w := AddScaled(v, rows[n], -Dot(v, rows[n]));
    forall i | 0 <= i < n
      ensures Dot(w, rows[i]) == 0.0
    {
      GramSchmidtKeeps(v, rows, n, d, i);
    }
    OrthogonalNext(w, rows, n);
  }

  lemma UnitRow(rows: seq<Vec>, n: nat, d: nat)
    requires Orthonormal(rows, d) && n < |rows|
    ensures |rows[n]| == d && Dot(rows[n], rows[n]) == 1.0
  {
    hide Dot;
  }

  lemma OrthogonalNext(w: Vec, rows: seq<Vec>, n: nat)
    requires n < |rows| && Dot(w, rows[n]) == 0.0 && forall i | 0 <= i < n :: Dot(w, rows[i]) == 0.0
    ensures OrthogonalTo(w, rows, n + 1)
  {
    hide Dot;
  }

  lemma GramSchmidtKeeps(v: Vec, rows: seq<Vec>, n: nat, d: nat, i: nat)
    requires |v| == d && Orthonormal(rows, d) && i < n < |rows| && OrthogonalTo(v, rows, n)
    ensures Dot(AddScaled(v, rows[n], -Dot(v, rows[n])), rows[i]) == 0.0
  {
    hide Dot, AddScaled, OrthogonalTo;
    EarlierRow(v, rows, n, d, i);
    RemainderAcross(v, rows[n], rows[i], -Dot(v, rows[n]));
  }

  lemma EarlierRow(v: Vec, rows: seq<Vec>, n: nat, d: nat, i: nat)
    requires Orthonormal(rows, d) && i < n < |rows| && OrthogonalTo(v, rows, n)
    ensures |rows[i]| == |rows[n]| == d && Dot(v, rows[i]) == 0.0 && Dot(rows[n], rows[i]) == 0.0
  {
    hide Dot;
    DotSymmetric(rows[i], rows[n]);
  }

  lemma RemainderAlong(v: Vec, b: Vec)
    requires |v| == |b| && Dot(b, b) == 1.0
    ensures Dot(AddScaled(v, b, -Dot(v, b)), b) == 0.0
  {
    hide Dot, AddScaled;
    DotAddScaled(v, b, -Dot(v, b), b);
  }

  lemma RemainderAcross(v: Vec, b: Vec, r: Vec, c: real)
    requires |v| == |b| == |r| && Dot(v, r) == 0.0 && Dot(b, r) == 0.0
    ensures Dot(AddScaled(v, b, c), r) == 0.0
  {
    hide Dot, AddScaled;
    DotAddScaled(v, b, c, r);
  }

  /** A vector orthogonal to some orthonormal rows joins them once normalised. */
  lemma OrthonormalAppend(rows: seq<Vec>, v: Vec, norm: real, d: nat)
    requires |v| == d && Orthonormal(rows, d) && OrthogonalTo(v, rows, |rows|)
    requires norm > 0.0 && norm * norm == Dot(v, v)
    ensures Orthonormal(rows + [Scale(v, 1.0 / norm)], d)
  {
    hide Dot, Scale;
    var u := Scale(v, 1.0 / norm);
    DotScale(v, 1.0 / norm, u);
    DotSymmetric(v, u);
    DotScale(v, 1.0 / norm, v);
    assert (1.0 / norm) * ((1.0 / norm) * (norm * norm)) == 1.0;
    forall i | 0 <= i < |rows|
      ensures Dot(rows[i], u) == 0.0
    {
      DotScale(v, 1.0 / norm, rows[i]);
      DotSymmetric(rows[i], u);
    }
  }

  /** `orthonormalize`: Gram-Schmidt, twice over, dropping rows that vanish. */
  method Orthonormalize(rows: seq<Vec>, d: nat, sqrt: real -> real) returns (out: seq<Vec>)
    requires Rows(rows, d) && SquareRoot(sqrt)
    ensures Orthonormal(out, d) && |out| <= |rows|
  {
    out := rows;
    for pass := 0 to 2
      invariant Rows(out, d) && |out| <= |rows|
      invariant pass > 0 ==> Orthonormal(out, d)
    {
      out := GramSchmidt(out, d, sqrt);
    }
  }

  method GramSchmidt(rows: seq<Vec>, d: nat, sqrt: real -> real) returns (out: seq<Vec>)
    requires Rows(rows, d) && SquareRoot(sqrt)
    ensures Orthonormal(out, d) && Rows(out, d) && |out| <= |rows|
  {
    hide Dot, AddScaled, Scale;
    out := [];
    for i := 0 to |rows|
      invariant Orthonormal(out, d) && |out| <= i
    {
      var v := rows[i];
      DotSelfNonNegative(v);
      var before := sqrt(Dot(v, v));
      for t := 0 to |out|
        invariant |v| == d && OrthogonalTo(v, out, t)
      {
        GramSchmidtStep(v, out, t, d);
        v := AddScaled(v, out[t], -Dot(v, out[t]));
      }
      DotSelfNonNegative(v);
      var norm := sqrt(Dot(v, v));
      if before > 0.0 && norm > before * 0.00000001 {
        OrthonormalAppend(out, v, norm, d);
        out := out + [Scale(v, 1.0 / norm)];
      }
    }
  }

  /** `principal_directions`: subspace iteration from the rows `start`. However
      good the directions are, they are orthonormal. */
  method PrincipalDirections(points: seq<Vec>, d: nat, start: seq<Vec>, sqrt: real -> real) returns (q: seq<Vec>)
    requires Rows(points, d) && Rows(start, d) && SquareRoot(sqrt)
    ensures Orthonormal(q, d) && |q| <= |start|
  {
    q := Orthonormalize(start, d, sqrt);
    for iter := 0 to SUBSPACE_ITERS
      invariant Orthonormal(q, d) && |q| <= |start|
    {
      if |q| == 0 {
        break;
      }
      var z := ScatterTimes(points, d, q);
      q := Orthonormalize(z, d, sqrt);
    }
  }

  /** X^T (X q^T), accumulated row by row of X. */
  method ScatterTimes(points: seq<Vec>, d: nat, q: seq<Vec>) returns (z: seq<Vec>)
    requires Rows(points, d) && Rows(q, d)
    ensures Rows(z, d) && |z| == |q|
  {
    z := seq(|q|, _ => Zero(d));
    for i := 0 to |points|
      invariant Rows(z, d) && |z| == |q|
    {
      for b := 0 to |q|
        invariant Rows(z, d) && |z| == |q|
      {
        z := z[b := AddScaled(z[b], points[i], Dot(points[i], q[b]))];
      }
    }
  }

  /** The usable locations, in index order. */
  function ValidBelow(norms: seq<real>, n: nat): (r: seq<nat>)
    requires n <= |norms|
  {
    if n == 0 then []
    else ValidBelow(norms, n - 1) + if norms[n - 1] >= MIN_NORM then [n - 1] else []
  }

  /** `valid` lists exactly the usable locations, ascending. */
  ghost predicate ListsUsable(norms: seq<real>, n: nat, valid: seq<nat>) {
    && (forall a | 0 <= a < |valid| :: valid[a] < n && Usable(norms, valid[a]))
    && (forall a, b | 0 <= a < b < |valid| :: valid[a] < valid[b])
    && (forall i | 0 <= i < n && Usable(norms, i) :: i in valid)
  }

  lemma {:induction false} ValidListsUsable(norms: seq<real>, n: nat)
    requires n <= |norms|
    ensures ListsUsable(norms, n, ValidBelow(norms, n))
  {
    if n > 0 {
      ValidListsUsable(norms, n - 1);
      var before, after := ValidBelow(norms, n - 1), ValidBelow(norms, n);
      forall i | 0 <= i < n && Usable(norms, i)
        ensures i in after
      {
        assert i < n - 1 ==> i in before;
      }
    }
  }

  /** The sum of the rows. */
  function ColumnSum(points: seq<Vec>, d: nat): (r: Vec)
    requires Rows(points, d)
    ensures |r| == d
  {
    if points == [] then Zero(d)
    else AddScaled(ColumnSum(points[..|points| - 1], d), points[|points| - 1], 1.0)
  }

  function ColumnMean(points: seq<Vec>, d: nat): (r: Vec)
    requires Rows(points, d) && points != []
    ensures |r| == d
  {
    Scale(ColumnSum(points, d), 1.0 / (|points| as real))
  }

  function UnitAddress(addresses: seq<Vec>, norms: seq<real>, i: nat): Vec
    requires |norms| == |addresses| && Usable(norms, i)
  {
    Scale(addresses[i], 1.0 / norms[i])
  }

  /** On the unit sphere, similarity and squared distance determine each other. */
  lemma UnitDistance(addresses: seq<Vec>, norms: seq<real>, i: nat, j: nat)
    requires Norms(addresses, norms) && Usable(norms, i) && Usable(norms, j)
    requires |addresses[i]| == |addresses[j]|
    ensures Dist2(UnitAddress(addresses, norms, i), UnitAddress(addresses, norms, j))
            == 2.0 - 2.0 * Sim(addresses, norms, i, j)
  {
    hide Dot, Scale, AddScaled, Dist2;
    var u, v := UnitAddress(addresses, norms, i), UnitAddress(addresses, norms, j);
    UnitDot(addresses, norms, i, i);
    UnitDot(addresses, norms, j, j);
    UnitDot(addresses, norms, i, j);
    Dist2IsNormOfDifference(u, v);
    NormOfSum(u, v, -1.0);
    QuotientOfItself(norms[i] * norms[i]);
    QuotientOfItself(norms[j] * norms[j]);
  }

  lemma QuotientOfItself(x: real)
    requires x != 0.0
    ensures x / x == 1.0
  {
  }

  lemma UnitDot(addresses: seq<Vec>, norms: seq<real>, i: nat, j: nat)
    requires |norms| == |addresses| && Usable(norms, i) && Usable(norms, j)
    requires |addresses[i]| == |addresses[j]|
    ensures Dot(UnitAddress(addresses, norms, i), UnitAddress(addresses, norms, j)) == Sim(addresses, norms, i, j)
    ensures norms[i] * norms[j] > 0.0
  {
    hide Dot, Scale;
    var a, b, n, m := addresses[i], addresses[j], norms[i], norms[j];
    DotScale(a, 1.0 / n, Scale(b, 1.0 / m));
    DotSymmetric(a, Scale(b, 1.0 / m));
    DotScale(b, 1.0 / m, a);
    DotSymmetric(a, b);
    assert n * m > 0.0;
    TwoQuotients(Dot(a, b), n, m);
  }

  lemma TwoQuotients(x: real, n: real, m: real)
    requires n > 0.0 && m > 0.0 && n * m > 0.0
    ensures (1.0 / n) * ((1.0 / m) * x) == x / (n * m)
  {
    var y := (1.0 / n) * ((1.0 / m) * x);
    assert y * (n * m) == ((1.0 / n) * n) * (((1.0 / m) * m) * x);
    assert (1.0 / n) * n == 1.0 && (1.0 / m) * m == 1.0;
  }

  /** Centring moves no two points relative to each other. */
  lemma {:induction false} CentringKeepsDistance(u: Vec, v: Vec, mean: Vec)
    requires |u| == |v| == |mean|
    ensures Dist2(Sub(u, mean), Sub(v, mean)) == Dist2(u, v)
  {
    if u != [] {
      CentringKeepsDistance(u[1..], v[1..], mean[1..]);
    }
  }

  /** The projected points stand for the usable locations: two of them are no
      farther apart than their locations' unit addresses. */
  ghost predicate Stands(addresses: seq<Vec>, norms: seq<real>, valid: seq<nat>, proj: seq<Vec>)
    requires |norms| == |addresses|
  {
    && |proj| == |valid|
    && (forall a | 0 <= a < |valid| :: Usable(norms, valid[a]))
    && (forall a, b | 0 <= a < |valid| && 0 <= b < |valid| ::
          Dist2(proj[a], proj[b]) <= 2.0 - 2.0 * Sim(addresses, norms, valid[a], valid[b]))
  }

  /** One centred unit address, projected. */
  function ProjectLocation(addresses: seq<Vec>, norms: seq<real>, i: nat, mean: Vec, basis: seq<Vec>): Vec
    requires |norms| == |addresses| && Usable(norms, i) && |addresses[i]| == |mean|
  {
    Project(Sub(UnitAddress(addresses, norms, i), mean), basis)
  }

  lemma ProjectionStands(addresses: seq<Vec>, norms: seq<real>, i: nat, j: nat, mean: Vec, basis: seq<Vec>)
    requires Norms(addresses, norms) && Usable(norms, i) && Usable(norms, j)
    requires |addresses[i]| == |addresses[j]| == |mean| && Orthonormal(basis, |mean|)
    ensures Dist2(ProjectLocation(addresses, norms, i, mean, basis), ProjectLocation(addresses, norms, j, mean, basis))
            <= 2.0 - 2.0 * Sim(addresses, norms, i, j)
  {
    hide Dot, Scale, AddScaled, Dist2, Sim, Orthonormal;
    var u, v := UnitAddress(addresses, norms, i), UnitAddress(addresses, norms, j);
    ProjectionContracts(Sub(u, mean), Sub(v, mean), basis, |mean|);
    CentringKeepsDistance(u, v, mean);
    UnitDistance(addresses, norms, i, j);
  }

  /** The answer among the first n candidates. */
  ghost predicate BestAmong(addresses: seq<Vec>, norms: seq<real>, valid: seq<nat>, a: nat, candidates: seq<nat>,
                            n: nat, r: Option<Neighbour>)
    requires |norms| == |addresses| && a < |valid| && n <= |candidates|
    requires forall b | 0 <= b < |valid| :: Usable(norms, valid[b])
    requires forall t | 0 <= t < |candidates| :: candidates[t] < |valid|
  {
    match r
    case None => forall t | 0 <= t < n :: candidates[t] == a
    case Some(Neighbour(index, s)) =>
      && (exists t | 0 <= t < n ::
            candidates[t] != a && index == valid[candidates[t]]
            && s == Sim(addresses, norms, valid[a], valid[candidates[t]]))
      && (forall t | 0 <= t < n && candidates[t] != a :: Sim(addresses, norms, valid[a], valid[candidates[t]]) <= s)
      && (forall t | 0 <= t < n && candidates[t] != a && valid[candidates[t]] < index ::
            Sim(addresses, norms, valid[a], valid[candidates[t]]) < s)
  }

  /** Every candidate compared in full, in increasing index order. */
  method ScanCandidates(addresses: seq<Vec>, norms: seq<real>, valid: seq<nat>, a: nat, candidates: seq<nat>)
    returns (best: Option<Neighbour>)
    requires |norms| == |addresses| && ListsUsable(norms, |norms|, valid) && a < |valid|
    requires forall t | 0 <= t < |candidates| :: candidates[t] < |valid|
    requires forall s, t | 0 <= s < t < |candidates| :: candidates[s] <= candidates[t]
    ensures BestAmong(addresses, norms, valid, a, candidates, |candidates|, best)
  {
    hide Sim;
    best := None;
    for t := 0 to |candidates|
      invariant BestAmong(addresses, norms, valid, a, candidates, t, best)
    {
      var b := candidates[t];
      if b != a {
        assert best.Some? ==> best.value.index <= valid[b];
        var s := Sim(addresses, norms, valid[a], valid[b]);
        if best.None? || s > best.value.sim {
          best := Some(Neighbour(valid[b], s));
        }
      }
    }
  }

  /** Any rival at least as similar as some rival c lies within c's bound of
      the query, so the best candidate is the answer and no fallback is needed. */
  lemma CandidatesSuffice(addresses: seq<Vec>, norms: seq<real>, valid: seq<nat>, proj: seq<Vec>, a: nat, c: nat,
                          radius2: real, candidates: seq<nat>, best: Option<Neighbour>)
    requires |norms| == |addresses| && ListsUsable(norms, |norms|, valid)
    requires Stands(addresses, norms, valid, proj)
    requires a < |valid| && c < |valid| && a != c
    requires 2.0 - 2.0 * Sim(addresses, norms, valid[a], valid[c]) <= radius2
    requires forall b: nat :: b in candidates <==> b < |valid| && Dist2(proj[a], proj[b]) <= radius2
    requires forall t | 0 <= t < |candidates| :: candidates[t] < |valid|
    requires BestAmong(addresses, norms, valid, a, candidates, |candidates|, best)
    ensures best.Some? && best.value.sim >= Sim(addresses, norms, valid[a], valid[c])
    ensures IsNearest(addresses, norms, valid[a], best)
  {
    hide Sim, Dist2;
    var i, bound := valid[a], Sim(addresses, norms, valid[a], valid[c]);
    assert c in candidates;
    assert best.Some? && best.value.sim >= bound;
    forall j | 0 <= j < |norms| && Rival(norms, i, j)
      ensures Sim(addresses, norms, i, j) <= best.value.sim
      ensures j < best.value.index ==> Sim(addresses, norms, i, j) < best.value.sim
    {
      assert j in valid;
      var b :| 0 <= b < |valid| && valid[b] == j;
      if Sim(addresses, norms, i, j) >= bound {
        assert Dist2(proj[a], proj[b]) <= 2.0 - 2.0 * Sim(addresses, norms, valid[a], valid[b]);
        assert b in candidates;
      }
    }
  }

  predicate Ascending(a: nat, b: nat) {
    a <= b
  }

  /** The search of one location: a neighbour c by the tree, every point inside
      c's bound, and a full comparison of those. `fellBack` says whether the
      bound lost a point, which it never does in exact arithmetic. */
  method SearchOne(addresses: seq<Vec>, norms: seq<real>, valid: seq<nat>, tree: KdTree.KdTree, a: nat)
    returns (r: Option<Neighbour>, ghost fellBack: bool)
    requires |norms| == |addresses| && ListsUsable(norms, |norms|, valid)
    requires tree.Valid() && Stands(addresses, norms, valid, tree.points)
    requires a < |valid|
    ensures IsNearest(addresses, norms, valid[a], r) && !fellBack
  {
    hide Sim, Dist2, BestAmong, IsNearest;
    fellBack := false;
    var q := tree.points[a];
    var found := tree.NearestExcluding(q, a);
    if found.None? {
      r := BruteOne(addresses, norms, valid[a]);
      return;
    }
    var c := found.value;
    var bound := Sim(addresses, norms, valid[a], valid[c]);
    var radius2 := (if 2.0 - 2.0 * bound > 0.0 then 2.0 - 2.0 * bound else 0.0) + SLACK;
    var within := tree.Within(q, radius2, []);
    var candidates := SortedCandidates(within);
    MembersByCount(within, candidates, tree.points, q, radius2);
    var best := ScanCandidates(addresses, norms, valid, a, candidates);
    if best.None? || best.value.sim < bound {
      r := BruteOne(addresses, norms, valid[a]);
      fellBack := true;
      CandidatesSuffice(addresses, norms, valid, tree.points, a, c, radius2, candidates, best);
      assert false;
    } else {
      CandidatesSuffice(addresses, norms, valid, tree.points, a, c, radius2, candidates, best);
      r := best;
    }
  }

  /** `sort_unstable` of the candidates. */
  method SortedCandidates(within: seq<nat>) returns (candidates: seq<nat>)
    ensures multiset(candidates) == multiset(within)
    ensures forall s, t | 0 <= s < t < |candidates| :: candidates[s] <= candidates[t]
  {
    candidates := Sorting.Sort(within, Ascending);
    Sorting.SortIsPermutation(within, Ascending);
    Sorting.SortIsSorted(within, Ascending);
    assert forall s, t | 0 <= s < t < |candidates| :: Ascending(candidates[s], candidates[t]);
  }

  lemma MembersByCount(within: seq<nat>, candidates: seq<nat>, points: seq<Vec>, q: Vec, r2: real)
    requires multiset(candidates) == multiset(within)
    requires forall p | 0 <= p < |points| ::
               multiset(within)[p] == if Dist2(q, points[p]) <= r2 then 1 else 0
    requires forall p: nat | p >= |points| :: multiset(within)[p] == 0
    ensures forall b: nat :: b in candidates <==> b < |points| && Dist2(q, points[b]) <= r2
    ensures forall t | 0 <= t < |candidates| :: candidates[t] < |points|
  {
    hide Dist2;
    forall b: nat
      ensures b in candidates <==> b < |points| && Dist2(q, points[b]) <= r2
    {
      assert b in candidates <==> multiset(candidates)[b] > 0;
    }
    forall t | 0 <= t < |candidates|
      ensures candidates[t] < |points|
    {
      assert candidates[t] in candidates;
    }
  }

  /** Every address has d coordinates. */
  predicate Uniform(addresses: seq<Vec>, d: nat) {
    forall i | 0 <= i < |addresses| :: |addresses[i]| == d
  }

  function SumOfSquares(rows: seq<Vec>): real {
    if rows == [] then 0.0 else SumOfSquares(rows[..|rows| - 1]) + Dot(rows[|rows| - 1], rows[|rows| - 1])
  }

  /** `projected_with`: the projected search, or nothing where it does not
      apply. `start` is the random start of the subspace iteration. */
  method ProjectedWith(addresses: seq<Vec>, norms: seq<real>, minCaptured: real, minPoints: nat,
                       start: seq<Vec>, sqrt: real -> real)
    returns (out: Option<seq<Option<Neighbour>>>, ghost fellBack: bool)
    requires Norms(addresses, norms) && SquareRoot(sqrt)
    requires addresses != [] ==> Rows(start, |addresses[0]|)
    ensures out.Some? ==> |out.value| == |norms|
                          && forall i | 0 <= i < |norms| :: IsNearest(addresses, norms, i, out.value[i])
    ensures !fellBack
    ensures out.Some? ==> addresses != [] && |addresses[0]| >= MIN_DIM && Uniform(addresses, |addresses[0]|)
                          && |ValidBelow(norms, |norms|)| >= minPoints
  {
    hide Sim, Dist2, Dot, IsNearest, Stands;
    fellBack := false;
    if addresses == [] {
      return None, fellBack;
    }
    var d := |addresses[0]|;
    var valid := ValidBelow(norms, |norms|);
    ValidListsUsable(norms, |norms|);
    if |valid| < minPoints || |valid| < 2 || d < MIN_DIM || !Uniform(addresses, d) {
      return None, fellBack;
    }
    var units := seq(|valid|, a requires 0 <= a < |valid| => UnitAddress(addresses, norms, valid[a]));
    var mean := ColumnMean(units, d);
    var points := seq(|valid|, a requires 0 <= a < |valid| => Sub(units[a], mean));
    var basis := PrincipalDirections(points, d, start, sqrt);
    if |basis| == 0 {
      return None, fellBack;
    }
    var proj := seq(|valid|, a requires 0 <= a < |valid| => Project(points[a], basis));
    var total, kept := SumOfSquares(points), SumOfSquares(proj);
    if total <= 0.0 || kept / total < minCaptured {
      return None, fellBack;
    }
    ProjectedPointsStand(addresses, norms, valid, mean, basis, proj, d);
    var tree := new KdTree.KdTree.Build(proj, |basis|);
    var result, fell := SearchAll(addresses, norms, valid, tree);
    out := Some(result);
    fellBack := fell;
  }

  /** Every usable location searched, the others left without a neighbour. */
  method SearchAll(addresses: seq<Vec>, norms: seq<real>, valid: seq<nat>, tree: KdTree.KdTree)
    returns (result: seq<Option<Neighbour>>, ghost fellBack: bool)
    requires |norms| == |addresses| && ListsUsable(norms, |norms|, valid)
    requires tree.Valid() && Stands(addresses, norms, valid, tree.points)
    ensures |result| == |norms| && !fellBack
    ensures forall i | 0 <= i < |norms| :: IsNearest(addresses, norms, i, result[i])
  {
    hide Sim, Dist2, IsNearest, Stands;
    fellBack := false;
    result := seq(|norms|, _ => None);
    NoneForUnusable(addresses, norms);
    for a := 0 to |valid|
      invariant |result| == |norms| && !fellBack
      invariant forall i | 0 <= i < |norms| && !Usable(norms, i) :: IsNearest(addresses, norms, i, result[i])
      invariant forall b | 0 <= b < a :: IsNearest(addresses, norms, valid[b], result[valid[b]])
    {
      var r, fell := SearchOne(addresses, norms, valid, tree, a);
      result := result[valid[a] := r];
      fellBack := fellBack || fell;
    }
    assert forall i | 0 <= i < |norms| && Usable(norms, i) :: i in valid;
  }

  lemma NoneForUnusable(addresses: seq<Vec>, norms: seq<real>)
    requires |norms| == |addresses|
    ensures forall i | 0 <= i < |norms| && !Usable(norms, i) :: IsNearest(addresses, norms, i, None)
  {
  }

  lemma ProjectedPointsStand(addresses: seq<Vec>, norms: seq<real>, valid: seq<nat>, mean: Vec, basis: seq<Vec>,
                             proj: seq<Vec>, d: nat)
    requires Norms(addresses, norms) && ListsUsable(norms, |norms|, valid) && Uniform(addresses, d)
    requires |mean| == d && Orthonormal(basis, d) && |proj| == |valid|
    requires forall a | 0 <= a < |valid| :: proj[a] == ProjectLocation(addresses, norms, valid[a], mean, basis)
    ensures Stands(addresses, norms, valid, proj)
  {
    hide Sim, Dist2, ProjectLocation;
    forall a, b | 0 <= a < |valid| && 0 <= b < |valid|
      ensures Dist2(proj[a], proj[b]) <= 2.0 - 2.0 * Sim(addresses, norms, valid[a], valid[b])
    {
      ProjectionStands(addresses, norms, valid[a], valid[b], mean, basis);
    }
  }

  /** `nearest_neighbors`: the projected search where it applies, the tiled scan
      elsewhere; for every location the one answer either way. */
  method NearestNeighbors(addresses: seq<Vec>, norms: seq<real>, start: seq<Vec>, sqrt: real -> real)
    returns (out: seq<Option<Neighbour>>)
    requires Norms(addresses, norms) && SquareRoot(sqrt)
    requires addresses != [] ==> Rows(start, |addresses[0]|)
    ensures |out| == |norms|
    ensures forall i | 0 <= i < |norms| :: IsNearest(addresses, norms, i, out[i])
  {
    var projected, fellBack := ProjectedWith(addresses, norms, MIN_CAPTURED, MIN_PROJECTED, start, sqrt);
    if projected.Some? {
      return projected.value;
    }
    out := Brute(addresses, norms);
  }
}
