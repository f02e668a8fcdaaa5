/** The standard model of floating-point rounding (round-to-nearest, section
    4.3.1 of IEEE 754-2019, without underflow), and the two dot products of the
    engine in it: scan.rs's sixteen-accumulator f32 dot and vec_ops.rs's f64 dot. */
module Rounding {
  import opened Vectors

  /** Unit roundoffs: half the distance from 1 to the next float. */
  const U32: real := 1.0 / 16777216.0
  const EPSILON64: real := 1.0 / 4503599627370496.0
  const U64: real := EPSILON64 / 2.0
  /** The smallest normal f32, 2^-126. */
  const MIN_POSITIVE32: real := 1.0 / 85070591730234615865843651857942052864.0

  const LANES: nat := 16

  /** 1 / (1 - 0.0099), rounded up: less than the 1.01 of `error_bound`. */
  const MARGIN: real := 1.009999
  /** What is left of that 1.01 covers norms that come out a little short. */
  const SHORTFALL: real := 1.00000045

  /** Rounding to a format: within a relative u, and exact on the format's own values. */
  ghost predicate Rounds(rnd: real -> real, u: real) {
    && (forall x: real :: Abs(rnd(x) - x) <= u * Abs(x))
    && (forall x: real :: rnd(rnd(x)) == rnd(x))
  }

  /** (1 + u)^n - 1, the relative error n roundings may add up to. */
  ghost function Gamma(u: real, n: nat): real {
    if n == 0 then 0.0 else (1.0 + u) * Gamma(u, n - 1) + u
  }

  /** s approximates the exact sum `sum`, whose terms have absolute sum `mass`,
      with at most n roundings on the way of each term. */
  ghost predicate Close(s: real, sum: real, mass: real, u: real, n: nat) {
    && Abs(sum) <= mass
    && Abs(s - sum) <= Gamma(u, n) * mass
  }

  lemma {:induction false} GammaGrows(u: real, n: nat)
    requires u >= 0.0
    ensures 0.0 <= Gamma(u, n) <= Gamma(u, n + 1)
  {
    if n > 0 {
      GammaGrows(u, n - 1);
    }
    var g := Gamma(u, n);
    assert (1.0 + u) * g + u >= g by {
      NonNegativeProduct(u, g);
    }
  }

  lemma {:induction false} GammaMonotone(u: real, n: nat, m: nat)
    requires u >= 0.0 && n <= m
    ensures Gamma(u, n) <= Gamma(u, m)
  {
    if n < m {
      GammaMonotone(u, n, m - 1);
      GammaGrows(u, m - 1);
    }
  }

  lemma {:induction false} GammaBelow(u: real, n: nat)
    requires u >= 0.0 && (n as real) * u <= 1.0
    ensures (1.0 + Gamma(u, n)) * (1.0 - (n as real) * u) <= 1.0
  {
    if n > 0 {
      var p, z := 1.0 + Gamma(u, n - 1), (n - 1) as real * u;
      assert (n as real) * u == z + u;
      GammaGrows(u, n - 1);
      GammaBelow(u, n - 1);
      NonNegativeProduct(p, u * (z + u)) by {
        NonNegativeProduct(u, z + u);
      }
      assert (1.0 + u) * (1.0 - (z + u)) == 1.0 - z - u * (z + u);
      GammaBelowStep(p, z, u);
    }
  }

  lemma GammaBelowStep(p: real, z: real, u: real)
    requires p * (1.0 - z) <= 1.0 && p * (u * (z + u)) >= 0.0
    ensures ((1.0 + u) * p) * (1.0 - (z + u)) <= 1.0
  {
    calc {
      ((1.0 + u) * p) * (1.0 - (z + u));
      p * ((1.0 + u) * (1.0 - (z + u)));
      p * (1.0 - z - u * (z + u));
      p * (1.0 - z) - p * (u * (z + u));
    }
  }

  /** While n roundings stay small together, their error is at most 1.01 n u, with a
      millionth to spare. */
  lemma GammaLinear(u: real, n: nat)
    requires u >= 0.0 && (n as real) * u <= 0.0099
    ensures Gamma(u, n) <= MARGIN * ((n as real) * u)
  {
    hide Gamma;
    NonNegativeProduct(n as real, u);
    GammaBelow(u, n);
    InverseLinear(1.0 + Gamma(u, n), (n as real) * u);
  }

  lemma InverseLinear(p: real, z: real)
    requires 0.0 <= z <= 0.0099 && p * (1.0 - z) <= 1.0
    ensures p <= 1.0 + MARGIN * z
  {
    NonNegativeProduct(z, MARGIN - 1.0 - MARGIN * z);
    assert (1.0 + MARGIN * z) * (1.0 - z) == 1.0 + z * (MARGIN - 1.0 - MARGIN * z);
    if p > 1.0 + MARGIN * z {
      StrictlyBelow(1.0 + MARGIN * z, p, 1.0 - z);
    }
  }

  lemma StrictlyBelow(a: real, b: real, x: real)
    requires a < b && x > 0.0
    ensures a * x < b * x
  {
  }

  lemma ScaleBelow(a: real, b: real, x: real)
    requires a <= b && x >= 0.0
    ensures a * x <= b * x
  {
  }

  lemma AbsProduct(x: real, y: real)
    ensures Abs(x * y) == Abs(x) * Abs(y)
  {
  }

  // ----- how closeness propagates

  lemma CloseWeaken(s: real, sum: real, mass: real, u: real, n: nat, m: nat)
    requires u >= 0.0 && n <= m && Close(s, sum, mass, u, n)
    ensures Close(s, sum, mass, u, m)
  {
    GammaMonotone(u, n, m);
    ScaleBelow(Gamma(u, n), Gamma(u, m), mass);
  }

  lemma RoundedOnce(rnd: real -> real, u: real, x: real)
    requires Rounds(rnd, u)
    ensures Abs(rnd(x) - x) <= u * Abs(x)
  {
  }

  /** Rounding a close value costs one more rounding. */
  lemma CloseRound(rnd: real -> real, s: real, sum: real, mass: real, u: real, n: nat)
    requires Rounds(rnd, u) && u >= 0.0 && Close(s, sum, mass, u, n)
    ensures Close(rnd(s), sum, mass, u, n + 1)
  {
    hide Gamma, Rounds, Abs;
    GammaStep(u, n);
    RoundedOnce(rnd, u, s);
    Triangle(s, sum, sum);
    Triangle(rnd(s), s, sum);
    RoundStep(u, Abs(s), Gamma(u, n), Gamma(u, n + 1), mass);
  }

  lemma Triangle(a: real, b: real, c: real)
    ensures Abs(a - c) <= Abs(a - b) + Abs(b - c)
    ensures Abs(a) <= Abs(a - b) + Abs(b)
  {
  }

  lemma GammaStep(u: real, n: nat)
    ensures Gamma(u, n + 1) == (1.0 + u) * Gamma(u, n) + u
  {
  }

  lemma RoundStep(u: real, s: real, g: real, next: real, mass: real)
    requires u >= 0.0 && s <= g * mass + mass && next == (1.0 + u) * g + u
    ensures u * s + g * mass <= next * mass
  {
    ScaleBelow(s, g * mass + mass, u);
    assert s * u <= (g * mass + mass) * u;
    assert ((1.0 + u) * g + u) * mass == g * mass + u * (g * mass) + u * mass;
  }

  /** Sums of close values are close to the sums. */
  lemma CloseSum(s: real, sum: real, mass: real, t: real, sum': real, mass': real, u: real, n: nat)
    requires Close(s, sum, mass, u, n) && Close(t, sum', mass', u, n)
    ensures Close(s + t, sum + sum', mass + mass', u, n)
  {
    hide Gamma;
    var g := Gamma(u, n);
    assert g * (mass + mass') == g * mass + g * mass';
  }

  /** `sum += x` for close operands. */
  lemma CloseAdd(rnd: real -> real, s: real, sum: real, mass: real, t: real, sum': real, mass': real, u: real, n: nat)
    requires Rounds(rnd, u) && u >= 0.0
    requires Close(s, sum, mass, u, n) && Close(t, sum', mass', u, n)
    ensures Close(rnd(s + t), sum + sum', mass + mass', u, n + 1)
  {
    hide Gamma, Rounds, Close;
    CloseSum(s, sum, mass, t, sum', mass', u, n);
    CloseRound(rnd, s + t, sum + sum', mass + mass', u, n);
  }

  /** The rounded product of two rounded factors: three roundings, over the products
      given by name. */
  lemma CloseProduct(rnd: real -> real, x: real, y: real, u: real, pq: real, xy: real, mass: real)
    requires Rounds(rnd, u) && u >= 0.0
    requires pq == rnd(x) * rnd(y) && xy == x * y && mass == Abs(x) * Abs(y)
    ensures Close(rnd(pq), xy, mass, u, 3)
  {
    hide Rounds, Abs, Close;
    RoundedOnce(rnd, u, x);
    RoundedOnce(rnd, u, y);
    ProductOfRounded(x, y, rnd(x), rnd(y), u, pq, xy, mass);
    CloseRound(rnd, pq, xy, mass, u, 2);
  }

  lemma ProductOfRounded(x: real, y: real, p: real, q: real, u: real, pq: real, xy: real, mass: real)
    requires Abs(p - x) <= u * Abs(x) && Abs(q - y) <= u * Abs(y) && u >= 0.0
    requires pq == p * q && xy == x * y && mass == Abs(x) * Abs(y)
    ensures Close(pq, xy, mass, u, 2)
  {
    hide Abs;
    AbsProduct(x, y);
    GammaStep(u, 0);
    GammaStep(u, 1);
    FactorError(x, y, p - x, q - y, u, pq - xy);
  }

  lemma FactorError(x: real, y: real, e: real, f: real, u: real, error: real)
    requires Abs(e) <= u * Abs(x) && Abs(f) <= u * Abs(y) && u >= 0.0
    requires error == x * f + y * e + e * f
    ensures Abs(error) <= ((1.0 + u) * u + u) * (Abs(x) * Abs(y))
  {
    hide Abs;
    FactorTerms(x, y, e, f, u);
    FactorArithmetic(Abs(x), Abs(y), u);
  }

  lemma FactorTerms(x: real, y: real, e: real, f: real, u: real)
    requires Abs(e) <= u * Abs(x) && Abs(f) <= u * Abs(y) && u >= 0.0
    ensures Abs(x * f + y * e + e * f)
            <= Abs(x) * (u * Abs(y)) + Abs(y) * (u * Abs(x)) + (u * Abs(x)) * (u * Abs(y))
  {
    hide Abs;
    AbsNonNegative(x, y);
    AbsNonNegative(e, f);
    AbsProduct(x, f);
    AbsProduct(y, e);
    AbsProduct(e, f);
    ProductBelow(Abs(x), Abs(x), Abs(f), u * Abs(y));
    ProductBelow(Abs(y), Abs(y), Abs(e), u * Abs(x));
    ProductBelow(Abs(e), u * Abs(x), Abs(f), u * Abs(y));
    AbsOfThree(x * f, y * e, e * f);
  }

  lemma AbsNonNegative(x: real, y: real)
    ensures Abs(x) >= 0.0 && Abs(y) >= 0.0
  {
  }

  lemma AbsOfThree(a: real, b: real, c: real)
    ensures Abs(a + b + c) <= Abs(a) + Abs(b) + Abs(c)
  {
  }

  lemma FactorArithmetic(ax: real, ay: real, u: real)
    ensures ax * (u * ay) + ay * (u * ax) + (u * ax) * (u * ay) == ((1.0 + u) * u + u) * (ax * ay)
  {
    var m := ax * ay;
    assert ax * (u * ay) == u * m;
    assert ay * (u * ax) == u * m;
    assert (u * ax) * (u * ay) == u * (u * m);
  }

  lemma ProductBelow(a: real, b: real, c: real, d: real)
    requires 0.0 <= a <= b && 0.0 <= c <= d
    ensures a * c <= b * d
  {
    ScaleBelow(a, b, c);
    ScaleBelow(c, d, b);
    assert c * b <= d * b;
  }

  // ----- the two dot products

  /** The first n terms of the exact dot product, and of its absolute terms. */
  ghost function DotPrefix(a: Vec, b: Vec, n: nat): real
    requires n <= |a| == |b|
  {
    if n == 0 then 0.0 else DotPrefix(a, b, n - 1) + a[n - 1] * b[n - 1]
  }

  ghost function MassPrefix(a: Vec, b: Vec, n: nat): real
    requires n <= |a| == |b|
  {
    if n == 0 then 0.0 else MassPrefix(a, b, n - 1) + Abs(a[n - 1]) * Abs(b[n - 1])
  }

  ghost function Mass(a: Vec, b: Vec): real
    requires |a| == |b|
  {
    MassPrefix(a, b, |a|)
  }

  function AbsAll(v: Vec): (r: Vec)
    ensures |r| == |v|
  {
    if v == [] then [] else [Abs(v[0])] + AbsAll(v[1..])
  }

  lemma {:induction false} DotSnoc(a: Vec, b: Vec, x: real, y: real)
    requires |a| == |b|
    ensures Dot(a + [x], b + [y]) == Dot(a, b) + x * y
  {
    if a == [] {
      assert Dot([x], [y]) == x * y + Dot([x][1..], [y][1..]);
    } else {
      assert (a + [x])[1..] == a[1..] + [x] && (b + [y])[1..] == b[1..] + [y];
      DotSnoc(a[1..], b[1..], x, y);
    }
  }

  lemma {:induction false} PrefixIsDot(a: Vec, b: Vec, n: nat)
    requires n <= |a| == |b|
    ensures DotPrefix(a, b, n) == Dot(a[..n], b[..n])
  {
    if n > 0 {
      PrefixIsDot(a, b, n - 1);
      DotSnoc(a[..n - 1], b[..n - 1], a[n - 1], b[n - 1]);
      assert a[..n] == a[..n - 1] + [a[n - 1]] && b[..n] == b[..n - 1] + [b[n - 1]];
    }
  }

  lemma {:induction false} AbsSnoc(a: Vec, x: real)
    ensures AbsAll(a + [x]) == AbsAll(a) + [Abs(x)]
  {
    if a != [] {
      assert (a + [x])[1..] == a[1..] + [x];
      AbsSnoc(a[1..], x);
    }
  }

  lemma {:induction false} MassIsDot(a: Vec, b: Vec, n: nat)
    requires n <= |a| == |b|
    ensures MassPrefix(a, b, n) == Dot(AbsAll(a[..n]), AbsAll(b[..n]))
  {
    hide Dot, Abs;
    if n > 0 {
      MassIsDot(a, b, n - 1);
      AbsPrefix(a, n);
      AbsPrefix(b, n);
      DotSnoc(AbsAll(a[..n - 1]), AbsAll(b[..n - 1]), Abs(a[n - 1]), Abs(b[n - 1]));
    } else {
      EmptyMass(a[..0], b[..0]);
    }
  }

  lemma EmptyMass(a: Vec, b: Vec)
    requires a == b == []
    ensures Dot(AbsAll(a), AbsAll(b)) == 0.0
  {
  }

  lemma AbsPrefix(a: Vec, n: nat)
    requires 0 < n <= |a|
    ensures AbsAll(a[..n]) == AbsAll(a[..n - 1]) + [Abs(a[n - 1])]
  {
    hide AbsAll, Abs;
    assert a[..n] == a[..n - 1] + [a[n - 1]];
    AbsSnoc(a[..n - 1], a[n - 1]);
  }

  lemma {:induction false} AbsNorm(a: Vec)
    ensures Dot(AbsAll(a), AbsAll(a)) == Dot(a, a)
  {
    if a != [] {
      AbsNorm(a[1..]);
      assert Abs(a[0]) * Abs(a[0]) == a[0] * a[0];
    }
  }

  /** Cauchy-Schwarz for the absolute terms, with bounds on the norms. */
  lemma MassBound(a: Vec, b: Vec, na: real, nb: real)
    requires |a| == |b| && na >= 0.0 && nb >= 0.0
    requires Dot(a, a) <= na * na && Dot(b, b) <= nb * nb
    ensures 0.0 <= Mass(a, b) <= na * nb
  {
    hide Dot, AbsAll;
    var m := Mass(a, b);
    MassIsDot(a, b, |a|);
    assert a[..|a|] == a && b[..|b|] == b;
    AbsNorm(a);
    AbsNorm(b);
    CauchySchwarz(AbsAll(a), AbsAll(b));
    DotSelfNonNegative(a);
    DotSelfNonNegative(b);
    MassNonNegative(a, b, |a|);
    SquaresBelow(m, Dot(a, a), Dot(b, b), na, nb);
  }

  lemma {:induction false} MassNonNegative(a: Vec, b: Vec, n: nat)
    requires n <= |a| == |b|
    ensures MassPrefix(a, b, n) >= 0.0
  {
    if n > 0 {
      MassNonNegative(a, b, n - 1);
      NonNegativeProduct(Abs(a[n - 1]), Abs(b[n - 1]));
    }
  }

  lemma SquaresBelow(m: real, aa: real, bb: real, na: real, nb: real)
    requires m >= 0.0 && na >= 0.0 && nb >= 0.0 && m * m <= aa * bb
    requires 0.0 <= aa <= na * na && 0.0 <= bb <= nb * nb
    ensures m <= na * nb
  {
    ProductBelow(aa, na * na, bb, nb * nb);
    var z := na * nb;
    assert (na * na) * (nb * nb) == z * z;
    NonNegativeProduct(na, nb);
    SquareRootBelow(m, z);
  }

  lemma DifferenceOfSquares(m: real, z: real)
    ensures (m - z) * (m + z) == m * m - z * z
  {
  }

  lemma SquareRootBelow(m: real, z: real)
    requires m >= 0.0 && z >= 0.0 && m * m <= z * z
    ensures m <= z
  {
    if m > z {
      StrictlyBelow(0.0, m - z, m + z);
      DifferenceOfSquares(m, z);
    }
  }

  function Term64(x: real, y: real, rnd: real -> real): real {
    rnd(x * y)
  }

  lemma TermClose(x: real, y: real, rnd: real -> real, xy: real, mass: real)
    requires Rounds(rnd, U64) && xy == x * y && mass == Abs(x) * Abs(y)
    ensures Close(Term64(x, y, rnd), xy, mass, U64, 1)
  {
    hide Rounds, Close;
    CloseExact(xy, mass, U64);
    CloseRound(rnd, xy, xy, mass, U64, 0);
  }

  /** `vec_ops::dot` as f64 arithmetic computes it, left to right. */
  function Dot64(a: Vec, b: Vec, n: nat, rnd: real -> real): real
    requires n <= |a| == |b|
  {
    if n == 0 then 0.0 else rnd(Dot64(a, b, n - 1, rnd) + Term64(a[n - 1], b[n - 1], rnd))
  }

  lemma CloseExact(s: real, mass: real, u: real)
    requires Abs(s) <= mass
    ensures Close(s, s, mass, u, 0)
  {
  }

  lemma {:induction false} Dot64Close(a: Vec, b: Vec, n: nat, rnd: real -> real)
    requires n <= |a| == |b| && Rounds(rnd, U64)
    ensures Close(Dot64(a, b, n, rnd), DotPrefix(a, b, n), MassPrefix(a, b, n), U64, n + 1)
  {
    hide Rounds, Close, Abs, Term64;
    if n == 0 {
      CloseZero(U64, 1);
    } else {
      Dot64Close(a, b, n - 1, rnd);
      var xy, mass := a[n - 1] * b[n - 1], Abs(a[n - 1]) * Abs(b[n - 1]);
      var term := Term64(a[n - 1], b[n - 1], rnd);
      TermClose(a[n - 1], b[n - 1], rnd, xy, mass);
      CloseWeaken(term, xy, mass, U64, 1, n);
      CloseAdd(rnd, Dot64(a, b, n - 1, rnd), DotPrefix(a, b, n - 1), MassPrefix(a, b, n - 1), term, xy, mass, U64, n);
      CloseSame(Dot64(a, b, n, rnd), DotPrefix(a, b, n - 1) + xy, MassPrefix(a, b, n - 1) + mass,
                DotPrefix(a, b, n), MassPrefix(a, b, n), U64, n + 1);
    }
  }

  lemma CloseSame(s: real, sum: real, mass: real, sum': real, mass': real, u: real, n: nat)
    requires Close(s, sum, mass, u, n) && sum == sum' && mass == mass'
    ensures Close(s, sum', mass', u, n)
  {
  }

  lemma CloseZero(u: real, n: nat)
    ensures Close(0.0, 0.0, 0.0, u, n)
  {
  }

  /** An accumulator that has taken m terms: untouched, or close with m + 2
      roundings (three for the first product, one for each later addition). */
  ghost predicate Accumulated(s: real, sum: real, mass: real, rnd: real -> real, u: real, m: nat) {
    && rnd(s) == s
    && if m == 0 then s == sum == mass == 0.0 else Close(s, sum, mass, u, m + 2)
  }

  lemma RoundedTwice(rnd: real -> real, u: real, x: real)
    requires Rounds(rnd, u)
    ensures rnd(rnd(x)) == rnd(x)
  {
  }

  lemma RoundedZero(rnd: real -> real, u: real)
    requires Rounds(rnd, u)
    ensures rnd(0.0) == 0.0
  {
    RoundedOnce(rnd, u, 0.0);
  }

  /** One more term into an accumulator. */
  lemma Accumulate(s: real, sum: real, mass: real, rnd: real -> real, u: real, m: nat,
                   x: real, y: real, pq: real, xy: real, axy: real)
    requires Rounds(rnd, u) && u >= 0.0 && Accumulated(s, sum, mass, rnd, u, m)
    requires pq == rnd(x) * rnd(y) && xy == x * y && axy == Abs(x) * Abs(y)
    ensures Accumulated(rnd(s + rnd(pq)), sum + xy, mass + axy, rnd, u, m + 1)
  {
    hide Rounds, Close, Abs;
    CloseProduct(rnd, x, y, u, pq, xy, axy);
    var t := s + rnd(pq);
    RoundedTwice(rnd, u, t);
    if m == 0 {
      RoundedTwice(rnd, u, pq);
      assert t == rnd(pq);
    } else {
      CloseWeaken(rnd(pq), xy, axy, u, 3, m + 2);
      CloseAdd(rnd, s, sum, mass, rnd(pq), xy, axy, u, m + 2);
    }
  }

  function Total(s: seq<real>): real {
    if s == [] then 0.0 else Total(s[..|s| - 1]) + s[|s| - 1]
  }

  lemma {:induction false} TotalUpdate(s: seq<real>, l: nat, v: real)
    requires l < |s|
    ensures Total(s[l := v]) == Total(s) - s[l] + v
  {
    if l < |s| - 1 {
      assert s[l := v][..|s| - 1] == s[..|s| - 1][l := v];
      TotalUpdate(s[..|s| - 1], l, v);
    } else {
      assert s[l := v][..|s| - 1] == s[..|s| - 1];
    }
  }

  /** Lane l has taken c terms, or c + 1 when l < j. */
  ghost predicate Lanes(acc: seq<real>, sums: seq<real>, masses: seq<real>, rnd: real -> real, u: real, c: nat, j: nat) {
    && |acc| == |sums| == |masses| == LANES
    && forall l | 0 <= l < LANES :: Accumulated(acc[l], sums[l], masses[l], rnd, u, if l < j then c + 1 else c)
  }

  /** The lanes added up: sixteen partial sums of c terms each make one of 16 c. */
  ghost predicate Folded(s: real, acc: seq<real>, sums: seq<real>, masses: seq<real>, rnd: real -> real, u: real,
                         c: nat, l: nat)
    requires |acc| == |sums| == |masses| == LANES && l <= LANES
  {
    Accumulated(s, Total(sums[..l]), Total(masses[..l]), rnd, u, if l == 0 || c == 0 then 0 else c + l - 1)
  }

  lemma FoldLane(s: real, acc: seq<real>, sums: seq<real>, masses: seq<real>, rnd: real -> real, u: real, c: nat, l: nat)
    requires Rounds(rnd, u) && u >= 0.0 && Lanes(acc, sums, masses, rnd, u, c, 0) && l < LANES
    requires Folded(s, acc, sums, masses, rnd, u, c, l)
    ensures Folded(rnd(s + acc[l]), acc, sums, masses, rnd, u, c, l + 1)
  {
    hide Rounds, Close;
    assert sums[..l + 1][..l] == sums[..l] && masses[..l + 1][..l] == masses[..l];
    var t := s + acc[l];
    RoundedTwice(rnd, u, t);
    if l == 0 || c == 0 {
      assert t == acc[l];
    } else {
      CloseWeaken(acc[l], sums[l], masses[l], u, c + 2, c + l + 1);
      CloseAdd(rnd, s, Total(sums[..l]), Total(masses[..l]), acc[l], sums[l], masses[l], u, c + l + 1);
    }
  }

  /** The next term goes to lane j: that lane, and the totals, gain it. */
  lemma LaneGains(acc: seq<real>, sums: seq<real>, masses: seq<real>, rnd: real -> real, u: real, c: nat, j: nat,
                  x: real, y: real, pq: real, xy: real, axy: real)
    requires Rounds(rnd, u) && u >= 0.0 && Lanes(acc, sums, masses, rnd, u, c, j) && j < LANES
    requires pq == rnd(x) * rnd(y) && xy == x * y && axy == Abs(x) * Abs(y)
    ensures Lanes(acc[j := rnd(acc[j] + rnd(pq))], sums[j := sums[j] + xy], masses[j := masses[j] + axy], rnd, u, c, j + 1)
    ensures Total(sums[j := sums[j] + xy]) == Total(sums) + xy
    ensures Total(masses[j := masses[j] + axy]) == Total(masses) + axy
  {
    hide Rounds, Accumulated, Abs;
    Accumulate(acc[j], sums[j], masses[j], rnd, u, c, x, y, pq, xy, axy);
    TotalUpdate(sums, j, sums[j] + xy);
    TotalUpdate(masses, j, masses[j] + axy);
  }

  /** The rounded product of two elements already rounded. */
  function Product32(x: real, y: real, rnd: real -> real): real {
    rnd(x * y)
  }

  /** `to_f32`. */
  function ToF32(v: Vec, rnd: real -> real): (r: Vec)
    ensures |r| == |v|
  {
    seq(|v|, i requires 0 <= i < |v| => rnd(v[i]))
  }

  /** The prefix sums with one more term, and the term's product by name. */
  lemma NextTerm(q: Vec, x: Vec, i: nat, a: real, b: real, rnd: real -> real)
    returns (pq: real, xy: real, axy: real)
    requires i < |q| == |x| && a == rnd(q[i]) && b == rnd(x[i])
    ensures pq == rnd(q[i]) * rnd(x[i]) && xy == q[i] * x[i] && axy == Abs(q[i]) * Abs(x[i])
    ensures Product32(a, b, rnd) == rnd(pq)
    ensures DotPrefix(q, x, i + 1) == DotPrefix(q, x, i) + xy
    ensures MassPrefix(q, x, i + 1) == MassPrefix(q, x, i) + axy
  {
    pq, xy, axy := a * b, q[i] * x[i], Abs(q[i]) * Abs(x[i]);
    RoundedProduct(a, b, rnd, pq);
  }

  lemma RoundedProduct(a: real, b: real, rnd: real -> real, p: real)
    requires p == a * b
    ensures Product32(a, b, rnd) == rnd(p)
  {
  }

  /** One pass of the inner loop of `dot_f32`: sixteen terms, one a lane. */
  method DotChunk(a: Vec, b: Vec, acc: array<real>, c: nat, rnd: real -> real, ghost q: Vec, ghost x: Vec,
                  ghost sums: seq<real>, ghost masses: seq<real>)
    returns (ghost sums': seq<real>, ghost masses': seq<real>)
    requires Rounds(rnd, U32) && |q| == |x| && a == ToF32(q, rnd) && b == ToF32(x, rnd)
    requires LANES * (c + 1) <= |q| && acc.Length == LANES && Lanes(acc[..], sums, masses, rnd, U32, c, 0)
    requires |sums| == |masses| == LANES
    requires Total(sums) == DotPrefix(q, x, LANES * c) && Total(masses) == MassPrefix(q, x, LANES * c)
    modifies acc
    ensures |sums'| == |masses'| == LANES
    ensures Lanes(acc[..], sums', masses', rnd, U32, c + 1, 0)
    ensures Total(sums') == DotPrefix(q, x, LANES * (c + 1)) && Total(masses') == MassPrefix(q, x, LANES * (c + 1))
  {
    hide Rounds, Accumulated, Abs, DotPrefix, MassPrefix, Product32, Total, Lanes;
    sums', masses' := sums, masses;
    for j := 0 to LANES
      invariant |sums'| == |masses'| == LANES
      invariant Lanes(acc[..], sums', masses', rnd, U32, c, j)
      invariant Total(sums') == DotPrefix(q, x, LANES * c + j) && Total(masses') == MassPrefix(q, x, LANES * c + j)
    {
      ghost var i := LANES * c + j;
      ghost var pq, xy, axy := NextTerm(q, x, i, a[LANES * c + j], b[LANES * c + j], rnd);
      LaneGains(acc[..], sums', masses', rnd, U32, c, j, q[i], x[i], pq, xy, axy);
      ghost var before := acc[..];
      acc[j] := rnd(acc[j] + Product32(a[LANES * c + j], b[LANES * c + j], rnd));
      assert acc[..] == before[j := rnd(before[j] + rnd(pq))] by {
        assert before[j] + Product32(a[i], b[i], rnd) == before[j] + rnd(pq);
      }
      sums', masses' := sums'[j := sums'[j] + xy], masses'[j := masses'[j] + axy];
    }
    LanesFull(acc[..], sums', masses', rnd, U32, c);
  }

  lemma LanesFull(acc: seq<real>, sums: seq<real>, masses: seq<real>, rnd: real -> real, u: real, c: nat)
    requires Lanes(acc, sums, masses, rnd, u, c, LANES)
    ensures Lanes(acc, sums, masses, rnd, u, c + 1, 0)
  {
    hide Accumulated;
  }

  /** `acc.iter().sum()`. */
  method SumLanes(acc: array<real>, c: nat, rnd: real -> real, ghost sums: seq<real>, ghost masses: seq<real>)
    returns (sum: real)
    requires Rounds(rnd, U32) && acc.Length == LANES && Lanes(acc[..], sums, masses, rnd, U32, c, 0)
    ensures Accumulated(sum, Total(sums), Total(masses), rnd, U32, LANES * c)
  {
    hide Rounds, Close;
    sum := 0.0;
    RoundedZero(rnd, U32);
    for l := 0 to LANES
      invariant Folded(sum, acc[..], sums, masses, rnd, U32, c, l)
    {
      FoldLane(sum, acc[..], sums, masses, rnd, U32, c, l);
      sum := rnd(sum + acc[l]);
    }
    assert sums[..LANES] == sums && masses[..LANES] == masses;
    if c > 0 {
      CloseWeaken(sum, Total(sums), Total(masses), U32, c + LANES + 1, LANES * c + 2);
    }
  }

  /** `dot_f32`: sixteen accumulators, then their sum, then the remainder. At
      most |q| + 2 roundings on the way of each term. */
  method DotF32(a: Vec, b: Vec, rnd: real -> real, ghost q: Vec, ghost x: Vec) returns (sum: real)
    requires Rounds(rnd, U32) && |q| == |x| && a == ToF32(q, rnd) && b == ToF32(x, rnd)
    ensures Close(sum, DotPrefix(q, x, |q|), Mass(q, x), U32, |q| + 2)
  {
    hide Rounds, Close, Abs, DotPrefix, MassPrefix, Product32;
    var acc := new real[LANES](_ => 0.0);
    ghost var sums, masses := seq(LANES, _ => 0.0), seq(LANES, _ => 0.0);
    var chunks := |a| / LANES;
    LanesEmpty(acc[..], sums, masses, rnd, q, x);
    for c := 0 to chunks
      invariant Lanes(acc[..], sums, masses, rnd, U32, c, 0)
      invariant Total(sums) == DotPrefix(q, x, LANES * c) && Total(masses) == MassPrefix(q, x, LANES * c)
    {
      sums, masses := DotChunk(a, b, acc, c, rnd, q, x, sums, masses);
    }
    sum := SumLanes(acc, chunks, rnd, sums, masses);
    sum := AddRemainder(a, b, LANES * chunks, sum, rnd, q, x, Total(sums), Total(masses));
    AccumulatedClose(sum, DotPrefix(q, x, |q|), Mass(q, x), rnd, |q|);
  }

  lemma AccumulatedClose(s: real, sum: real, mass: real, rnd: real -> real, m: nat)
    requires Accumulated(s, sum, mass, rnd, U32, m)
    ensures Close(s, sum, mass, U32, m + 2)
  {
  }

  lemma LanesEmpty(acc: seq<real>, sums: seq<real>, masses: seq<real>, rnd: real -> real, q: Vec, x: Vec)
    requires Rounds(rnd, U32) && |q| == |x|
    requires |acc| == |sums| == |masses| == LANES
    requires forall l | 0 <= l < LANES :: acc[l] == sums[l] == masses[l] == 0.0
    ensures Lanes(acc, sums, masses, rnd, U32, 0, 0)
    ensures Total(sums) == DotPrefix(q, x, 0) && Total(masses) == MassPrefix(q, x, 0)
  {
    RoundedZero(rnd, U32);
    TotalZero(sums);
    TotalZero(masses);
  }

  lemma {:induction false} TotalZero(s: seq<real>)
    requires forall l | 0 <= l < |s| :: s[l] == 0.0
    ensures Total(s) == 0.0
  {
    if s != [] {
      TotalZero(s[..|s| - 1]);
    }
  }

  /** The terms after the last full chunk, added to the sum one by one. */
  method AddRemainder(a: Vec, b: Vec, from: nat, start: real, rnd: real -> real, ghost q: Vec, ghost x: Vec,
                      ghost dot: real, ghost mass: real)
    returns (sum: real)
    requires Rounds(rnd, U32) && |q| == |x| && a == ToF32(q, rnd) && b == ToF32(x, rnd) && from <= |q|
    requires dot == DotPrefix(q, x, from) && mass == MassPrefix(q, x, from)
    requires Accumulated(start, dot, mass, rnd, U32, from)
    ensures Accumulated(sum, DotPrefix(q, x, |q|), Mass(q, x), rnd, U32, |q|)
  {
    hide Rounds, Accumulated, Abs, DotPrefix, MassPrefix, Product32;
    sum := start;
    ghost var d, m := dot, mass;
    for i := from to |a|
      invariant d == DotPrefix(q, x, i) && m == MassPrefix(q, x, i)
      invariant Accumulated(sum, d, m, rnd, U32, i)
    {
      ghost var pq, xy, axy := NextTerm(q, x, i, a[i], b[i], rnd);
      Accumulate(sum, d, m, rnd, U32, i, q[i], x[i], pq, xy, axy);
      sum := rnd(sum + Product32(a[i], b[i], rnd));
      d, m := d + xy, m + axy;
    }
  }

  /** `rel`. */
  function Relative(d: nat): real {
    (d as real + 3.0) * U32 + (d as real) * EPSILON64
  }

  /** `error_bound`. */
  function ErrorBound(d: nat, qNorm: real, maxNorm: real): real {
    1.01 * Relative(d) * qNorm * maxNorm + 2.0 * (d as real) * MIN_POSITIVE32
  }

  /** n is a norm of v, or falls short of it by less than a relative 4.5e-7. */
  ghost predicate CoversNorm(n: real, v: Vec) {
    n >= 0.0 && Dot(v, v) <= (SHORTFALL * n) * (SHORTFALL * n)
  }

  /** The f32 dot differs from the f64 dot by at most `error_bound`, while
      (d + 3) roundings stay below 0.0099. */
  lemma ErrorBoundHolds(q: Vec, x: Vec, approx: real, rnd64: real -> real, qNorm: real, maxNorm: real)
    requires |q| == |x| && Rounds(rnd64, U64)
    requires (|q| as real + 3.0) * U32 <= 0.0099
    requires CoversNorm(qNorm, q) && CoversNorm(maxNorm, x)
    requires Close(approx, DotPrefix(q, x, |q|), Mass(q, x), U32, |q| + 2)
    ensures Abs(approx - Dot64(q, x, |q|, rnd64)) <= ErrorBound(|q|, qNorm, maxNorm)
  {
    hide Rounds, Dot, Gamma, DotPrefix, MassPrefix, Dot64, Abs, ErrorBound;
    var d, m := |q|, Mass(q, x);
    Dot64Close(q, x, d, rnd64);
    MassBound(q, x, SHORTFALL * qNorm, SHORTFALL * maxNorm);
    TotalError(d, m);
    TwoErrors(approx, Dot64(q, x, d, rnd64), DotPrefix(q, x, d), m, Gamma(U32, d + 2), Gamma(U64, d + 1));
    BoundGrows(d, m, qNorm, maxNorm, (SHORTFALL * qNorm) * (SHORTFALL * maxNorm));
  }

  /** At the dimension of the engine's own measurements the bound on unit vectors is just
      under 1e-5, which keeps the candidates few. */
  lemma BoundIsSmall()
    ensures 0.0000078 < ErrorBound(128, 1.0, 1.0) < 0.0000079
  {
  }

  lemma TwoErrors(approx: real, exact: real, dot: real, m: real, g: real, h: real)
    requires Abs(approx - dot) <= g * m && Abs(exact - dot) <= h * m
    ensures Abs(approx - exact) <= (g + h) * m
  {
    assert (g + h) * m == g * m + h * m;
  }

  lemma BoundGrows(d: nat, m: real, qNorm: real, maxNorm: real, product: real)
    requires qNorm >= 0.0 && maxNorm >= 0.0
    requires product == (SHORTFALL * qNorm) * (SHORTFALL * maxNorm) && 0.0 <= m <= product
    ensures (MARGIN * Relative(d)) * m <= ErrorBound(d, qNorm, maxNorm)
  {
    var (rel, nn) := (Relative(d), qNorm * maxNorm);
    assert product == (SHORTFALL * SHORTFALL) * nn;
    ScaleBelow(m, product, MARGIN * rel);
    NonNegativeProduct(qNorm, maxNorm);
    NonNegativeProduct(rel, nn);
    FullMargin(rel, nn, rel * nn);
    assert 1.01 * rel * qNorm * maxNorm == 1.01 * (rel * nn);
  }

  lemma FullMargin(rel: real, nn: real, product: real)
    requires product == rel * nn && product >= 0.0
    ensures ((SHORTFALL * SHORTFALL) * nn) * (MARGIN * rel) <= 1.01 * product
  {
    assert ((SHORTFALL * SHORTFALL) * nn) * (MARGIN * rel) == (SHORTFALL * SHORTFALL * MARGIN) * product;
  }

  lemma TotalError(d: nat, m: real)
    requires (d as real + 3.0) * U32 <= 0.0099 && m >= 0.0
    ensures (Gamma(U32, d + 2) + Gamma(U64, d + 1)) * m <= (MARGIN * Relative(d)) * m
  {
    GammaLinear(U32, d + 2);
    GammaLinear(U64, d + 1);
    assert (d as real + 2.0) * U32 + (d as real + 1.0) * U64 <= Relative(d);
    ScaleBelow(Gamma(U32, d + 2) + Gamma(U64, d + 1), MARGIN * Relative(d), m);
  }

  // ----- the norms as f64 arithmetic computes them

  /** `l2_norm`. */
  function Norm64(v: Vec, rnd64: real -> real, sqrt: real -> real): real {
    rnd64(sqrt(Dot64(v, v, |v|, rnd64)))
  }

  lemma SquaresAreDot(v: Vec)
    ensures DotPrefix(v, v, |v|) == Dot(v, v) == MassPrefix(v, v, |v|) >= 0.0
  {
    hide Dot, DotPrefix, MassPrefix;
    PrefixIsDot(v, v, |v|);
    MassIsDot(v, v, |v|);
    AbsNorm(v);
    assert v[..|v|] == v;
    DotSelfNonNegative(v);
  }

  lemma SmallGamma(d: nat)
    requires (d as real + 3.0) * U32 <= 0.0099
    ensures Gamma(U64, d + 1) <= 0.00000000002
  {
    hide Gamma;
    GammaLinear(U64, d + 1);
  }

  lemma CloseBelow(s: real, sum: real, u: real, n: nat)
    requires Close(s, sum, sum, u, n) && sum >= 0.0 && Gamma(u, n) <= 0.00000000002
    ensures s >= 0.99999999998 * sum
  {
    hide Gamma;
    ScaleBelow(Gamma(u, n), 0.00000000002, sum);
  }

  /** The sum of squares comes out short by less than a relative 2e-11. */
  lemma SquaresClose(v: Vec, rnd64: real -> real)
    requires Rounds(rnd64, U64) && (|v| as real + 3.0) * U32 <= 0.0099
    ensures Dot64(v, v, |v|, rnd64) >= 0.99999999998 * Dot(v, v) >= 0.0
  {
    hide Rounds, Dot, Gamma, Close, DotPrefix, MassPrefix, Dot64;
    Dot64Close(v, v, |v|, rnd64);
    SquaresAreDot(v);
    SmallGamma(|v|);
    CloseBelow(Dot64(v, v, |v|, rnd64), Dot(v, v), U64, |v| + 1);
  }

  /** A norm computed in f64 covers the norm: what the query and the cached bound are
      measured with is good enough for `error_bound`. */
  lemma ComputedNormCovers(v: Vec, rnd64: real -> real, sqrt: real -> real)
    requires Rounds(rnd64, U64) && SquareRoot(sqrt) && (|v| as real + 3.0) * U32 <= 0.0099
    ensures CoversNorm(Norm64(v, rnd64, sqrt), v)
  {
    hide Dot, Dot64, Gamma;
    var s := Dot64(v, v, |v|, rnd64);
    SquaresClose(v, rnd64);
    var root := sqrt(s);
    RoundedRootCovers(Dot(v, v), s, root, rnd64(root));
  }

  lemma RoundedRootCovers(sum: real, s: real, root: real, n: real)
    requires sum >= 0.0 && s >= 0.99999999998 * sum && root >= 0.0 && root * root == s
    requires Abs(n - root) <= U64 * Abs(root)
    ensures n >= 0.0 && sum <= (SHORTFALL * n) * (SHORTFALL * n)
  {
    var low := 1.0000004 * root;
    assert SHORTFALL * n >= low;
    Squares(low, SHORTFALL * n, low * low);
    assert low * low == (1.0000004 * 1.0000004) * s;
  }

  lemma Squares(a: real, b: real, square: real)
    requires 0.0 <= a <= b && square == a * a
    ensures square <= b * b
  {
    ScaleBelow(a, b, a);
    ScaleBelow(a, b, b);
  }

  /** A larger bound covers too, and an exact norm covers itself. */
  lemma CoversGrows(n: real, m: real, v: Vec)
    requires CoversNorm(n, v) && n <= m
    ensures CoversNorm(m, v)
  {
    hide Dot;
    Squares(SHORTFALL * n, SHORTFALL * m, (SHORTFALL * n) * (SHORTFALL * n));
  }

  lemma ExactNormCovers(n: real, v: Vec)
    requires n >= 0.0 && Dot(v, v) <= n * n
    ensures CoversNorm(n, v)
  {
    hide Dot;
    Squares(n, SHORTFALL * n, n * n);
  }
}
