/** Dense vectors in exact arithmetic: the operations of vec_ops.rs and the
    inequalities the search rests on. */
module Vectors {

  type Vec = seq<real>

  function Abs(x: real): real {
    if x < 0.0 then -x else x
  }

  /** `dot` zips its operands, so the longer one is cut to the shorter. */
  function Dot(a: Vec, b: Vec): real {
    if a == [] || b == [] then 0.0 else a[0] * b[0] + Dot(a[1..], b[1..])
  }

  /** `add_scaled`: a + c * b, as far as b goes. */
  function AddScaled(a: Vec, b: Vec, c: real): (r: Vec)
    ensures |r| == |a|
  {
    if a == [] || b == [] then a else [a[0] + c * b[0]] + AddScaled(a[1..], b[1..], c)
  }

  function Scale(v: Vec, c: real): (r: Vec)
    ensures |r| == |v|
  {
    if v == [] then [] else [v[0] * c] + Scale(v[1..], c)
  }

  function Sub(a: Vec, b: Vec): (r: Vec)
    requires |a| == |b|
  {
    AddScaled(a, b, -1.0)
  }

  function Zero(d: nat): Vec {
    seq(d, _ => 0.0)
  }

  /** Squared distance, as `KdTree::dist2` sums it. */
  function Dist2(a: Vec, b: Vec): real {
    if a == [] || b == [] then 0.0 else (a[0] - b[0]) * (a[0] - b[0]) + Dist2(a[1..], b[1..])
  }

  /** An exact square root, which `l2_norm` takes of a sum of squares. */
  ghost predicate SquareRoot(sqrt: real -> real) {
    forall x: real | x >= 0.0 :: sqrt(x) >= 0.0 && sqrt(x) * sqrt(x) == x
  }

  lemma DotCons(a: Vec, b: Vec)
    requires a != [] && b != []
    ensures Dot(a, b) == a[0] * b[0] + Dot(a[1..], b[1..])
  {
  }

  lemma Dist2Cons(a: Vec, b: Vec)
    requires a != [] && b != []
    ensures Dist2(a, b) == (a[0] - b[0]) * (a[0] - b[0]) + Dist2(a[1..], b[1..])
  {
  }

  lemma NothingToSum()
    ensures Dot([], []) == 0.0 && Dist2([], []) == 0.0
  {
  }

  // ----- bilinearity

  lemma {:induction false} DotSymmetric(a: Vec, b: Vec)
    ensures Dot(a, b) == Dot(b, a)
  {
    if a != [] && b != [] {
      DotSymmetric(a[1..], b[1..]);
    }
  }

  lemma {:induction false} DotAddScaled(a: Vec, b: Vec, c: real, w: Vec)
    requires |a| == |b| == |w|
    ensures Dot(AddScaled(a, b, c), w) == Dot(a, w) + c * Dot(b, w)
  {
    if a != [] {
      assert AddScaled(a, b, c)[1..] == AddScaled(a[1..], b[1..], c);
      DotAddScaled(a[1..], b[1..], c, w[1..]);
    }
  }

  lemma {:induction false} DotScale(a: Vec, c: real, w: Vec)
    requires |a| == |w|
    ensures Dot(Scale(a, c), w) == c * Dot(a, w)
  {
    if a != [] {
      assert Scale(a, c)[1..] == Scale(a[1..], c);
      DotScale(a[1..], c, w[1..]);
    }
  }

  lemma {:induction false} DotSelfNonNegative(v: Vec)
    ensures Dot(v, v) >= 0.0
  {
    if v != [] {
      DotSelfNonNegative(v[1..]);
      assert v[0] * v[0] >= 0.0;
    }
  }

  /** |a + c b|^2, expanded. */
  lemma NormOfSum(a: Vec, b: Vec, c: real)
    requires |a| == |b|
    ensures Dot(AddScaled(a, b, c), AddScaled(a, b, c)) == Dot(a, a) + 2.0 * (c * Dot(a, b)) + c * (c * Dot(b, b))
  {
    hide Dot, AddScaled;
    var s := AddScaled(a, b, c);
    DotSymmetric(a, s);
    DotAddScaled(a, b, c, a);
    DotSymmetric(a, b);
    DotSymmetric(b, s);
    DotAddScaled(a, b, c, b);
    DotAddScaled(a, b, c, s);
    ExpandSquare(Dot(a, a), Dot(b, b), Dot(a, b), c, Dot(a, s), Dot(b, s));
  }

  lemma ExpandSquare(aa: real, bb: real, ab: real, c: real, as_: real, bs: real)
    requires as_ == aa + c * ab && bs == ab + c * bb
    ensures as_ + c * bs == aa + 2.0 * (c * ab) + c * (c * bb)
  {
    assert c * bs == c * ab + c * (c * bb);
  }

  lemma {:induction false} Dist2IsNormOfDifference(a: Vec, b: Vec)
    requires |a| == |b|
    ensures Dist2(a, b) == Dot(Sub(a, b), Sub(a, b))
  {
    if a != [] {
      assert Sub(a, b)[1..] == Sub(a[1..], b[1..]);
      Dist2IsNormOfDifference(a[1..], b[1..]);
    }
  }

  /** One coordinate's difference bounds the distance from below. */
  lemma CoordinateBelowDist2(a: Vec, b: Vec, dim: nat)
    requires dim < |a| == |b|
    ensures (a[dim] - b[dim]) * (a[dim] - b[dim]) <= Dist2(a, b)
  {
    hide Dist2;
    GapBelowDist2(a, b, dim, a[dim], b[dim]);
  }

  lemma {:induction false} GapBelowDist2(a: Vec, b: Vec, dim: nat, x: real, y: real)
    requires dim < |a| == |b| && a[dim] == x && b[dim] == y
    ensures (x - y) * (x - y) <= Dist2(a, b)
  {
    Dist2NonNegative(a[1..], b[1..]);
    SquareNonNegative(a[0] - b[0]);
    if dim > 0 {
      GapBelowDist2(a[1..], b[1..], dim - 1, x, y);
    }
  }

  lemma SquareNonNegative(x: real)
    ensures x * x >= 0.0
  {
  }

  lemma {:induction false} Dist2NonNegative(a: Vec, b: Vec)
    ensures Dist2(a, b) >= 0.0
  {
    if a != [] && b != [] {
      Dist2NonNegative(a[1..], b[1..]);
      SquareNonNegative(a[0] - b[0]);
    }
  }

  lemma ScaledQuotient(x: real, c: real, t: real)
    requires c != 0.0 && t == -x / (2.0 * c)
    ensures 2.0 * (t * c) == -x
  {
  }

  lemma NonNegativeProduct(x: real, y: real)
    requires x >= 0.0 && y >= 0.0
    ensures x * y >= 0.0
  {
  }

  // ----- Cauchy-Schwarz and Bessel

  lemma CauchySchwarz(a: Vec, b: Vec)
    requires |a| == |b|
    ensures Dot(a, b) * Dot(a, b) <= Dot(a, a) * Dot(b, b)
  {
    hide Dot, AddScaled;
    DotSelfNonNegative(a);
    DotSelfNonNegative(b);
    forall t: real
      ensures Quadratic(Dot(a, a), Dot(a, b), Dot(b, b), t) >= 0.0
    {
      NormOfSum(a, b, t);
      DotSelfNonNegative(AddScaled(a, b, t));
    }
    NonNegativeQuadratic(Dot(a, a), Dot(a, b), Dot(b, b));
  }

  function Quadratic(a: real, c: real, b: real, t: real): real {
    a + 2.0 * (t * c) + t * (t * b)
  }

  /** A quadratic that is nowhere negative has a discriminant that is not positive. */
  lemma NonNegativeQuadratic(a: real, c: real, b: real)
    requires a >= 0.0 && b >= 0.0
    requires forall t: real :: Quadratic(a, c, b, t) >= 0.0
    ensures c * c <= a * b
  {
    if b == 0.0 {
      if c != 0.0 {
        var t := -(a + 1.0) / (2.0 * c);
        var value := Quadratic(a, c, b, t);
        ScaledQuotient(a + 1.0, c, t);
        assert false;
      }
    } else {
      var t := -c / b;
      assert Quadratic(a, c, b, t) >= 0.0;
      DiscriminantStep(a, c, b, t);
    }
  }

  lemma DiscriminantStep(a: real, c: real, b: real, t: real)
    requires b > 0.0 && t * b == -c && a + 2.0 * (t * c) + t * (t * b) >= 0.0
    ensures c * c <= a * b
  {
    assert t * (t * b) == -(t * c);
    NonNegativeProduct(b, a + t * c);
    assert b * (a + t * c) == a * b + (t * b) * c;
  }

  /** Rows of the same length d, of norm one and pairwise orthogonal. */
  ghost predicate Orthonormal(rows: seq<Vec>, d: nat) {
    && (forall i | 0 <= i < |rows| :: |rows[i]| == d && Dot(rows[i], rows[i]) == 1.0)
    && (forall i, j | 0 <= i < j < |rows| :: Dot(rows[i], rows[j]) == 0.0)
  }

  /** The coordinates of v along the rows. */
  function Project(v: Vec, rows: seq<Vec>): (r: Vec) {
    seq(|rows|, i requires 0 <= i < |rows| => Dot(v, rows[i]))
  }

  /** Dropping the first of some orthonormal rows leaves orthonormal rows. */
  lemma OrthonormalTail(rows: seq<Vec>, d: nat)
    requires rows != [] && Orthonormal(rows, d)
    ensures Orthonormal(rows[1..], d)
  {
    hide Dot;
    forall i, j | 0 <= i < j < |rows| - 1
      ensures Dot(rows[1..][i], rows[1..][j]) == 0.0
    {
      assert Dot(rows[i + 1], rows[j + 1]) == 0.0;
    }
  }

  /** Taking away v's component along the first row leaves the other
      coordinates of v as they were. */
  lemma ProjectRemainder(v: Vec, rows: seq<Vec>, d: nat, c: real)
    requires |v| == d && rows != [] && Orthonormal(rows, d)
    ensures Project(AddScaled(v, rows[0], c), rows[1..]) == Project(v, rows)[1..]
  {
    hide Dot, AddScaled;
    forall i | 1 <= i < |rows|
      ensures Dot(AddScaled(v, rows[0], c), rows[i]) == Dot(v, rows[i])
    {
      DotAddScaled(v, rows[0], c, rows[i]);
      assert Dot(rows[0], rows[i]) == 0.0;
    }
  }

  lemma RemainderNorm(v: Vec, b: Vec)
    requires |v| == |b| && Dot(b, b) == 1.0
    ensures var w := AddScaled(v, b, -Dot(v, b)); Dot(w, w) == Dot(v, v) - Dot(v, b) * Dot(v, b)
  {
    hide Dot, AddScaled;
    var c := Dot(v, b);
    NormOfSum(v, b, -c);
    assert 2.0 * (-c * c) + (-c) * (-c * 1.0) == -(c * c);
  }

  /** Bessel: projecting onto orthonormal rows never lengthens a vector. */
  lemma {:induction false} Bessel(v: Vec, rows: seq<Vec>, d: nat)
    requires |v| == d && Orthonormal(rows, d)
    ensures Dot(Project(v, rows), Project(v, rows)) <= Dot(v, v)
    decreases |rows|
  {
    if rows == [] {
      DotSelfNonNegative(v);
    } else {
      var w := AddScaled(v, rows[0], -Dot(v, rows[0]));
      RemainderNorm(v, rows[0]);
      OrthonormalTail(rows, d);
      ProjectRemainder(v, rows, d, -Dot(v, rows[0]));
      Bessel(w, rows[1..], d);
      DotHead(Project(v, rows));
    }
  }

  lemma DotHead(p: Vec)
    requires p != []
    ensures Dot(p, p) == p[0] * p[0] + Dot(p[1..], p[1..])
  {
  }

  lemma {:induction false} SubAt(a: Vec, b: Vec, i: nat)
    requires i < |a| == |b|
    ensures Sub(a, b)[i] == a[i] - b[i]
  {
    if i > 0 {
      SubAt(a[1..], b[1..], i - 1);
    }
  }

  lemma ProjectionOfDifference(u: Vec, v: Vec, rows: seq<Vec>, d: nat)
    requires |u| == |v| == d && (forall i | 0 <= i < |rows| :: |rows[i]| == d)
    ensures Sub(Project(u, rows), Project(v, rows)) == Project(Sub(u, v), rows)
  {
    hide Dot, AddScaled;
    forall i | 0 <= i < |rows|
      ensures Sub(Project(u, rows), Project(v, rows))[i] == Dot(Sub(u, v), rows[i])
    {
      SubAt(Project(u, rows), Project(v, rows), i);
      DotAddScaled(u, v, -1.0, rows[i]);
    }
  }

  /** Projections of two points are no farther apart than the points. */
  lemma ProjectionContracts(u: Vec, v: Vec, rows: seq<Vec>, d: nat)
    requires |u| == |v| == d && Orthonormal(rows, d)
    ensures Dist2(Project(u, rows), Project(v, rows)) <= Dist2(u, v)
  {
    hide Dot, AddScaled, Dist2;
    Dist2IsNormOfDifference(u, v);
    Dist2IsNormOfDifference(Project(u, rows), Project(v, rows));
    ProjectionOfDifference(u, v, rows, d);
    Bessel(Sub(u, v), rows, d);
  }
}
