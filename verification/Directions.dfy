/** Addresses as directions: what normalizing, blending and averaging do to them. */
module Directions {
  import opened Vectors
  import opened Locations
  import Merge
  import Rounding
  import Scan

  /** A vector of norm 1. */
  ghost predicate Unit(v: Vec) {
    Dot(v, v) == 1.0
  }

  /** Too short to have a direction: `normalize` leaves it as it is. */
  ghost predicate Short(v: Vec) {
    Dot(v, v) < 0.000000000000000000000001
  }

  /** u is the direction of v: v is a positive multiple of it, and it has norm 1. */
  ghost predicate DirectionOf(u: Vec, v: Vec) {
    && |u| == |v|
    && if Short(v) then u == v
       else Unit(u) && Dot(u, v) > 0.0 && forall j | 0 <= j < |v| :: Dot(u, v) * u[j] == v[j]
  }

  // ----- normalizing

  lemma ThresholdSquared(n: real, square: real)
    requires n >= 0.0 && n * n == square
    ensures n < 0.000000000001 <==> square < 0.000000000000000000000001
  {
    if n < 0.000000000001 {
      assert n * n <= n * 0.000000000001;
    } else {
      assert n * n >= n * 0.000000000001;
    }
  }

  /** `normalize` gives the direction of its argument. */
  lemma NormalizedIsDirection(o: Oracles, v: Vec)
    requires Merge.NormIsRoot(o)
    ensures DirectionOf(Normalized(o, v), v)
    ensures Unit(Normalized(o, v)) || Short(Normalized(o, v))
  {
    hide Dot, Scale, Scan.Normalize;
    var (n, u) := (o.norm(v), Normalized(o, v));
    ThresholdSquared(n, Dot(v, v));
    Scan.NormalizeIsUnit(v, n);
    if Short(v) {
      NormalizedShort(v, n);
    } else {
      NormalizedAgainst(v, n, u);
    }
  }

  lemma NormalizedShort(v: Vec, n: real)
    requires n < 0.000000000001
    ensures Scan.Normalize(v, n) == v
  {
  }

  /** Along its direction a vector is as long as it is. */
  lemma NormalizedAgainst(v: Vec, n: real, u: Vec)
    requires n >= 0.000000000001 && u == Scan.Normalize(v, n) && Dot(u, u) == 1.0
    ensures Dot(u, v) == n
  {
    hide Dot, Scan.Normalize, Rounding.MassPrefix;
    Scan.NormalizedDot(v, n, u);
    DotSymmetric(v, u);
  }

  /** Coordinates scaled, dot products scaled. */
  lemma {:induction false} DotOfMultiple(n: real, u: Vec, v: Vec, w: Vec)
    requires |u| == |v| == |w| && forall j | 0 <= j < |v| :: n * u[j] == v[j]
    ensures n * Dot(u, w) == Dot(v, w)
  {
    if u != [] {
      forall j | 0 <= j < |v[1..]| ensures n * u[1..][j] == v[1..][j] {
        assert n * u[j + 1] == v[j + 1];
      }
      DotOfMultiple(n, u[1..], v[1..], w[1..]);
      assert n * u[0] == v[0];
      TermOfMultiple(n, u[0], v[0], w[0], Dot(u[1..], w[1..]));
    }
  }

  lemma TermOfMultiple(n: real, u: real, v: real, w: real, rest: real)
    requires n * u == v
    ensures n * (u * w + rest) == v * w + n * rest
  {
    assert n * (u * w) == (n * u) * w;
  }

  // ----- blends

  /** (1 - r) * a + r * x. */
  function Blend(a: Vec, x: Vec, r: real): (b: Vec)
    requires |a| == |x|
    ensures |b| == |a|
  {
    seq(|a|, j requires 0 <= j < |a| => (1.0 - r) * a[j] + r * x[j])
  }

  lemma {:induction false} DifferenceAt(x: Vec, a: Vec, j: nat)
    requires j < |a| == |x|
    ensures |Difference(x, a)| == |x| && Difference(x, a)[j] == x[j] - a[j]
  {
    if j > 0 {
      DifferenceAt(x[1..], a[1..], j - 1);
    } else if |x| > 1 {
      DifferenceAt(x[1..], a[1..], 0);
    }
  }

  lemma {:induction false} SumAt(a: Vec, b: Vec, c: real, j: nat)
    requires j < |a| == |b|
    ensures AddScaled(a, b, c)[j] == a[j] + c * b[j]
  {
    if j > 0 {
      SumAt(a[1..], b[1..], c, j - 1);
    }
  }

  /** Moving an address towards an input blends the two. */
  lemma MovedIsBlend(a: Vec, x: Vec, r: real)
    requires |a| == |x|
    ensures AddScaled(a, Difference(x, a), r) == Blend(a, x, r)
  {
    hide AddScaled, Difference;
    var moved := AddScaled(a, Difference(x, a), r);
    forall j | 0 <= j < |a| ensures moved[j] == Blend(a, x, r)[j] {
      DifferenceAt(x, a, j);
      SumAt(a, Difference(x, a), r, j);
      BlendTerm(a[j], x[j], r, Difference(x, a)[j]);
    }
  }

  lemma BlendTerm(a: real, x: real, r: real, d: real)
    requires d == x - a
    ensures a + r * d == (1.0 - r) * a + r * x
  {
  }

  lemma {:induction false} DotBlend(a: Vec, x: Vec, r: real, w: Vec)
    requires |a| == |x| == |w|
    ensures Dot(Blend(a, x, r), w) == (1.0 - r) * Dot(a, w) + r * Dot(x, w)
  {
    hide Dot;
    if a == [] {
      NothingToSum();
      assert Blend(a, x, r) == [] && x == [] && w == [];
    } else {
      var b := Blend(a, x, r);
      BlendTail(a, x, r);
      DotBlend(a[1..], x[1..], r, w[1..]);
      DotCons(b, w);
      DotCons(a, w);
      DotCons(x, w);
      BlendSum(r, a[0], x[0], w[0], Dot(a[1..], w[1..]), Dot(x[1..], w[1..]), b[0], Dot(b[1..], w[1..]), Dot(b, w), Dot(a, w),
               Dot(x, w));
    }
  }

  lemma BlendTail(a: Vec, x: Vec, r: real)
    requires |a| == |x| && a != []
    ensures Blend(a, x, r)[1..] == Blend(a[1..], x[1..], r)
  {
    var (b, c) := (Blend(a, x, r)[1..], Blend(a[1..], x[1..], r));
    forall j | 0 <= j < |c| ensures b[j] == c[j] {
      assert a[1..][j] == a[j + 1] && x[1..][j] == x[j + 1];
    }
  }

  lemma BlendSum(r: real, a: real, x: real, w: real, p: real, q: real, b: real, rest: real, bw: real, aw: real, xw: real)
    requires b == (1.0 - r) * a + r * x && rest == (1.0 - r) * p + r * q
    requires bw == b * w + rest && aw == a * w + p && xw == x * w + q
    ensures bw == (1.0 - r) * aw + r * xw
  {
    assert b * w == (1.0 - r) * (a * w) + r * (x * w);
  }

  /** Two unit vectors have a similarity of at most 1. */
  lemma UnitSimilarity(a: Vec, x: Vec)
    requires |a| == |x| && Unit(a) && Unit(x)
    ensures -1.0 <= Dot(a, x) <= 1.0
  {
    hide Dot;
    CauchySchwarz(a, x);
    SquareAtMostOne(Dot(a, x));
  }

  lemma SquareAtMostOne(s: real)
    requires s * s <= 1.0
    ensures -1.0 <= s <= 1.0
  {
    if s > 1.0 {
      SquareGrows(s);
    } else if s < -1.0 {
      SquareGrows(-s);
    }
  }

  lemma SquareGrows(s: real)
    requires s > 1.0
    ensures s * s > 1.0 && (-s) * (-s) > 1.0
  {
    assert s * s > s;
  }

  /** The square of a blend of unit vectors. */
  lemma BlendSquare(a: Vec, x: Vec, r: real)
    requires |a| == |x| && Unit(a) && Unit(x)
    ensures Dot(Blend(a, x, r), Blend(a, x, r)) == BlendNorm2(r, Dot(a, x))
  {
    hide Dot, Blend, BlendNorm2;
    var m := Blend(a, x, r);
    DotBlend(a, x, r, m);
    DotSymmetric(a, m);
    DotSymmetric(x, m);
    DotBlend(a, x, r, a);
    DotBlend(a, x, r, x);
    DotSymmetric(a, x);
    SquareOfBlend(r, Dot(a, x), Dot(a, a), Dot(x, a), Dot(x, x), Dot(a, m), Dot(x, m), Dot(m, m));
  }

  function BlendNorm2(r: real, s: real): real {
    (1.0 - r) * (1.0 - r) + 2.0 * (r * (1.0 - r) * s) + r * r
  }

  lemma SquareOfBlend(r: real, s: real, aa: real, xa: real, xx: real, ma: real, mx: real, mm: real)
    requires aa == 1.0 && xx == 1.0 && xa == s
    requires ma == (1.0 - r) * aa + r * xa && mx == (1.0 - r) * s + r * xx && mm == (1.0 - r) * ma + r * mx
    ensures mm == BlendNorm2(r, s)
  {
    SquareByParts(r, 1.0 - r, s, ma, mx);
  }

  lemma SquareByParts(r: real, p: real, s: real, ma: real, mx: real)
    requires p == 1.0 - r && ma == p + r * s && mx == p * s + r
    ensures p * ma + r * mx == BlendNorm2(r, s)
  {
    assert p * ma == p * p + p * (r * s);
    assert r * mx == r * (p * s) + r * r;
    assert p * (r * s) == r * p * s && r * (p * s) == r * p * s;
  }

  /** The similarity to its end of a blend that starts at similarity s. */
  function Toward(r: real, s: real): real {
    (1.0 - r) * s + r
  }

  lemma BlendOnto(a: Vec, x: Vec, r: real)
    requires |a| == |x| && Unit(x)
    ensures Dot(Blend(a, x, r), x) == Toward(r, Dot(a, x))
  {
    hide Dot, Blend;
    DotBlend(a, x, r, x);
    assert r * Dot(x, x) == r;
  }

  /** Moving a unit address towards a unit input never lowers their similarity. */
  lemma BlendApproaches(a: Vec, x: Vec, r: real, u: Vec)
    requires |a| == |x| && Unit(a) && Unit(x) && 0.0 <= r <= 1.0 && DirectionOf(u, Blend(a, x, r))
    ensures Dot(x, u) >= Dot(x, a)
  {
    hide Dot, Blend, Toward, BlendNorm2;
    var (m, s) := (Blend(a, x, r), Dot(a, x));
    UnitSimilarity(a, x);
    DotSymmetric(a, x);
    DotSymmetric(x, u);
    BlendOnto(a, x, r);
    BlendReaches(r, s);
    if !Short(m) {
      var n := Dot(u, m);
      DotOfMultiple(n, u, m, x);
      DotOfMultiple(n, u, m, m);
      BlendSquare(a, x, r);
      Approaches(r, s, n, Dot(u, x));
    }
  }

  lemma BlendReaches(r: real, s: real)
    requires 0.0 <= r <= 1.0 && -1.0 <= s <= 1.0
    ensures s <= Toward(r, s)
  {
    NonNegativeProduct(r, 1.0 - s);
    assert (1.0 - r) * s + r == s + r * (1.0 - s);
  }

  /** A blend of similarity s to its end, divided by its length n. */
  lemma Approaches(r: real, s: real, n: real, y: real)
    requires 0.0 <= r <= 1.0 && -1.0 <= s <= 1.0 && n > 0.0
    requires n * n == BlendNorm2(r, s) && n * y == Toward(r, s)
    ensures y >= s
  {
    hide Toward, BlendNorm2;
    if s >= 0.0 {
      BlendReaches(r, s);
      BlendShort(r, s);
      AtMostOne(n);
      ShorterReaches(n, y, s);
    } else if y < s {
      SquaresCompare(n, y, s, n * y);
      NegativeBlend(r, s, n * y);
      Replaced(n * n, BlendNorm2(r, s), s * s);
    }
  }

  lemma Replaced(x: real, y: real, z: real)
    requires x == y
    ensures x * z == y * z
  {
  }

  lemma BlendShort(r: real, s: real)
    requires 0.0 <= r <= 1.0 && -1.0 <= s <= 1.0
    ensures BlendNorm2(r, s) <= 1.0
  {
    NonNegativeProduct(r, 1.0 - r);
    NonNegativeProduct(r * (1.0 - r), 1.0 - s);
    assert BlendNorm2(r, s) == 1.0 - 2.0 * (r * (1.0 - r) * (1.0 - s));
  }

  lemma AtMostOne(n: real)
    requires n > 0.0 && n * n <= 1.0
    ensures n <= 1.0
  {
    SquareAtMostOne(n);
  }

  lemma ShorterReaches(n: real, y: real, s: real)
    requires 0.0 < n <= 1.0 && s >= 0.0 && n * y >= s
    ensures y >= s
  {
    NonNegativeProduct(1.0 - n, s);
    assert n * (y - s) >= 0.0;
    NonNegativeFactor(n, y - s);
  }

  lemma NonNegativeFactor(n: real, z: real)
    requires n > 0.0 && n * z >= 0.0
    ensures z >= 0.0
  {
  }

  /** A blend that still points away has come closer. */
  lemma NegativeBlend(r: real, s: real, p: real)
    requires 0.0 <= r <= 1.0 && -1.0 <= s < 0.0 && p == Toward(r, s) && p < 0.0
    ensures p * p <= BlendNorm2(r, s) * (s * s)
  {
    var t := -(2.0 * ((1.0 - r) * s) + r);
    assert t >= 0.0;
    NonNegativeProduct(1.0 - s, 1.0 + s);
    NonNegativeProduct(r, t);
    NonNegativeProduct((1.0 - s) * (1.0 + s), r * t);
    assert BlendNorm2(r, s) * (s * s) - p * p == ((1.0 - s) * (1.0 + s)) * (r * t);
  }

  lemma SquaresCompare(n: real, y: real, s: real, p: real)
    requires n > 0.0 && y < s < 0.0 && p == n * y
    ensures p * p > (n * n) * (s * s)
  {
    var q := n * s;
    assert p < q < 0.0;
    assert p * p > q * q;
    assert q * q == (n * n) * (s * s);
  }
}
