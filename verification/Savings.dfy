/** What compression saves and what it costs: the description length it lowers, and the
    scatter about the means that it pays for. */
module Savings {
  import opened Vectors
  import opened Locations
  import opened Directions
  import opened Compress
  import opened Means
  import LiveLaws
  import Steps
  import Merge

  ghost predicate Units(locs: seq<HardLocation>, d: nat) {
    forall x | 0 <= x < |locs| :: |locs[x].address| == d && Unit(locs[x].address)
  }

  // ----- the scatter

  /** The weighted squared distances of two addresses from their weighted mean. */
  ghost function Scatter(a: Vec, wa: real, b: Vec, wb: real): real
    requires |a| == |b| && wa + wb > 0.0
  {
    wa * Dist2(a, Centroid(a, wa, b, wb)) + wb * Dist2(b, Centroid(a, wa, b, wb))
  }

  lemma ScatterTerm(a: real, wa: real, b: real, wb: real, m: real, f: real)
    requires wa + wb > 0.0 && m == (wa * a + wb * b) / (wa + wb) && f == wa * wb / (wa + wb)
    ensures wa * ((a - m) * (a - m)) + wb * ((b - m) * (b - m)) == f * ((a - b) * (a - b))
  {
    var t := wa + wb;
    var (p, q) := (wa / t, wb / t);
    Fractions(p, q, wa, wb, t);
    MeanByFractions(p, q, wa, wb, t, a, b, m, f);
    MeanParts(p, q, a, b, m);
    ScatterOf(t, p, q, a - b, wa, wb, a - m, b - m, f);
  }

  lemma Fractions(p: real, q: real, wa: real, wb: real, t: real)
    requires t == wa + wb > 0.0 && p == wa / t && q == wb / t
    ensures p * t == wa && q * t == wb && p + q == 1.0
  {
    assert p * t == wa && q * t == wb;
    OneWhole(p, q, wa, wb, t);
  }

  lemma OneWhole(p: real, q: real, wa: real, wb: real, t: real)
    requires t > 0.0 && p * t == wa && q * t == wb && wa + wb == t
    ensures p + q == 1.0
  {
    assert (p + q) * t == p * t + q * t;
    assert (p + q - 1.0) * t == 0.0;
  }

  lemma MeanByFractions(p: real, q: real, wa: real, wb: real, t: real, a: real, b: real, m: real, f: real)
    requires t > 0.0 && p * t == wa && q * t == wb && m == (wa * a + wb * b) / t && f == wa * wb / t
    ensures m == p * a + q * b && f == t * (p * q)
  {
    assert m * t == (p * a + q * b) * t;
    assert f * t == (t * (p * q)) * t;
  }

  lemma MeanParts(p: real, q: real, a: real, b: real, m: real)
    requires p + q == 1.0 && m == p * a + q * b
    ensures a - m == q * (a - b) && b - m == -(p * (a - b))
  {
    assert (p + q) * a == a && (p + q) * b == b;
  }

  lemma ScatterOf(t: real, p: real, q: real, g: real, wa: real, wb: real, da: real, db: real, f: real)
    requires p + q == 1.0 && wa == p * t && wb == q * t && da == q * g && db == -(p * g) && f == t * (p * q)
    ensures wa * (da * da) + wb * (db * db) == f * (g * g)
  {
    var gg := g * g;
    assert da * da == (q * q) * gg;
    assert db * db == (p * p) * gg;
    assert wa * (da * da) == (t * (p * q)) * (q * gg);
    assert wb * (db * db) == (t * (p * q)) * (p * gg);
    assert q * gg + p * gg == gg;
    assert f * (q * gg) + f * (p * gg) == f * gg;
  }

  /** What the squared distance of two addresses weighs in a merge. */
  ghost function Inertia(wa: real, wb: real): real
    requires wa + wb > 0.0
  {
    wa * wb / (wa + wb)
  }

  /** The scatter of two addresses is their squared distance, weighed as a merge weighs it. */
  lemma {:induction false} ScatterIsInertia(a: Vec, wa: real, b: Vec, wb: real)
    requires |a| == |b| && wa + wb > 0.0
    ensures Scatter(a, wa, b, wb) == Inertia(wa, wb) * Dist2(a, b)
  {
    hide Dist2, Inertia, Centroid;
    var (m, f) := (Centroid(a, wa, b, wb), Inertia(wa, wb));
    if a == [] {
      NothingToSum();
      assert m == [] && b == [];
    } else {
      CentroidTail(a, wa, b, wb);
      ScatterIsInertia(a[1..], wa, b[1..], wb);
      FirstTerm(a, wa, b, wb);
      Dist2Cons(a, m);
      Dist2Cons(b, m);
      Dist2Cons(a, b);
      ScatterSum(wa, wb, f, (a[0] - m[0]) * (a[0] - m[0]), (b[0] - m[0]) * (b[0] - m[0]), (a[0] - b[0]) * (a[0] - b[0]),
                 Dist2(a[1..], m[1..]), Dist2(b[1..], m[1..]), Dist2(a[1..], b[1..]), Dist2(a, m), Dist2(b, m), Dist2(a, b));
    }
  }

  lemma FirstTerm(a: Vec, wa: real, b: Vec, wb: real)
    requires |a| == |b| && a != [] && wa + wb > 0.0
    ensures var m := Centroid(a, wa, b, wb)[0];
      wa * ((a[0] - m) * (a[0] - m)) + wb * ((b[0] - m) * (b[0] - m)) == Inertia(wa, wb) * ((a[0] - b[0]) * (a[0] - b[0]))
  {
    ScatterTerm(a[0], wa, b[0], wb, Centroid(a, wa, b, wb)[0], Inertia(wa, wb));
  }

  lemma ScatterSum(wa: real, wb: real, f: real, x: real, y: real, z: real, p: real, q: real, r: real, am: real, bm: real,
                   ab: real)
    requires wa * x + wb * y == f * z && wa * p + wb * q == f * r
    requires am == x + p && bm == y + q && ab == z + r
    ensures wa * am + wb * bm == f * ab
  {
    assert wa * am == wa * x + wa * p && wb * bm == wb * y + wb * q && f * ab == f * z + f * r;
  }

  /** Of unit vectors, twice what their similarity falls short of 1. */
  lemma UnitsApart(a: Vec, b: Vec)
    requires |a| == |b| && Unit(a) && Unit(b)
    ensures Dist2(a, b) == 2.0 * (1.0 - Dot(a, b))
  {
    hide Dot, Dist2, AddScaled;
    Dist2IsNormOfDifference(a, b);
    NormOfSum(a, b, -1.0);
  }

  // ----- when a merge pays

  lemma WeightIs(loc: HardLocation)
    ensures WeightOf(loc) >= loc.writeCount && WeightOf(loc) >= 0.000000001
    ensures WeightOf(loc) == loc.writeCount || WeightOf(loc) == 0.000000001
  {
  }

  /** The scatter that merging a pair adds. */
  ghost function PairScatter(locs: seq<HardLocation>, b: Best): real
    requires b.i < |locs| && b.j < |locs| && |locs[b.i].address| == |locs[b.j].address|
  {
    Scatter(locs[b.i].address, WeightOf(locs[b.i]), locs[b.j].address, WeightOf(locs[b.j]))
  }

  lemma ClosestScore(locs: seq<HardLocation>, d: nat)
    requires |locs| >= 2 && Units(locs, d)
    ensures var b := Closest(locs); b.score == Dot(locs[b.i].address, locs[b.j].address) <= 1.0
  {
    hide Dot, Closest;
    var b := Closest(locs);
    UnitSimilarity(locs[0].address, locs[1].address);
    UnitSimilarity(locs[b.i].address, locs[b.j].address);
    assert b.score >= Score(locs, 0, 1);
  }

  /** A merge of the closest pair pays exactly when the bits it saves exceed the scatter it
      adds, at the price given. */
  lemma PaysWhen(o: Oracles, kappa: real, costWeight: real, w: real, locs: seq<HardLocation>, d: nat)
    requires |locs| >= 2 && Units(locs, d)
    ensures Pays(o, kappa, costWeight, w, locs, Closest(locs)) <==>
      kappa + w * (o.log2(|locs|) - o.log2(|locs| - 1)) > Price(costWeight, PairScatter(locs, Closest(locs)))
  {
    hide Dot, Dist2, Closest, Scatter, Price;
    var b := Closest(locs);
    var (wi, wj) := (WeightOf(locs[b.i]), WeightOf(locs[b.j]));
    ClosestScore(locs, d);
    UnitsApart(locs[b.i].address, locs[b.j].address);
    ScatterIsInertia(locs[b.i].address, wi, locs[b.j].address, wj);
    InertiaIs(wi, wj, b.score, Dist2(locs[b.i].address, locs[b.j].address), costWeight, PairScatter(locs, b));
  }

  lemma InertiaIs(wi: real, wj: real, score: real, dist2: real, costWeight: real, scatter: real)
    requires wi + wj > 0.0 && score <= 1.0 && dist2 == 2.0 * (1.0 - score) && scatter == Inertia(wi, wj) * dist2
    ensures (Quotient(wi * wj, wi + wj) * 2.0 * Max(1.0 - score, 0.0)) * costWeight == Price(costWeight, scatter)
  {
    var f := wi * wj / (wi + wj);
    assert f * 2.0 * (1.0 - score) == f * (2.0 * (1.0 - score));
  }

  // ----- addresses stay directions

  /** Of three unit vectors two are closer than a third of a turn. */
  lemma TwoOfThreeClose(a: Vec, b: Vec, c: Vec)
    requires |a| == |b| == |c| && Unit(a) && Unit(b) && Unit(c)
    ensures Dot(a, b) >= -0.5 || Dot(a, c) >= -0.5 || Dot(b, c) >= -0.5
  {
    hide Dot, AddScaled;
    var ab := AddScaled(a, b, 1.0);
    NormOfSum(a, b, 1.0);
    DotAddScaled(a, b, 1.0, c);
    NormOfSum(ab, c, 1.0);
    DotSelfNonNegative(AddScaled(ab, c, 1.0));
  }

  lemma {:induction false} SumDot(a: Vec, wa: real, b: Vec, wb: real, q: Vec)
    requires |a| == |b| == |q|
    ensures |Sum(a, wa, b, wb)| == |a| && Dot(Sum(a, wa, b, wb), q) == wa * Dot(a, q) + wb * Dot(b, q)
  {
    if a != [] {
      SumDot(a[1..], wa, b[1..], wb, q[1..]);
      SumTerm(wa, wb, a[0], b[0], q[0], Dot(a[1..], q[1..]), Dot(b[1..], q[1..]));
    }
  }

  lemma SumTerm(wa: real, wb: real, a: real, b: real, q: real, p: real, r: real)
    ensures (wa * a + wb * b) * q + (wa * p + wb * r) == wa * (a * q + p) + wb * (b * q + r)
  {
  }

  lemma {:induction false} SumCoordinate(a: Vec, wa: real, b: Vec, wb: real, j: nat)
    requires j < |a| == |b|
    ensures |Sum(a, wa, b, wb)| == |a| && Sum(a, wa, b, wb)[j] == wa * a[j] + wb * b[j]
  {
    LiveLaws.MeanSize(a, wa, b, wb);
    if j > 0 {
      SumCoordinate(a[1..], wa, b[1..], wb, j - 1);
    }
  }

  /** The sum a merge normalizes is not short: its two are not opposite. */
  lemma SumNotShort(a: Vec, wa: real, b: Vec, wb: real)
    requires |a| == |b| && Unit(a) && Unit(b) && Dot(a, b) >= -0.5 && wa >= 0.000000001 && wb >= 0.000000001
    ensures !Short(Sum(a, wa, b, wb)) && |Sum(a, wa, b, wb)| == |a|
  {
    hide Dot, Sum;
    var v := Sum(a, wa, b, wb);
    LiveLaws.MeanSize(a, wa, b, wb);
    SumDot(a, wa, b, wb, v);
    DotSymmetric(a, v);
    DotSymmetric(b, v);
    SumDot(a, wa, b, wb, a);
    SumDot(a, wa, b, wb, b);
    DotSymmetric(a, b);
    LongEnough(wa, wb, Dot(a, b), Dot(v, a), Dot(v, b));
  }

  lemma LongEnough(wa: real, wb: real, s: real, va: real, vb: real)
    requires wa >= 0.000000001 && wb >= 0.000000001 && s >= -0.5
    requires va == wa * 1.0 + wb * s && vb == wa * s + wb * 1.0
    ensures wa * va + wb * vb >= 0.000000000000000001
  {
    var p := wa * wb;
    assert p >= 0.000000001 * 0.000000001 by {
      assert p >= 0.000000001 * wb;
    }
    var q := p * s;
    assert q >= -0.5 * p;
    assert wa * va == wa * wa + q;
    assert wb * vb == wb * wb + q;
    SquaresOverProduct(wa, wb, p);
  }

  lemma SquaresOverProduct(x: real, y: real, p: real)
    requires p == x * y
    ensures x * x + y * y >= 2.0 * p
  {
    SquareNonNegative(x - y);
    assert (x - y) * (x - y) == x * x + y * y - 2.0 * p;
  }

  /** The survivor of a round is in the direction of the two together, each as heavy as its
      count, and of norm 1 like all the others. */
  lemma AbsorbingIs(o: Oracles, a: HardLocation, b: HardLocation)
    requires Merge.NormIsRoot(o) && |a.address| == |b.address| && Unit(a.address) && Unit(b.address)
    requires Dot(a.address, b.address) >= -0.5
    ensures var m := Centroid(a.address, WeightOf(a), b.address, WeightOf(b));
      var u := Absorbing(o, a, b).address;
      |u| == |m| && Unit(u) && Dot(u, m) > 0.0 && forall j | 0 <= j < |m| :: Dot(u, m) * u[j] == m[j]
  {
    hide Dot, Sum, Normalized, AddScaled, Merge.NormIsRoot, Centroid, WeightOf;
    var (wa, wb) := (WeightOf(a), WeightOf(b));
    WeightIs(a);
    WeightIs(b);
    var v := Sum(a.address, wa, b.address, wb);
    SumNotShort(a.address, wa, b.address, wb);
    NormalizedIsDirection(o, v);
    AlongCentroid(a.address, wa, b.address, wb, Absorbing(o, a, b).address);
  }

  /** The direction of a sum is that of the mean. */
  lemma AlongCentroid(a: Vec, wa: real, b: Vec, wb: real, u: Vec)
    requires |a| == |b| == |u| && wa + wb > 0.0 && DirectionOf(u, Sum(a, wa, b, wb)) && !Short(Sum(a, wa, b, wb))
    ensures var m := Centroid(a, wa, b, wb); Dot(u, m) > 0.0 && forall j | 0 <= j < |m| :: Dot(u, m) * u[j] == m[j]
  {
    hide Dot, Sum, Centroid;
    var (v, m, t) := (Sum(a, wa, b, wb), Centroid(a, wa, b, wb), wa + wb);
    DotCentroid(a, wa, b, wb, u);
    SumDot(a, wa, b, wb, u);
    DotSymmetric(u, v);
    DotSymmetric(u, a);
    DotSymmetric(u, b);
    PositiveFactor(t, Dot(u, m), Dot(u, v));
    forall j | 0 <= j < |m| ensures Dot(u, m) * u[j] == m[j] {
      SumCoordinate(a, wa, b, wb, j);
      CentroidAt(a, wa, b, wb, j);
      assert Dot(u, v) * u[j] == v[j];
      DividedOut(t, Dot(u, m), Dot(u, v), u[j], m[j], v[j]);
    }
  }

  lemma CentroidAt(a: Vec, wa: real, b: Vec, wb: real, j: nat)
    requires j < |a| == |b| && wa + wb > 0.0
    ensures (wa + wb) * Centroid(a, wa, b, wb)[j] == wa * a[j] + wb * b[j]
  {
  }

  lemma PositiveFactor(t: real, x: real, y: real)
    requires t > 0.0 && t * x == y && y > 0.0
    ensures x > 0.0
  {
  }

  lemma DividedOut(t: real, x: real, y: real, u: real, m: real, v: real)
    requires t > 0.0 && t * x == y && t * m == v && y * u == v
    ensures x * u == m
  {
    assert t * (x * u) == y * u;
    assert t * (x * u - m) == 0.0;
  }

  /** A round of at least three unit addresses leaves unit addresses. */
  lemma RoundUnits(o: Oracles, locs: seq<HardLocation>, d: nat)
    requires Merge.NormIsRoot(o) && |locs| > 2 && Units(locs, d)
    ensures var b := Closest(locs); Dot(locs[b.i].address, locs[b.j].address) >= -0.5 && Units(Round(o, locs, b), d)
  {
    hide Dot, Closest, Absorbing, Merge.NormIsRoot;
    var b := Closest(locs);
    ClosestScore(locs, d);
    TwoOfThreeClose(locs[0].address, locs[1].address, locs[2].address);
    assert Score(locs, 0, 1) <= b.score && Score(locs, 0, 2) <= b.score && Score(locs, 1, 2) <= b.score;
    AbsorbingIs(o, locs[b.i], locs[b.j]);
    LiveLaws.MeanSize(locs[b.i].address, WeightOf(locs[b.i]), locs[b.j].address, WeightOf(locs[b.j]));
  }

  // ----- the loop

  /** The scatter that all the merges of a compression add. */
  ghost function Added(o: Oracles, kappa: real, costWeight: real, w: real, locs: seq<HardLocation>, d: nat): real
    requires Merge.NormIsRoot(o) && Units(locs, d)
    decreases |locs|
  {
    if |locs| <= 2 || !Pays(o, kappa, costWeight, w, locs, Closest(locs)) then 0.0
    else
      RoundUnits(o, locs, d);
      PairScatter(locs, Closest(locs)) + Added(o, kappa, costWeight, w, Round(o, locs, Closest(locs)), d)
  }

  /** `description_length`: kappa bits for each location, and the bits to name one for
      every write. */
  ghost function DescriptionLength(o: Oracles, kappa: real, w: real, n: nat): real {
    kappa * n as real + w * o.log2(n)
  }

  /** What scatter costs. */
  ghost function Price(costWeight: real, scatter: real): real {
    costWeight * scatter
  }

  /** Compression trades description length against scatter: what it saves exceeds the
      price of the scatter it adds, whenever it merges anything; where it stops, the next
      merge would not pay; and the addresses it leaves are directions as before. */
  lemma {:induction false} CompressPays(o: Oracles, kappa: real, costWeight: real, w: real, locs: seq<HardLocation>, d: nat)
    requires Merge.NormIsRoot(o) && Units(locs, d)
    ensures var r := Compressed(o, kappa, costWeight, w, locs);
      && Units(r.locations, d) && |r.locations| + |r.chain| == |locs|
      && (r.chain != [] ==>
            DescriptionLength(o, kappa, w, |r.locations|) + Price(costWeight, Added(o, kappa, costWeight, w, locs, d))
              < DescriptionLength(o, kappa, w, |locs|))
      && (r.chain == [] ==> Added(o, kappa, costWeight, w, locs, d) == 0.0)
      && (|r.locations| > 2 ==>
            DescriptionLength(o, kappa, w, |r.locations| - 1)
              + Price(costWeight, PairScatter(r.locations, Closest(r.locations)))
              >= DescriptionLength(o, kappa, w, |r.locations|))
    decreases |locs|
  {
    hide Pays, Closest, Round, Unit, Merge.NormIsRoot, PairScatter, DescriptionLength, Price;
    Free(costWeight);
    if |locs| > 2 && Pays(o, kappa, costWeight, w, locs, Closest(locs)) {
      RoundUnits(o, locs, d);
      var next := Round(o, locs, Closest(locs));
      CompressPays(o, kappa, costWeight, w, next, d);
      RoundPays(o, kappa, costWeight, w, locs, d);
      Distributed(costWeight, PairScatter(locs, Closest(locs)), Added(o, kappa, costWeight, w, next, d));
    } else {
      CompressedNoMore(o, kappa, costWeight, w, locs);
      if |locs| > 2 {
        RoundPays(o, kappa, costWeight, w, locs, d);
        assert Compressed(o, kappa, costWeight, w, locs).locations == locs;
      }
    }
  }

  lemma Free(c: real)
    ensures Price(c, 0.0) == 0.0
  {
  }

  lemma Distributed(c: real, x: real, y: real)
    ensures Price(c, x + y) == Price(c, x) + Price(c, y)
  {
  }

  lemma RoundPays(o: Oracles, kappa: real, costWeight: real, w: real, locs: seq<HardLocation>, d: nat)
    requires |locs| > 2 && Units(locs, d)
    ensures Pays(o, kappa, costWeight, w, locs, Closest(locs)) <==>
      DescriptionLength(o, kappa, w, |locs| - 1) + Price(costWeight, PairScatter(locs, Closest(locs)))
        < DescriptionLength(o, kappa, w, |locs|)
  {
    hide Pays, Closest, PairScatter, Price;
    PaysWhen(o, kappa, costWeight, w, locs, d);
    Saved(kappa, w, |locs| as real, o.log2(|locs|), o.log2(|locs| - 1));
  }

  lemma Saved(kappa: real, w: real, n: real, x: real, y: real)
    ensures kappa * n + w * x - (kappa * (n - 1.0) + w * y) == kappa + w * (x - y)
  {
  }

  /** The writes that compression prices names by: all of them, and at least one. */
  lemma TotalWritesIs(locs: seq<HardLocation>)
    ensures var w := Steps.TotalWrites(locs);
      w >= 1.0 && w >= WriteSum(locs) && (w == 1.0 || w == WriteSum(locs))
  {
    hide WriteSum;
  }
}
