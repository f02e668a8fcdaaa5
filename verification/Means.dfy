/** The weighted means that merging and compressing move addresses to, and what they keep
    and cost. */
module Means {
  import opened Vectors
  import opened Locations
  import opened Directions
  import opened Merge
  import opened MergeLaws
  import opened LiveLaws

  // ----- two vectors

  /** (wa * a + wb * b) / (wa + wb). */
  function Centroid(a: Vec, wa: real, b: Vec, wb: real): (m: Vec)
    requires |a| == |b| && wa + wb > 0.0
    ensures |m| == |a|
  {
    seq(|a|, j requires 0 <= j < |a| => (wa * a[j] + wb * b[j]) / (wa + wb))
  }

  lemma {:induction false} MeanAt(a: Vec, wa: real, b: Vec, wb: real, j: nat)
    requires j < |a| == |b|
    ensures |Mean(a, wa, b, wb)| == |a| && Mean(a, wa, b, wb)[j] == a[j] * wa + b[j] * wb
  {
    MeanSize(a, wa, b, wb);
    if j > 0 {
      MeanAt(a[1..], wa, b[1..], wb, j - 1);
    }
  }

  lemma Weighted(a: real, wa: real, b: real, wb: real, total: real)
    requires total == wa + wb > 0.0
    ensures a * (wa / total) + b * (wb / total) == (wa * a + wb * b) / total
  {
    var (p, q) := (wa / total, wb / total);
    assert p * total == wa && q * total == wb;
    assert (a * p + b * q) * total == wa * a + wb * b;
  }

  /** The mean of a merge is weighted by the counts. */
  lemma MeanIsCentroid(a: Vec, wa: real, b: Vec, wb: real)
    requires |a| == |b| && wa + wb > 0.0
    ensures Mean(a, wa / (wa + wb), b, wb / (wa + wb)) == Centroid(a, wa, b, wb)
  {
    hide Mean;
    var (mean, total) := (Mean(a, wa / (wa + wb), b, wb / (wa + wb)), wa + wb);
    MeanSize(a, wa / (wa + wb), b, wb / (wa + wb));
    forall j | 0 <= j < |a| ensures mean[j] == Centroid(a, wa, b, wb)[j] {
      MeanAt(a, wa / (wa + wb), b, wb / (wa + wb), j);
      Weighted(a[j], wa, b[j], wb, total);
    }
  }

  lemma {:induction false} DotCentroid(a: Vec, wa: real, b: Vec, wb: real, q: Vec)
    requires |a| == |b| == |q| && wa + wb > 0.0
    ensures (wa + wb) * Dot(q, Centroid(a, wa, b, wb)) == wa * Dot(q, a) + wb * Dot(q, b)
  {
    hide Dot;
    var m := Centroid(a, wa, b, wb);
    if a == [] {
      NothingToSum();
      assert m == [] && q == [] && b == [];
    } else {
      CentroidTail(a, wa, b, wb);
      DotCentroid(a[1..], wa, b[1..], wb, q[1..]);
      DotCons(q, m);
      DotCons(q, a);
      DotCons(q, b);
      CentroidTerm(a[0], wa, b[0], wb, q[0], m[0], Dot(q[1..], m[1..]), Dot(q[1..], a[1..]), Dot(q[1..], b[1..]), wa + wb,
                   Dot(q, m), Dot(q, a), Dot(q, b));
    }
  }

  lemma CentroidTail(a: Vec, wa: real, b: Vec, wb: real)
    requires |a| == |b| && a != [] && wa + wb > 0.0
    ensures Centroid(a, wa, b, wb)[1..] == Centroid(a[1..], wa, b[1..], wb)
  {
    var (m, n) := (Centroid(a, wa, b, wb)[1..], Centroid(a[1..], wa, b[1..], wb));
    forall j | 0 <= j < |n| ensures m[j] == n[j] {
      assert a[1..][j] == a[j + 1] && b[1..][j] == b[j + 1];
    }
  }

  lemma CentroidTerm(a: real, wa: real, b: real, wb: real, q: real, m: real, rest: real, p: real, r: real, t: real,
                     qm: real, qa: real, qb: real)
    requires t == wa + wb > 0.0 && m == (wa * a + wb * b) / t && t * rest == wa * p + wb * r
    requires qm == q * m + rest && qa == q * a + p && qb == q * b + r
    ensures t * qm == wa * qa + wb * qb
  {
    assert t * m == wa * a + wb * b;
    assert t * (q * m) == q * (t * m);
    assert q * (wa * a + wb * b) == wa * (q * a) + wb * (q * b);
  }

  // ----- a merge

  /** A location that took in something, or nothing: not less than what a merge ignores. */
  ghost predicate Counted(loc: HardLocation) {
    loc.writeCount == 0.0 || loc.writeCount > 0.000000000001
  }

  /** The survivor of a merge is where the two were on average, each counted as often as it
      was written; in a competitive memory in that direction. */
  lemma SurvivorIsCentroid(o: Oracles, c: Config, a: HardLocation, b: HardLocation, cap: nat)
    requires NormIsRoot(o) && |a.address| == |b.address| && a.writeCount + b.writeCount > 0.000000000001
    ensures var (s, m) := (Survivor(o, c, a, b, cap), Centroid(a.address, a.writeCount, b.address, b.writeCount));
      if c.competitive then DirectionOf(s.address, m) else s.address == m
  {
    hide NormIsRoot, Normalized, MergedNeighbors, Centroid, AddScaled, Mean, DirectionOf;
    MeanIsCentroid(a.address, a.writeCount, b.address, b.writeCount);
    NormalizedIsDirection(o, Centroid(a.address, a.writeCount, b.address, b.writeCount));
  }

  /** What a location answers to a read that weighs it by its count. */
  ghost function Reading(loc: HardLocation, q: Vec): real {
    loc.writeCount * Dot(q, loc.address)
  }

  ghost function ReadSum(locs: seq<HardLocation>, q: Vec): real {
    if locs == [] then 0.0 else ReadSum(locs[..|locs| - 1], q) + Reading(locs[|locs| - 1], q)
  }

  lemma SurvivorReads(o: Oracles, c: Config, a: HardLocation, b: HardLocation, cap: nat, q: Vec)
    requires NormIsRoot(o) && !c.competitive && |a.address| == |b.address| == |q|
    requires Counted(a) && Counted(b) && a.writeCount >= 0.0 && b.writeCount >= 0.0
    ensures var s := Survivor(o, c, a, b, cap);
      && Reading(s, q) == Reading(a, q) + Reading(b, q)
      && Counted(s) && s.writeCount >= 0.0 && |s.address| == |q|
  {
    hide NormIsRoot, MergedNeighbors, AddScaled, Centroid, Dot, Mean;
    if a.writeCount + b.writeCount > 0.000000000001 {
      SurvivorIsCentroid(o, c, a, b, cap);
      DotCentroid(a.address, a.writeCount, b.address, b.writeCount, q);
    }
  }

  // ----- the whole merge

  /** What the locations not merged away answer. */
  ghost function LiveRead(locs: seq<HardLocation>, merged: seq<bool>, q: Vec): real
    requires |merged| == |locs|
  {
    if locs == [] then 0.0
    else
      var n := |locs| - 1;
      LiveRead(locs[..n], merged[..n], q) + if merged[n] then 0.0 else Reading(locs[n], q)
  }

  lemma {:induction false} LiveReadUpdate(locs: seq<HardLocation>, merged: seq<bool>, i: nat, x: HardLocation, q: Vec)
    requires |merged| == |locs| && i < |locs| && !merged[i]
    ensures LiveRead(locs[i := x], merged, q) == LiveRead(locs, merged, q) - Reading(locs[i], q) + Reading(x, q)
  {
    hide Reading;
    var n := |locs| - 1;
    if i < n {
      assert locs[i := x][..n] == locs[..n][i := x];
      LiveReadUpdate(locs[..n], merged[..n], i, x, q);
    } else {
      assert locs[i := x][..n] == locs[..n];
    }
  }

  lemma {:induction false} LiveReadRemove(locs: seq<HardLocation>, merged: seq<bool>, i: nat, q: Vec)
    requires |merged| == |locs| && i < |locs| && !merged[i]
    ensures LiveRead(locs, merged[i := true], q) == LiveRead(locs, merged, q) - Reading(locs[i], q)
  {
    hide Reading;
    var n := |locs| - 1;
    if i < n {
      assert merged[i := true][..n] == merged[..n][i := true];
      LiveReadRemove(locs[..n], merged[..n], i, q);
    } else {
      assert merged[i := true][..n] == merged[..n];
    }
  }

  lemma {:induction false} NothingMergedRead(locs: seq<HardLocation>, merged: seq<bool>, q: Vec)
    requires |merged| == |locs| && forall x | 0 <= x < |locs| :: !merged[x]
    ensures LiveRead(locs, merged, q) == ReadSum(locs, q)
  {
    hide Reading;
    if locs != [] {
      NothingMergedRead(locs[..|locs| - 1], merged[..|locs| - 1], q);
    }
  }

  lemma {:induction false} RetainedRead(locs: seq<HardLocation>, merged: seq<bool>, q: Vec)
    requires |merged| == |locs|
    ensures ReadSum(Retained(locs, merged), q) == LiveRead(locs, merged, q)
  {
    hide Reading;
    if locs != [] {
      var n := |locs| - 1;
      RetainedRead(locs[..n], merged[..n], q);
      var kept := Retained(locs[..n], merged[..n]);
      assert (kept + [locs[n]])[..|kept|] == kept && kept + [] == kept;
    }
  }

  /** Addresses of this size, counts that a merge can weigh. */
  ghost predicate Weighable(locs: seq<HardLocation>, d: nat) {
    forall x | 0 <= x < |locs| :: |locs[x].address| == d && Counted(locs[x]) && locs[x].writeCount >= 0.0
  }

  lemma StepReads(o: Oracles, c: Config, m: Merging, p: Pair, q: Vec)
    requires NormIsRoot(o) && !c.competitive && Fits(m, p) && Weighable(m.locations, |q|)
    ensures var r := MergeOne(o, c, m, p);
      Weighable(r.locations, |q|) && LiveRead(r.locations, r.merged, q) == LiveRead(m.locations, m.merged, q)
  {
    hide Survivor, NeighborCap, LiveRead, Reading, Counted, NormIsRoot;
    if !m.merged[p.i] && !m.merged[p.j] {
      var (a, b, cap) := (m.locations[p.i], m.locations[p.j], NeighborCap(o, c, |m.locations|));
      var s := Survivor(o, c, a, b, cap);
      SurvivorReads(o, c, a, b, cap, q);
      LiveReadUpdate(m.locations, m.merged, p.i, s, q);
      LiveReadRemove(m.locations[p.i := s], m.merged, p.j, q);
    }
  }

  lemma {:induction false} LoopReads(o: Oracles, c: Config, locs: seq<HardLocation>, pairs: seq<Pair>, n: nat, q: Vec)
    requires NormIsRoot(o) && !c.competitive && AllFit(pairs, |locs|) && n <= |pairs| && Weighable(locs, |q|)
    ensures var m := MergeFirst(o, c, locs, pairs, n);
      Weighable(m.locations, |q|) && LiveRead(m.locations, m.merged, q) == ReadSum(locs, q)
  {
    hide MergeOne, LiveRead, ReadSum, Weighable, NormIsRoot;
    if n == 0 {
      NothingMergedRead(locs, MergeFirst(o, c, locs, pairs, 0).merged, q);
    } else {
      LoopReads(o, c, locs, pairs, n - 1, q);
      StepReads(o, c, MergeFirst(o, c, locs, pairs, n - 1), pairs[n - 1], q);
    }
  }

  /** Merging a memory that is not competitive changes no read weighed by counts: for every
      query the sum of count times dot product is what it was. */
  lemma MergeKeepsReads(o: Oracles, c: Config, locs: seq<HardLocation>, q: Vec)
    requires NormIsRoot(o) && !c.competitive && Weighable(locs, |q|)
    ensures ReadSum(Merged(o, c, locs).locations, q) == ReadSum(locs, q)
  {
    hide MergeFirst, PairsOf, Retained, ReadSum, Weighable, NormIsRoot;
    if |locs| >= 2 {
      PairsFit(o, c, locs);
      var pairs := PairsOf(o, c, locs);
      var m := MergeFirst(o, c, locs, pairs, |pairs|);
      LoopReads(o, c, locs, pairs, |pairs|, q);
      RetainedRead(m.locations, m.merged, q);
    }
  }

  // ----- coordinate by coordinate

  /** The sum of count times coordinate j. */
  ghost function MomentSum(locs: seq<HardLocation>, j: nat): real {
    if locs == [] then 0.0
    else MomentSum(locs[..|locs| - 1], j) + locs[|locs| - 1].writeCount * At(locs[|locs| - 1].address, j)
  }

  /** The query that reads coordinate j. */
  function Axis(d: nat, j: nat): (q: Vec)
    ensures |q| == d
  {
    seq(d, t requires 0 <= t < d => if t == j then 1.0 else 0.0)
  }

  lemma {:induction false} DotNothing(q: Vec, v: Vec)
    requires |q| == |v| && forall t | 0 <= t < |q| :: q[t] == 0.0
    ensures Dot(q, v) == 0.0
  {
    if q != [] {
      DotNothing(q[1..], v[1..]);
    }
  }

  lemma {:induction false} DotOne(q: Vec, v: Vec, j: nat)
    requires |q| == |v| && j < |q| && q[j] == 1.0 && forall t | 0 <= t < |q| && t != j :: q[t] == 0.0
    ensures Dot(q, v) == v[j]
  {
    if j == 0 {
      DotNothing(q[1..], v[1..]);
    } else {
      DotOne(q[1..], v[1..], j - 1);
    }
  }

  lemma {:induction false} AxisReads(locs: seq<HardLocation>, d: nat, j: nat)
    requires j < d && forall x | 0 <= x < |locs| :: |locs[x].address| == d
    ensures ReadSum(locs, Axis(d, j)) == MomentSum(locs, j)
  {
    hide Dot;
    if locs != [] {
      AxisReads(locs[..|locs| - 1], d, j);
      DotOne(Axis(d, j), locs[|locs| - 1].address, j);
    }
  }

  /** So the sum of count times address stays as it was, coordinate by coordinate. */
  lemma MergeKeepsMoments(o: Oracles, c: Config, locs: seq<HardLocation>, d: nat, j: nat)
    requires NormIsRoot(o) && !c.competitive && Weighable(locs, d) && Sized(locs, d) && j < d
    ensures MomentSum(Merged(o, c, locs).locations, j) == MomentSum(locs, j)
  {
    hide Merged, ReadSum, MomentSum, NormIsRoot, Counted;
    MergeKeepsReads(o, c, locs, Axis(d, j));
    MergedSized(o, c, locs, d);
    AxisReads(locs, d, j);
    AxisReads(Merged(o, c, locs).locations, d, j);
  }
}
