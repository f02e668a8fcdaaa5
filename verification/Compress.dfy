/** `Collection::compress`: merge the closest two locations while the saving in
    description length exceeds the cost. */
module Compress {
  import opened Wrappers
  import opened Vectors
  import opened Locations

  datatype Best = Best(i: nat, j: nat, score: real)

  const LIGHTEST: real := 0.000000001

  // ----- the closest pair

  function Score(locs: seq<HardLocation>, i: nat, j: nat): real
    requires i < |locs| && j < |locs|
  {
    Dot(locs[i].address, locs[j].address)
  }

  function Closer(locs: seq<HardLocation>, i: nat, j: nat, best: Best): Best
    requires i < |locs| && j < |locs|
  {
    if Score(locs, i, j) > best.score then Best(i, j, Score(locs, i, j)) else best
  }

  /** The best after comparing location i with those from i + 1 to j - 1. */
  function RowScan(locs: seq<HardLocation>, i: nat, j: nat, best: Best): Best
    requires i < j <= |locs|
  {
    if j == i + 1 then best else Closer(locs, i, j - 1, RowScan(locs, i, j - 1, best))
  }

  /** The best of the pairs whose first location is below n. */
  function RowsScan(locs: seq<HardLocation>, n: nat): Best
    requires n <= |locs|
  {
    if n == 0 then Best(0, 1, -2.0) else RowScan(locs, n - 1, |locs|, RowsScan(locs, n - 1))
  }

  /** (i, j) is scanned before (p, q). */
  predicate Earlier(i: nat, j: nat, p: nat, q: nat) {
    i < p || (i == p && j < q)
  }

  /** The pairs scanned once location i has met those below j, and all rows before. */
  predicate Seen(n: nat, i: nat, j: nat, p: nat, q: nat) {
    p < q < n && Earlier(p, q, i, j)
  }

  /** b is the first of the most similar pairs seen, or the initial value when none
      exceeds it. */
  ghost predicate BestSeen(locs: seq<HardLocation>, i: nat, j: nat, b: Best) {
    && (forall p, q | Seen(|locs|, i, j, p, q) :: Score(locs, p, q) <= b.score)
    && (b == Best(0, 1, -2.0)
        || (Seen(|locs|, i, j, b.i, b.j) && b.score == Score(locs, b.i, b.j)
            && forall p, q | Seen(|locs|, i, j, p, q) && Earlier(p, q, b.i, b.j) :: Score(locs, p, q) < b.score))
  }

  lemma {:induction false} RowScanIsBest(locs: seq<HardLocation>, i: nat, j: nat, best: Best)
    requires i < j <= |locs| && BestSeen(locs, i, i + 1, best) && best.score >= -2.0
    ensures BestSeen(locs, i, j, RowScan(locs, i, j, best)) && RowScan(locs, i, j, best).score >= -2.0
  {
    hide Score;
    if j > i + 1 {
      RowScanIsBest(locs, i, j - 1, best);
      SeenGrows(locs, i, j - 1, RowScan(locs, i, j - 1, best));
    }
  }

  lemma SeenGrows(locs: seq<HardLocation>, i: nat, j: nat, b: Best)
    requires i < j < |locs| && BestSeen(locs, i, j, b) && b.score >= -2.0
    ensures BestSeen(locs, i, j + 1, Closer(locs, i, j, b))
  {
    hide Score;
  }

  /** The end of a row is the start of the next. */
  lemma RowEnds(locs: seq<HardLocation>, n: nat, b: Best)
    requires 0 < n <= |locs| && BestSeen(locs, n - 1, |locs|, b)
    ensures BestSeen(locs, n, n + 1, b)
  {
    hide Score;
    assert b != Best(0, 1, -2.0) ==> Seen(|locs|, n, n + 1, b.i, b.j);
  }

  lemma {:induction false} RowsScanIsBest(locs: seq<HardLocation>, n: nat)
    requires n <= |locs|
    ensures BestSeen(locs, n, n + 1, RowsScan(locs, n)) && RowsScan(locs, n).score >= -2.0
  {
    hide Score, RowScan;
    if n > 0 {
      RowsScanIsBest(locs, n - 1);
      RowScanIsBest(locs, n - 1, |locs|, RowsScan(locs, n - 1));
      RowEnds(locs, n, RowsScan(locs, n));
    }
  }

  /** The closest pair, the first among equals. */
  function Closest(locs: seq<HardLocation>): (b: Best)
    requires |locs| >= 2
    ensures b.i < b.j < |locs|
    ensures forall p, q | 0 <= p < q < |locs| :: Score(locs, p, q) <= b.score
    ensures b.score == Score(locs, b.i, b.j) || b == Best(0, 1, -2.0)
  {
    RowsScanIsBest(locs, |locs|);
    SeenAll(locs, RowsScan(locs, |locs|));
    RowsScan(locs, |locs|)
  }

  lemma SeenAll(locs: seq<HardLocation>, b: Best)
    requires BestSeen(locs, |locs|, |locs| + 1, b)
    ensures forall p, q | 0 <= p < q < |locs| :: Score(locs, p, q) <= b.score
  {
    hide Score;
    forall p, q | 0 <= p < q < |locs| ensures Score(locs, p, q) <= b.score {
      assert Seen(|locs|, |locs|, |locs| + 1, p, q);
    }
  }

  // ----- one round

  function WeightOf(loc: HardLocation): real {
    Max(loc.writeCount, LIGHTEST)
  }

  /** wa * a + wb * b, as far as both go. */
  function Sum(a: Vec, wa: real, b: Vec, wb: real): Vec {
    if a == [] || b == [] then [] else [wa * a[0] + wb * b[0]] + Sum(a[1..], wa, b[1..], wb)
  }

  /** b merges into a. */
  function Absorbing(o: Oracles, a: HardLocation, b: HardLocation): HardLocation {
    var (wa, wb) := (WeightOf(a), WeightOf(b));
    a.(address := Normalized(o, Sum(a.address, wa, b.address, wb)),
       counter := AddScaled(a.counter, b.counter, 1.0),
       writeCount := wa + wb,
       neighbors := a.neighbors + b.neighbors)
  }

  /** Whether merging the pair pays. */
  predicate Pays(o: Oracles, kappa: real, costWeight: real, w: real, locs: seq<HardLocation>, b: Best)
    requires b.i < |locs| && b.j < |locs| && |locs| >= 2
  {
    var (wi, wj, n) := (WeightOf(locs[b.i]), WeightOf(locs[b.j]), |locs|);
    var inertia := Quotient(wi * wj, wi + wj) * 2.0 * Max(1.0 - b.score, 0.0);
    var saving := kappa + w * (o.log2(n) - o.log2(n - 1));
    saving > inertia * costWeight
  }

  function Without(locs: seq<HardLocation>, j: nat): (r: seq<HardLocation>)
    requires j < |locs|
    ensures |r| == |locs| - 1
  {
    locs[..j] + locs[j + 1..]
  }

  /** The locations after merging the pair, with the earlier one surviving. */
  function Round(o: Oracles, locs: seq<HardLocation>, b: Best): (r: seq<HardLocation>)
    requires b.i < b.j < |locs|
    ensures |r| == |locs| - 1
  {
    Without(locs[b.i := Absorbing(o, locs[b.i], locs[b.j])], b.j)
  }

  // ----- the loop

  datatype Compression = Compression(locations: seq<HardLocation>, chain: seq<(nat, nat)>)

  function Compressed(o: Oracles, kappa: real, costWeight: real, w: real, locs: seq<HardLocation>): Compression
    decreases |locs|
  {
    if |locs| <= 2 || !Pays(o, kappa, costWeight, w, locs, Closest(locs)) then Compression(locs, [])
    else
      var b := Closest(locs);
      var rest := Compressed(o, kappa, costWeight, w, Round(o, locs, b));
      Compression(rest.locations, [(locs[b.j].id, locs[b.i].id)] + rest.chain)
  }

  lemma CompressedNoMore(o: Oracles, kappa: real, costWeight: real, w: real, locs: seq<HardLocation>)
    requires |locs| <= 2 || !Pays(o, kappa, costWeight, w, locs, Closest(locs))
    ensures Compressed(o, kappa, costWeight, w, locs) == Compression(locs, [])
  {
  }

  lemma CompressedOnce(o: Oracles, kappa: real, costWeight: real, w: real, locs: seq<HardLocation>)
    requires |locs| > 2 && Pays(o, kappa, costWeight, w, locs, Closest(locs))
    ensures var b := Closest(locs);
      var rest := Compressed(o, kappa, costWeight, w, Round(o, locs, b));
      Compressed(o, kappa, costWeight, w, locs) == Compression(rest.locations, [(locs[b.j].id, locs[b.i].id)] + rest.chain)
  {
    hide Pays, Closest, Round;
  }

  method FindClosest(locs: seq<HardLocation>) returns (best: Best)
    requires |locs| >= 2
    ensures best == Closest(locs)
  {
    hide Dot;
    best := Best(0, 1, -2.0);
    for i := 0 to |locs|
      invariant best == RowsScan(locs, i)
    {
      ghost var start := best;
      for j := i + 1 to |locs|
        invariant best == RowScan(locs, i, j, start)
      {
        var c := Dot(locs[i].address, locs[j].address);
        if c > best.score {
          best := Best(i, j, c);
        }
      }
    }
  }

  method CompressLoop(o: Oracles, kappa: real, costWeight: real, w: real, before: seq<HardLocation>)
    returns (locations: seq<HardLocation>, chain: seq<(nat, nat)>)
    ensures Compression(locations, chain) == Compressed(o, kappa, costWeight, w, before)
  {
    hide Closest, Pays, Absorbing, Compressed;
    locations, chain := before, [];
    assert [] + Compressed(o, kappa, costWeight, w, before).chain == Compressed(o, kappa, costWeight, w, before).chain;
    while |locations| > 2
      invariant var rest := Compressed(o, kappa, costWeight, w, locations);
        Compressed(o, kappa, costWeight, w, before) == Compression(rest.locations, chain + rest.chain)
      decreases |locations|
    {
      var best := FindClosest(locations);
      if !Pays(o, kappa, costWeight, w, locations, best) {
        CompressedNoMore(o, kappa, costWeight, w, locations);
        assert chain + [] == chain;
        return;
      }
      CompressedOnce(o, kappa, costWeight, w, locations);
      ghost var rest := Compressed(o, kappa, costWeight, w, Round(o, locations, best));
      var (a, b) := (locations[best.i], locations[best.j]);
      locations := locations[best.i := Absorbing(o, a, b)];
      locations := locations[..best.j] + locations[best.j + 1..];
      assert chain + ([(b.id, a.id)] + rest.chain) == (chain + [(b.id, a.id)]) + rest.chain;
      chain := chain + [(b.id, a.id)];
    }
    CompressedNoMore(o, kappa, costWeight, w, locations);
    assert chain + [] == chain;
  }
}
