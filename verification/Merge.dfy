/** merge.rs: `knn_merge` joins each location with its nearest neighbour, the most
    similar pairs first. */
module Merge {
  import opened Wrappers
  import opened Vectors
  import opened Locations
  import opened Write
  import opened Nearest
  import opened Sorting

  datatype Pair = Pair(i: nat, j: nat, sim: real)

  /** The loop's variables. */
  datatype Merging = Merging(locations: seq<HardLocation>, merged: seq<bool>, removed: seq<nat>, chain: seq<(nat, nat)>)

  // ----- the pairs

  function Addresses(locs: seq<HardLocation>): (r: seq<Vec>)
    ensures |r| == |locs|
  {
    seq(|locs|, i requires 0 <= i < |locs| => locs[i].address)
  }

  function NormsOf(o: Oracles, locs: seq<HardLocation>): (r: seq<real>)
    ensures |r| == |locs|
  {
    seq(|locs|, i requires 0 <= i < |locs| => o.norm(locs[i].address))
  }

  /** The nearest of the first n locations, by comparing them all. */
  function PlainNearest(addresses: seq<Vec>, norms: seq<real>, i: nat, n: nat): (r: Option<Neighbour>)
    requires |norms| == |addresses| && n <= |norms|
    ensures BestBelow(addresses, norms, i, n, r)
  {
    if n == 0 || !Usable(norms, i) then None
    else
      var before := PlainNearest(addresses, norms, i, n - 1);
      ConsiderExtends(addresses, norms, i, n - 1, before);
      Consider(addresses, norms, i, n - 1, before)
  }

  /** `filter_map`: location i with its nearest neighbour, when similar enough. */
  function PairOf(i: nat, nearest: Option<Neighbour>, tau: real): seq<Pair> {
    if nearest.Some? && nearest.value.sim > tau then [Pair(i, nearest.value.index, nearest.value.sim)] else []
  }

  function PairsBelow(addresses: seq<Vec>, norms: seq<real>, tau: real, n: nat): seq<Pair>
    requires |norms| == |addresses| && n <= |norms|
  {
    if n == 0 then []
    else PairsBelow(addresses, norms, tau, n - 1) + PairOf(n - 1, PlainNearest(addresses, norms, n - 1, |norms|), tau)
  }

  predicate MoreSimilar(a: Pair, b: Pair) {
    a.sim >= b.sim
  }

  // ----- one merge

  /** The count-weighted mean of two addresses; in a competitive memory its direction. */
  function MergedAddress(o: Oracles, c: Config, a: HardLocation, b: HardLocation): Vec {
    var total := a.writeCount + b.writeCount;
    if total > 0.000000000001 then
      var mean := Mean(a.address, a.writeCount / total, b.address, b.writeCount / total);
      if c.competitive then Normalized(o, mean) else mean
    else a.address
  }

  /** wa * a + wb * b, as far as both go. */
  function Mean(a: Vec, wa: real, b: Vec, wb: real): Vec {
    if a == [] || b == [] then [] else [a[0] * wa + b[0] * wb] + Mean(a[1..], wa, b[1..], wb)
  }

  /** The survivor's neighbours: both lists, without either location. */
  function MergedNeighbors(a: HardLocation, b: HardLocation, cap: nat): seq<nat> {
    var both := AddPeers(a.neighbors, b.neighbors, a.id);
    var kept := Filter(both, (n: nat) => n != b.id);
    if cap > 0 then KeepOldest(kept, cap) else kept
  }

  /** b merges into a. */
  function Survivor(o: Oracles, c: Config, a: HardLocation, b: HardLocation, cap: nat): HardLocation {
    a.(address := MergedAddress(o, c, a, b),
       counter := AddScaled(a.counter, b.counter, 1.0),
       writeCount := a.writeCount + b.writeCount,
       neighbors := MergedNeighbors(a, b, cap))
  }

  predicate Fits(m: Merging, p: Pair) {
    |m.merged| == |m.locations| && p.i < |m.locations| && p.j < |m.locations| && p.i != p.j
  }

  function MergeOne(o: Oracles, c: Config, m: Merging, p: Pair): (r: Merging)
    requires Fits(m, p)
    ensures |r.locations| == |m.locations| && |r.merged| == |m.merged|
  {
    if m.merged[p.i] || m.merged[p.j] then m
    else
      var (a, b) := (m.locations[p.i], m.locations[p.j]);
      Merging(m.locations[p.i := Survivor(o, c, a, b, NeighborCap(o, c, |m.locations|))],
              m.merged[p.j := true], m.removed + [b.id], m.chain + [(b.id, a.id)])
  }

  predicate AllFit(pairs: seq<Pair>, n: nat) {
    forall t | 0 <= t < |pairs| :: pairs[t].i < n && pairs[t].j < n && pairs[t].i != pairs[t].j
  }

  /** The loop over the first n pairs. */
  function MergeFirst(o: Oracles, c: Config, locs: seq<HardLocation>, pairs: seq<Pair>, n: nat): (r: Merging)
    requires AllFit(pairs, |locs|) && n <= |pairs|
    ensures |r.locations| == |locs| && |r.merged| == |locs|
  {
    if n == 0 then Merging(locs, seq(|locs|, _ => false), [], [])
    else MergeOne(o, c, MergeFirst(o, c, locs, pairs, n - 1), pairs[n - 1])
  }

  /** `retain`: what was not merged away, in order. */
  function Retained(locs: seq<HardLocation>, merged: seq<bool>): seq<HardLocation>
    requires |merged| == |locs|
  {
    if locs == [] then []
    else
      var n := |locs| - 1;
      Retained(locs[..n], merged[..n]) + if merged[n] then [] else [locs[n]]
  }

  // ----- the whole merge

  datatype MergeResult = MergeResult(locations: seq<HardLocation>, removed: seq<nat>, chain: seq<(nat, nat)>)

  function PairsOf(o: Oracles, c: Config, locs: seq<HardLocation>): seq<Pair> {
    Sort(PairsBelow(Addresses(locs), NormsOf(o, locs), c.tauMerge, |locs|), MoreSimilar)
  }

  lemma {:induction false} PairsBelowFit(addresses: seq<Vec>, norms: seq<real>, tau: real, n: nat)
    requires |norms| == |addresses| && n <= |norms|
    ensures AllFit(PairsBelow(addresses, norms, tau, n), |norms|)
  {
    hide PlainNearest, Sim;
    if n > 0 {
      PairsBelowFit(addresses, norms, tau, n - 1);
      assert BestBelow(addresses, norms, n - 1, |norms|, PlainNearest(addresses, norms, n - 1, |norms|));
    }
  }

  lemma PairsFit(o: Oracles, c: Config, locs: seq<HardLocation>)
    ensures AllFit(PairsOf(o, c, locs), |locs|)
  {
    hide PairsBelow, Sort;
    var pairs := PairsBelow(Addresses(locs), NormsOf(o, locs), c.tauMerge, |locs|);
    PairsBelowFit(Addresses(locs), NormsOf(o, locs), c.tauMerge, |locs|);
    SortIsPermutation(pairs, MoreSimilar);
    var sorted := Sort(pairs, MoreSimilar);
    var fits := (p: Pair) => p.i < |locs| && p.j < |locs| && p.i != p.j;
    PermutationKeeps(pairs, sorted, fits);
    forall t | 0 <= t < |sorted| ensures fits(sorted[t]) {
      assert sorted[t] in sorted;
    }
  }

  /** What `knn_merge` leaves, with each neighbour found by plain comparison. */
  function Merged(o: Oracles, c: Config, locs: seq<HardLocation>): MergeResult {
    if |locs| < 2 then MergeResult(locs, [], [])
    else
      PairsFit(o, c, locs);
      var pairs := PairsOf(o, c, locs);
      var m := MergeFirst(o, c, locs, pairs, |pairs|);
      MergeResult(Retained(m.locations, m.merged), m.removed, m.chain)
  }

  // ----- as it runs

  ghost predicate NormIsRoot(o: Oracles) {
    forall v: Vec :: o.norm(v) >= 0.0 && o.norm(v) * o.norm(v) == Dot(v, v)
  }

  /** However the neighbours were found, they are the ones plain comparison finds. */
  lemma SearchAgrees(addresses: seq<Vec>, norms: seq<real>, i: nat, found: Option<Neighbour>)
    requires |norms| == |addresses| && i < |norms| && IsNearest(addresses, norms, i, found)
    ensures found == PlainNearest(addresses, norms, i, |norms|)
  {
    hide Sim, PlainNearest;
    NearestIsUnique(addresses, norms, i, found, PlainNearest(addresses, norms, i, |norms|));
  }

  method CollectPairs(ghost addresses: seq<Vec>, ghost norms: seq<real>, nearest: seq<Option<Neighbour>>, tau: real)
    returns (pairs: seq<Pair>)
    requires |norms| == |addresses| == |nearest|
    requires forall i | 0 <= i < |norms| :: nearest[i] == PlainNearest(addresses, norms, i, |norms|)
    ensures pairs == PairsBelow(addresses, norms, tau, |norms|)
  {
    hide PlainNearest;
    pairs := [];
    for i := 0 to |nearest|
      invariant pairs == PairsBelow(addresses, norms, tau, i)
    {
      pairs := pairs + PairOf(i, nearest[i], tau);
    }
  }

  method MergePairs(o: Oracles, c: Config, before: seq<HardLocation>, pairs: seq<Pair>) returns (m: Merging)
    requires AllFit(pairs, |before|)
    ensures m == MergeFirst(o, c, before, pairs, |pairs|)
  {
    hide MergedAddress, AddPeers, NeighborCap, AddScaled, Filter;
    var locations, merged := before, seq(|before|, _ => false);
    var removed: seq<nat>, chain: seq<(nat, nat)> := [], [];
    for t := 0 to |pairs|
      invariant |locations| == |merged| == |before|
      invariant Merging(locations, merged, removed, chain) == MergeFirst(o, c, before, pairs, t)
    {
      var (i, j) := (pairs[t].i, pairs[t].j);
      if !merged[i] && !merged[j] {
        var (a, b) := (locations[i], locations[j]);
        var neighbors := Union(a.neighbors, b.neighbors, a.id);
        neighbors := Filter(neighbors, (n: nat) => n != b.id);
        var cap := NeighborCap(o, c, |locations|);
        if cap > 0 && |neighbors| > cap {
          neighbors := neighbors[..cap];
        }
        a := a.(address := MergedAddress(o, c, a, b));
        a := a.(counter := AddScaled(a.counter, b.counter, 1.0), writeCount := a.writeCount + b.writeCount,
                neighbors := neighbors);
        locations, merged := locations[i := a], merged[j := true];
        chain := chain + [(b.id, a.id)];
        removed := removed + [b.id];
      }
    }
    m := Merging(locations, merged, removed, chain);
  }

  method Retain(locs: seq<HardLocation>, merged: seq<bool>) returns (r: seq<HardLocation>)
    requires |merged| == |locs|
    ensures r == Retained(locs, merged)
  {
    r := [];
    for t := 0 to |locs|
      invariant r == Retained(locs[..t], merged[..t])
    {
      assert locs[..t + 1][..t] == locs[..t] && merged[..t + 1][..t] == merged[..t];
      if !merged[t] {
        r := r + [locs[t]];
      }
    }
    assert locs[..|locs|] == locs && merged[..|locs|] == merged;
  }

  /** `knn_merge`: the projected search finds the pairs, and the outcome is the one
      plain comparison gives. */
  method KnnMerge(o: Oracles, c: Config, locs: seq<HardLocation>, start: seq<Vec>, sqrt: real -> real)
    returns (r: MergeResult)
    requires NormIsRoot(o) && SquareRoot(sqrt)
    requires locs != [] ==> Rows(start, |locs[0].address|)
    ensures r == Merged(o, c, locs)
  {
    hide PlainNearest, Sort, PairsBelow, MergeFirst, Retained;
    if |locs| < 2 {
      return MergeResult(locs, [], []);
    }
    var addresses, norms := Addresses(locs), NormsOf(o, locs);
    var nearest := NearestNeighbors(addresses, norms, start, sqrt);
    forall i | 0 <= i < |norms| ensures nearest[i] == PlainNearest(addresses, norms, i, |norms|) {
      SearchAgrees(addresses, norms, i, nearest[i]);
    }
    var pairs := CollectPairs(addresses, norms, nearest, c.tauMerge);
    pairs := Sort(pairs, MoreSimilar);
    PairsFit(o, c, locs);
    var m := MergePairs(o, c, locs, pairs);
    var kept := Retain(m.locations, m.merged);
    r := MergeResult(kept, m.removed, m.chain);
  }
}
