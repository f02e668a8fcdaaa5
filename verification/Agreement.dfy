/** When an operation leaves the store in step with memory, by what is known before it:
    a merge when no two locations are close enough, a batch of two patterns when the
    second creates its own location. */
module Agreement {
  import opened Wrappers
  import opened Vectors
  import opened Locations
  import opened Live
  import opened LiveLaws
  import opened Store
  import opened Write
  import opened WriteLaws
  import opened Steps
  import opened Consistency
  import opened Upkeep
  import opened Merge
  import opened MergeLaws
  import opened Nearest
  import PlainBatches
  import Batches
  import Documents
  import Rounding
  import Scan
  import Sorting

  // ----- when a merge merges

  /** Two locations with a direction are more similar than `tau_merge`. */
  ghost predicate ClosePair(o: Oracles, c: Config, locs: seq<HardLocation>) {
    var norms := NormsOf(o, locs);
    exists i, j :: Rival(norms, i, j) && Sim(Addresses(locs), norms, i, j) > c.tauMerge
  }

  /** Location i is paired with its nearest. */
  ghost predicate Paired(addresses: seq<Vec>, norms: seq<real>, tau: real, i: nat)
    requires |norms| == |addresses|
  {
    PairOf(i, PlainNearest(addresses, norms, i, |norms|), tau) != []
  }

  lemma {:induction false} PairsBelowEmpty(addresses: seq<Vec>, norms: seq<real>, tau: real, n: nat)
    requires |norms| == |addresses| && n <= |norms|
    ensures PairsBelow(addresses, norms, tau, n) == [] <==> forall i | 0 <= i < n :: !Paired(addresses, norms, tau, i)
  {
    hide PlainNearest, PairOf;
    if n > 0 {
      PairsBelowEmpty(addresses, norms, tau, n - 1);
      var (before, last) := (PairsBelow(addresses, norms, tau, n - 1),
                             PairOf(n - 1, PlainNearest(addresses, norms, n - 1, |norms|), tau));
      assert |PairsBelow(addresses, norms, tau, n)| == |before| + |last|;
      assert Paired(addresses, norms, tau, n - 1) <==> last != [];
    }
  }

  /** A location is paired exactly when some rival is similar enough. */
  lemma PairedByRival(addresses: seq<Vec>, norms: seq<real>, tau: real, i: nat)
    requires |norms| == |addresses| && i < |norms|
    ensures Paired(addresses, norms, tau, i) <==> exists j :: Rival(norms, i, j) && Sim(addresses, norms, i, j) > tau
  {
    hide Sim, PlainNearest;
    var nearest := PlainNearest(addresses, norms, i, |norms|);
    assert BestBelow(addresses, norms, i, |norms|, nearest);
  }

  lemma PairsByGuard(o: Oracles, c: Config, locs: seq<HardLocation>)
    ensures PairsOf(o, c, locs) == [] <==> !ClosePair(o, c, locs)
  {
    hide Sim, PlainNearest, PairsBelow, PairOf, Sorting.Sort, Paired;
    var (addresses, norms) := (Addresses(locs), NormsOf(o, locs));
    Sorting.SortIsPermutation(PairsBelow(addresses, norms, c.tauMerge, |locs|), MoreSimilar);
    PairsBelowEmpty(addresses, norms, c.tauMerge, |locs|);
    forall i | 0 <= i < |locs|
      ensures Paired(addresses, norms, c.tauMerge, i)
         <==> exists j :: Rival(norms, i, j) && Sim(addresses, norms, i, j) > c.tauMerge
    {
      PairedByRival(addresses, norms, c.tauMerge, i);
    }
    if ClosePair(o, c, locs) {
      var i, j :| Rival(norms, i, j) && Sim(addresses, norms, i, j) > c.tauMerge;
      assert Paired(addresses, norms, c.tauMerge, i);
    }
  }

  /** The most similar pair always merges. */
  lemma {:induction false} FirstPairMerges(o: Oracles, c: Config, locs: seq<HardLocation>, pairs: seq<Pair>, n: nat)
    requires AllFit(pairs, |locs|) && n <= |pairs|
    ensures MergeFirst(o, c, locs, pairs, n).removed == [] <==> n == 0
  {
    hide Survivor, NeighborCap;
    if n > 0 {
      FirstPairMerges(o, c, locs, pairs, n - 1);
      if n == 1 {
        assert MergeFirst(o, c, locs, pairs, 0).merged == seq(|locs|, _ => false);
      }
    }
  }

  /** `knn_merge` merges something exactly when two locations are close enough. */
  lemma MergesByGuard(o: Oracles, c: Config, locs: seq<HardLocation>)
    ensures Merged(o, c, locs).removed == [] <==> !ClosePair(o, c, locs)
  {
    hide PairsOf, MergeFirst, Sim;
    if |locs| >= 2 {
      PairsFit(o, c, locs);
      FirstPairMerges(o, c, locs, PairsOf(o, c, locs), |PairsOf(o, c, locs)|);
      PairsByGuard(o, c, locs);
    } else {
      assert forall i, j :: !Rival(NormsOf(o, locs), i, j);
    }
  }

  /** No pair of the memory is more similar than the first of the list. */
  lemma FirstIsClosest(o: Oracles, c: Config, locs: seq<HardLocation>, i: nat, j: nat)
    requires Rival(NormsOf(o, locs), i, j) && Sim(Addresses(locs), NormsOf(o, locs), i, j) > c.tauMerge
    ensures PairsOf(o, c, locs) != [] && PairsOf(o, c, locs)[0].sim >= Sim(Addresses(locs), NormsOf(o, locs), i, j)
  {
    hide Sim, PlainNearest, PairsBelow, Sorting.Sort, Sorting.Sorted;
    var (addresses, norms) := (Addresses(locs), NormsOf(o, locs));
    var (pairs, below) := (PairsOf(o, c, locs), PairsBelow(addresses, norms, c.tauMerge, |locs|));
    var nearest := PlainNearest(addresses, norms, i, |norms|);
    assert BestBelow(addresses, norms, i, |norms|, nearest);
    var p := Pair(i, nearest.value.index, nearest.value.sim);
    BelowHas(addresses, norms, c.tauMerge, |locs|, i);
    Sorting.SortIsPermutation(below, MoreSimilar);
    Sorting.SameMembers(pairs, below, p);
    PairsDescend(o, c, locs);
    var t :| 0 <= t < |pairs| && pairs[t] == p;
    assert t > 0 ==> MoreSimilar(pairs[0], pairs[t]);
  }

  lemma {:induction false} BelowHas(addresses: seq<Vec>, norms: seq<real>, tau: real, n: nat, i: nat)
    requires |norms| == |addresses| && i < n <= |norms|
    requires PlainNearest(addresses, norms, i, |norms|).Some? && PlainNearest(addresses, norms, i, |norms|).value.sim > tau
    ensures var nearest := PlainNearest(addresses, norms, i, |norms|).value;
      Pair(i, nearest.index, nearest.sim) in PairsBelow(addresses, norms, tau, n)
  {
    hide PlainNearest, Sim;
    if i < n - 1 {
      BelowHas(addresses, norms, tau, n - 1, i);
    }
  }

  lemma PairsDescend(o: Oracles, c: Config, locs: seq<HardLocation>)
    ensures var pairs := PairsOf(o, c, locs); forall s, t | 0 <= s < t < |pairs| :: MoreSimilar(pairs[s], pairs[t])
  {
    hide Sorting.Sort, PairsBelow;
    assert Sorting.TotalPreorder(MoreSimilar);
    Sorting.SortIsSorted(PairsBelow(Addresses(locs), NormsOf(o, locs), c.tauMerge, |locs|), MoreSimilar);
  }

  /** A pair of the list is a location and its nearest, with their similarity. */
  lemma {:induction false} BelowAre(addresses: seq<Vec>, norms: seq<real>, tau: real, n: nat, t: nat)
    requires |norms| == |addresses| && n <= |norms| && t < |PairsBelow(addresses, norms, tau, n)|
    ensures var p := PairsBelow(addresses, norms, tau, n)[t];
      Rival(norms, p.i, p.j) && p.sim == Sim(addresses, norms, p.i, p.j) > tau
  {
    hide Sim, PlainNearest;
    if t < |PairsBelow(addresses, norms, tau, n - 1)| {
      BelowAre(addresses, norms, tau, n - 1, t);
    } else {
      assert BestBelow(addresses, norms, n - 1, |norms|, PlainNearest(addresses, norms, n - 1, |norms|));
    }
  }

  lemma {:induction false} ChainStarts(o: Oracles, c: Config, locs: seq<HardLocation>, pairs: seq<Pair>, n: nat)
    requires AllFit(pairs, |locs|) && 0 < n <= |pairs|
    ensures var m := MergeFirst(o, c, locs, pairs, n);
      m.chain != [] && m.chain[0] == (locs[pairs[0].j].id, locs[pairs[0].i].id)
  {
    hide Survivor, NeighborCap;
    if n == 1 {
      assert MergeFirst(o, c, locs, pairs, 0) == Merging(locs, seq(|locs|, _ => false), [], []);
    } else {
      ChainStarts(o, c, locs, pairs, n - 1);
    }
  }

  /** The first merge of `knn_merge` is of a closest pair: two that no other pair of the
      memory is more similar than. */
  lemma ClosestMergeFirst(o: Oracles, c: Config, locs: seq<HardLocation>) returns (i: nat, j: nat)
    requires ClosePair(o, c, locs)
    ensures var (addresses, norms) := (Addresses(locs), NormsOf(o, locs));
      && Rival(norms, i, j) && Merged(o, c, locs).chain != [] && Merged(o, c, locs).chain[0] == (locs[j].id, locs[i].id)
      && forall p, q | Rival(norms, p, q) :: Sim(addresses, norms, p, q) <= Sim(addresses, norms, i, j)
  {
    hide Sim, PlainNearest, PairsBelow, Sorting.Sort, MergeFirst, PairsOf, Retained;
    var (addresses, norms, pairs) := (Addresses(locs), NormsOf(o, locs), PairsOf(o, c, locs));
    PairsByGuard(o, c, locs);
    PairsFit(o, c, locs);
    ChainStarts(o, c, locs, pairs, |pairs|);
    PairsAre(o, c, locs);
    i, j := pairs[0].i, pairs[0].j;
    forall p, q | Rival(norms, p, q) ensures Sim(addresses, norms, p, q) <= Sim(addresses, norms, i, j) {
      if Sim(addresses, norms, p, q) > c.tauMerge {
        FirstIsClosest(o, c, locs, p, q);
      }
    }
  }

  lemma PairsAre(o: Oracles, c: Config, locs: seq<HardLocation>)
    requires PairsOf(o, c, locs) != []
    ensures var p := PairsOf(o, c, locs)[0];
      Rival(NormsOf(o, locs), p.i, p.j) && p.sim == Sim(Addresses(locs), NormsOf(o, locs), p.i, p.j) > c.tauMerge
  {
    hide Sim, PairsBelow, Sorting.Sort;
    var (pairs, below) := (PairsOf(o, c, locs), PairsBelow(Addresses(locs), NormsOf(o, locs), c.tauMerge, |locs|));
    Sorting.SortIsPermutation(below, MoreSimilar);
    assert pairs[0] in pairs;
    Sorting.SameMembers(below, pairs, pairs[0]);
    var t :| 0 <= t < |below| && below[t] == pairs[0];
    BelowAre(Addresses(locs), NormsOf(o, locs), c.tauMerge, |locs|, t);
  }

  // ----- what a merge does to written locations

  /** Every location has taken something in. */
  ghost predicate Written(locs: seq<HardLocation>) {
    forall x | 0 <= x < |locs| :: locs[x].writeCount > 0.0
  }

  /** Some location not merged away counts more than before. */
  ghost predicate Grown(locs: seq<HardLocation>, m: Merging)
    requires |m.locations| == |m.merged| == |locs|
  {
    exists x :: 0 <= x < |locs| && !m.merged[x] && m.locations[x].writeCount > locs[x].writeCount
  }

  lemma SurvivorCounts(o: Oracles, c: Config, a: HardLocation, b: HardLocation, cap: nat)
    ensures Survivor(o, c, a, b, cap).writeCount == a.writeCount + b.writeCount
  {
    hide MergedAddress, MergedNeighbors, AddScaled;
  }

  lemma {:induction false} LoopGrows(o: Oracles, c: Config, locs: seq<HardLocation>, pairs: seq<Pair>, n: nat)
    requires AllFit(pairs, |locs|) && n <= |pairs| && Written(locs)
    ensures var m := MergeFirst(o, c, locs, pairs, n);
      (forall x | 0 <= x < |locs| :: m.locations[x].writeCount >= locs[x].writeCount)
      && (m.removed != [] ==> Grown(locs, m))
  {
    hide Survivor, NeighborCap;
    if n > 0 {
      LoopGrows(o, c, locs, pairs, n - 1);
      var m := MergeFirst(o, c, locs, pairs, n - 1);
      var p := pairs[n - 1];
      if !m.merged[p.i] && !m.merged[p.j] {
        SurvivorCounts(o, c, m.locations[p.i], m.locations[p.j], NeighborCap(o, c, |m.locations|));
        var r := MergeOne(o, c, m, p);
        assert !r.merged[p.i] && r.locations[p.i].writeCount > locs[p.i].writeCount;
      }
    }
  }

  lemma {:induction false} RetainedHas(locs: seq<HardLocation>, merged: seq<bool>, x: nat)
    requires |merged| == |locs| && x < |locs| && !merged[x]
    ensures locs[x] in Retained(locs, merged)
  {
    var n := |locs| - 1;
    if x < n {
      RetainedHas(locs[..n], merged[..n], x);
    }
  }

  /** A merge of written locations that merges anything leaves one that is new. */
  lemma MergeLeavesNew(o: Oracles, c: Config, locs: seq<HardLocation>)
    requires Written(locs) && Distinct(Ids(locs)) && Merged(o, c, locs).removed != []
    ensures exists x :: 0 <= x < |Merged(o, c, locs).locations| && Merged(o, c, locs).locations[x] !in locs
  {
    hide PairsOf, MergeFirst, Retained;
    PairsFit(o, c, locs);
    var pairs := PairsOf(o, c, locs);
    var m := MergeFirst(o, c, locs, pairs, |pairs|);
    LoopGrows(o, c, locs, pairs, |pairs|);
    SameIds(o, c, locs, pairs, |pairs|);
    var x :| 0 <= x < |locs| && !m.merged[x] && m.locations[x].writeCount > locs[x].writeCount;
    RetainedHas(m.locations, m.merged, x);
    NewUnderOldId(locs, m.locations[x], x);
  }

  lemma NewUnderOldId(locs: seq<HardLocation>, loc: HardLocation, x: nat)
    requires Distinct(Ids(locs)) && x < |locs| && loc.id == Ids(locs)[x] && loc != locs[x]
    ensures loc !in locs
  {
    forall y | 0 <= y < |locs| ensures locs[y] != loc {
      assert Ids(locs)[y] == locs[y].id;
    }
  }

  /** A merge of written locations leaves the store in step exactly when no two are
      close enough to merge. */
  lemma MergeStaysInStep(o: Oracles, w: World)
    requires Inv(o, w) && w.valid && InStep(w) && Written(w.live.locations)
    ensures InStep(MergedWorld(o, w)) <==> !ClosePair(o, w.live.config, w.live.locations)
  {
    hide Merged, MergedWorld, ClosePair, CachesRight, Written, DiskOK, CountersMatch, Mirrors;
    MergesByGuard(o, w.live.config, w.live.locations);
    SurvivorsAreStale(o, w);
    if Merged(o, w.live.config, w.live.locations).removed == [] {
      MergedKeeps(o, w);
    } else {
      MergeLeavesNew(o, w.live.config, w.live.locations);
    }
  }

  // ----- two alike

  /** A new collection of two locations with the same address, each written this often. */
  function TwoAlike(o: Oracles, c: Config, count: real): World {
    var locs := [HardLocation(0, [1.0], [count], count, [], 0.0), HardLocation(1, [1.0], [count], count, [], 0.0)];
    World(Rebuilt(o, Live(c, locs, 2, c.eta0, 0, [], 0, [], [], [], 0.0)),
          WithCounters(WithLocations(EMPTY, locs), 2, Some(c.eta0), None), true, 0)
  }

  lemma TwoAlikeStart(o: Oracles, c: Config, count: real)
    requires c.d == 1 && c.tauMerge < 1.0 && o.norm([1.0]) == 1.0
    ensures var w := TwoAlike(o, c, count); Inv(o, w) && InStep(w) && ClosePair(o, c, w.live.locations)
  {
    hide Rebuilt, LiveOK, PutAll, Mirrors;
    var locs := [HardLocation(0, [1.0], [count], count, [], 0.0), HardLocation(1, [1.0], [count], count, [], 0.0)];
    var v := Live(c, locs, 2, c.eta0, 0, [], 0, [], [], [], 0.0);
    assert forall x | 0 <= x < |locs| :: Ids(locs)[x] == x;
    RebuildKeepsLive(o, v);
    RebuildLeavesTheRest(o, v);
    PutAllMirrors(map[], locs);
    MirrorsAligned(locs, PutAll(map[], locs));
    PutAllKeyed(map[], locs, 1, 2);
    assert Rival(NormsOf(o, locs), 0, 1) && Sim(Addresses(locs), NormsOf(o, locs), 0, 1) == 1.0;
  }

  /** Merging two locations written to leaves the store behind. */
  lemma MergeGoesStale(o: Oracles, c: Config, count: real)
    requires c.d == 1 && c.tauMerge < 1.0 && o.norm([1.0]) == 1.0 && count > 0.0
    ensures var w := TwoAlike(o, c, count);
      Inv(o, w) && InStep(w) && Written(w.live.locations) && !InStep(MergedWorld(o, w))
  {
    hide Inv, InStep, MergedWorld, ClosePair, CachesRight;
    var w := TwoAlike(o, c, count);
    TwoAlikeStart(o, c, count);
    MergeStaysInStep(o, w);
  }

  lemma {:induction false} RetainedWas(locs: seq<HardLocation>, merged: seq<bool>, x: nat)
    requires |merged| == |locs| && x < |Retained(locs, merged)|
    ensures Retained(locs, merged)[x] in locs
  {
    var n := |locs| - 1;
    if x < |Retained(locs[..n], merged[..n])| {
      RetainedWas(locs[..n], merged[..n], x);
    }
  }

  /** Nothing was ever written to it. */
  ghost predicate Blank(loc: HardLocation) {
    loc.counter == [0.0] && loc.writeCount == 0.0 && loc.neighbors == []
  }

  lemma BlankSurvives(o: Oracles, c: Config, a: HardLocation, b: HardLocation, cap: nat)
    requires Blank(a) && Blank(b)
    ensures Survivor(o, c, a, b, cap) == a
  {
    hide Normalized, Mean;
    assert AddScaled([0.0], [0.0], 1.0) == [0.0];
    assert AddPeers([], [], a.id) == [];
  }

  lemma {:induction false} BlanksSurvive(o: Oracles, c: Config, locs: seq<HardLocation>, pairs: seq<Pair>, n: nat)
    requires AllFit(pairs, |locs|) && n <= |pairs| && forall x | 0 <= x < |locs| :: Blank(locs[x])
    ensures MergeFirst(o, c, locs, pairs, n).locations == locs
  {
    hide NeighborCap, Survivor, Blank;
    if n > 0 {
      BlanksSurvive(o, c, locs, pairs, n - 1);
      var (m, p) := (MergeFirst(o, c, locs, pairs, n - 1), pairs[n - 1]);
      BlankSurvives(o, c, locs[p.i], locs[p.j], NeighborCap(o, c, |locs|));
      assert locs[p.i := locs[p.i]] == locs;
    }
  }

  /** Two locations never written to merge as well, and nothing is left behind. */
  lemma SeedsMergeInStep(o: Oracles, c: Config)
    requires c.d == 1 && c.tauMerge < 1.0 && o.norm([1.0]) == 1.0
    ensures var w := TwoAlike(o, c, 0.0);
      Inv(o, w) && InStep(w) && ClosePair(o, c, w.live.locations) && InStep(MergedWorld(o, w))
  {
    hide Inv, InStep, MergedWorld, ClosePair, CachesRight, PairsOf, MergeFirst, Retained;
    var w := TwoAlike(o, c, 0.0);
    var locs := w.live.locations;
    TwoAlikeStart(o, c, 0.0);
    SurvivorsAreStale(o, w);
    PairsFit(o, c, locs);
    var pairs := PairsOf(o, c, locs);
    BlanksSurvive(o, c, locs, pairs, |pairs|);
    var m := MergeFirst(o, c, locs, pairs, |pairs|);
    forall x | 0 <= x < |Retained(m.locations, m.merged)| ensures Retained(m.locations, m.merged)[x] in locs {
      RetainedWas(m.locations, m.merged, x);
    }
  }

  // ----- batches

  /** A batch of at most one pattern leaves the store in step. */
  lemma SingleStaysInStep(o: Oracles, v: Live, items: seq<Item>)
    requires Sound(o) && LiveOK(o, v) && PlainBatches.ItemsFit(v.config, items) && |items| <= 1
    ensures var b := PlainBatches.BatchOf(o, v, items);
      |v.locations| <= |b.live.locations| && b.clones == b.live.locations[|v.locations|..]
  {
    hide LiveOK, Sound, OutcomeAt, TakenOver, PlainBatches.Batching;
    if items != [] {
      assert items[..0] == [];
      PlainBatches.BatchNext(o, v, items);
      WriteKeepsLive(o, v, items[0]);
      OneBatched(o, v, items[0]);
    }
  }

  lemma OneBatched(o: Oracles, v: Live, it: Item)
    requires Sound(o) && HasRows(v) && InBounds(v, OutcomeAt(o, v, it))
    requires TakenOver(o, v, OutcomeAt(o, v, it)).locations == After(OutcomeAt(o, v, it))
    ensures var b := PlainBatches.Batching(o, PlainBatches.Batch(v, {}, []), it);
      |v.locations| <= |b.live.locations| && b.clones == b.live.locations[|v.locations|..]
  {
    hide OutcomeAt, TakenOver;
  }

  /** `write` for each pattern in turn, every one succeeding. */
  ghost function EachWritten(o: Oracles, w: World, items: seq<Item>): (r: World)
    requires Sound(o) && Inv(o, w) && w.valid && PlainBatches.ItemsFit(w.live.config, items)
    ensures Inv(o, r) && r.valid && r.live.config == w.live.config
  {
    if items == [] then w
    else
      var before := EachWritten(o, w, items[..|items| - 1]);
      var it := items[|items| - 1];
      Documents.WroteKeeps(o, before, it);
      WriteKeepsConfig(o, before, it);
      Wrote(o, before, it)
  }

  lemma WriteKeepsConfig(o: Oracles, w: World, it: Item)
    requires Sound(o) && Inv(o, w) && w.valid && |it.address| == |it.counter| == w.live.config.d
    requires HasRows(w.live) && InBounds(w.live, OutcomeAt(o, w.live, it))
    ensures Wrote(o, w, it).live.config == w.live.config && Wrote(o, w, it).valid
    ensures Wrote(o, w, it).live == TakenOver(o, w.live, OutcomeAt(o, w.live, it))
    ensures var d := Wrote(o, w, it).disk; d.documents == w.disk.documents && d.postings == w.disk.postings
                                           && d.docNextId == w.disk.docNextId
  {
    hide OutcomeAt, TakenOver, LiveOK, Sound;
    WriteKeepsLive(o, w.live, it);
  }

  lemma {:induction false} EachWrittenIs(o: Oracles, w: World, items: seq<Item>)
    requires Sound(o) && Inv(o, w) && w.valid && PlainBatches.ItemsFit(w.live.config, items)
    ensures var r := EachWritten(o, w, items);
      && r.live == PlainBatches.BatchOf(o, w.live, items).live && (InStep(w) ==> InStep(r))
      && r.disk.documents == w.disk.documents && r.disk.postings == w.disk.postings && r.disk.docNextId == w.disk.docNextId
  {
    hide OutcomeAt, TakenOver, LiveOK, Sound, InStep, Wrote, DiskOK, RefsAgree, Aligned;
    if items == [] {
      NoneBatched(o, w.live, items);
    } else {
      var (init, it) := (items[..|items| - 1], items[|items| - 1]);
      EachWrittenIs(o, w, init);
      var before := EachWritten(o, w, init);
      Documents.WroteKeeps(o, before, it);
      WriteKeepsConfig(o, before, it);
      PlainBatches.BatchNext(o, w.live, items);
    }
  }

  lemma NoneBatched(o: Oracles, v: Live, items: seq<Item>)
    requires Sound(o) && LiveOK(o, v) && items == []
    ensures PlainBatches.BatchOf(o, v, items).live == v
  {
  }

  /** `write_batch` leaves the memory that its patterns leave written one by one; and the
      store they leave exactly when it stays in step with memory. */
  lemma BatchIsEachWritten(o: Oracles, w: World, items: seq<Item>, order: seq<nat>)
    requires Sound(o) && Inv(o, w) && w.valid && InStep(w) && PlainBatches.ItemsFit(w.live.config, items)
    requires (forall t | 0 <= t < |order| :: order[t] < |PlainBatches.BatchOf(o, w.live, items).live.locations|)
    requires Batches.Orders(order, PlainBatches.BatchOf(o, w.live, items).modified)
    ensures var (n, r) := (PlainBatches.WroteBatch(w, PlainBatches.BatchOf(o, w.live, items), order), EachWritten(o, w, items));
      n.live == r.live && (n.disk == r.disk <==> InStep(n))
  {
    hide LiveOK, Sound, PlainBatches.BatchOf, Batches.Orders, Mirrors, Wrote, DiskOK, RefsAgree, Aligned, PlainBatches.StoredBatch,
      EachWritten;
    PlainBatches.BatchKeeps(o, w, items, order);
    EachWrittenIs(o, w, items);
    var (b, r) := (PlainBatches.BatchOf(o, w.live, items), EachWritten(o, w, items));
    PlainBatches.BatchLocationsOnly(w.disk, b.live.locations, order, b.clones);
    var n := PlainBatches.WroteBatch(w, b, order);
    if InStep(n) {
      MirrorsAgree(b.live.locations, n.disk.locations, r.disk.locations);
    }
  }

  lemma MirrorsAgree(locs: seq<HardLocation>, m: map<nat, HardLocation>, n: map<nat, HardLocation>)
    requires Mirrors(locs, m) && Mirrors(locs, n)
    ensures m == n
  {
    forall id | id in m || id in n ensures id in m && id in n && m[id] == n[id] {
      assert id in Ids(locs);
      var x :| 0 <= x < |locs| && Ids(locs)[x] == id;
      assert locs[x].id == id;
    }
  }

  /** What the first pattern creates in an empty memory. */
  function FirstLocation(o: Oracles, v: Live, first: Item): HardLocation {
    NewLocation(v.nextId, Normalized(o, first.address), first.counter, [])
  }

  /** What the second one's search then finds. */
  function SecondNear(o: Oracles, v: Live, first: Item, second: Item): seq<Scan.Scored> {
    var loc := FirstLocation(o, v, first);
    o.near(second.address, [loc], 1, [Rounding.ToF32(loc.address, o.to32)], Max(v.maxNorm, o.norm(loc.address)))
  }

  lemma OneFound(o: Oracles, v: Live, first: Item, second: Item)
    requires Sound(o)
    ensures |SecondNear(o, v, first, second)| == 1 && SecondNear(o, v, first, second)[0].index == 0
  {
    var loc := FirstLocation(o, v, first);
    assert Locations.Nearest(SecondNear(o, v, first, second), 1, 1);
  }

  function SecondSim(o: Oracles, v: Live, first: Item, second: Item): real {
    var near := SecondNear(o, v, first, second);
    if near == [] then 0.0 else near[0].sim
  }

  /** The second pattern is too far from the first to join its location. */
  predicate SecondSpawns(o: Oracles, v: Live, first: Item, second: Item) {
    var sim := SecondSim(o, v, first, second);
    if second.opts.gate then
      sim < second.opts.tauSplit || Cosine(o, first.counter, Normalized(o, second.counter)) < second.opts.tauCohere
    else if v.config.mdlGate then o.surpriseBits(sim) > o.engramBits(1, v.config.d)
    else sim < v.config.tauSplit
  }

  /** Taking in one more pattern does not overload a location. */
  predicate Calm(o: Oracles, v: Live, first: Item, second: Item) {
    if v.config.mdlGate then
      second.opts.gate ==> o.surpriseBits(SecondSim(o, v, first, second)) <= o.engramBits(1, v.config.d)
    else v.config.tauOverload >= 2.0
  }

  lemma AppendedOne(o: Oracles, v: Live, loc: HardLocation)
    requires v.locations == [] && v.rows32 == []
    ensures var r := Appended(o, v.(locations := [loc]), 0);
      r.locations == [loc] && r.rows32 == [Rounding.ToF32(loc.address, o.to32)]
      && r.maxNorm == Max(v.maxNorm, o.norm(loc.address)) && r.nextId == v.nextId && r.config == v.config && r.eta == v.eta
  {
    hide Rounding.ToF32, Entered, Landmarks;
    assert [loc][0..] == [loc];
    assert MaxNormOf(o, [], v.maxNorm) == v.maxNorm && [loc][..0] == [];
  }

  lemma AfterFirst(o: Oracles, v: Live, first: Item)
    requires Sound(o) && LiveOK(o, v) && v.locations == [] && v.config.competitive
    requires |first.address| == |first.counter| == v.config.d
    ensures var b := PlainBatches.BatchOf(o, v, [first]);
      b.clones == [FirstLocation(o, v, first)] && b.live.locations == b.clones
      && b.live.rows32 == [Rounding.ToF32(FirstLocation(o, v, first).address, o.to32)]
      && b.live.maxNorm == Max(v.maxNorm, o.norm(FirstLocation(o, v, first).address))
      && b.live.nextId == v.nextId + 1 && b.modified == {}
  {
    hide Activated, Normalized, CachesRight, Appended, Rounding.ToF32, BuiltLookup, Entered, Landmarks;
    assert [first][..0] == [];
    Documents.LiveHasRows(o, v);
    assert Locations.Nearest(Near(o, InputAt(v, first)), 0, 0);
    var out := OutcomeAt(o, v, first);
    assert out == Outcome([], [], [FirstLocation(o, v, first)], v.nextId + 1, v.eta);
    AppendedOne(o, v.(nextId := out.nextId, eta := out.eta), FirstLocation(o, v, first));
  }

  // The second pattern's write, on the one location that has been written once.

  ghost predicate OnceWritten(i: Input, near: seq<Scan.Scored>) {
    && |i.locations| == 1 && i.locations[0].writeCount == 1.0 && i.locations[0].surprise == 0.0
    && i.locations[0].neighbors == [] && |near| == 1 && near[0].index == 0
  }

  ghost predicate Apart(o: Oracles, i: Input, near: seq<Scan.Scored>)
    requires OnceWritten(i, near)
  {
    if i.opts.gate then
      near[0].sim < i.opts.tauSplit || Cosine(o, i.locations[0].counter, Normalized(o, i.counter)) < i.opts.tauCohere
    else if i.config.mdlGate then o.surpriseBits(near[0].sim) > o.engramBits(1, i.config.d)
    else near[0].sim < i.config.tauSplit
  }

  lemma ApartSpawns(o: Oracles, i: Input, near: seq<Scan.Scored>)
    requires OnceWritten(i, near)
    ensures Winner(o, i, near).0 == 0
    ensures Spawns(o, i, near, Winner(o, i, near).1) <==> Apart(o, i, near)
  {
    hide Normalized, Cosine;
    assert near[..0] == [];
    assert Strong(near[..0], i.opts.tauSplit) == [];
    if i.opts.gate && near[0].sim >= i.opts.tauSplit {
      assert Strong(near, i.opts.tauSplit) == [0];
      assert |Coherences(o, i, near, [0])| == 1;
    }
  }

  lemma LinkedAlone(locs: seq<HardLocation>, near: seq<Scan.Scored>, cap: nat)
    requires |locs| == 1 && locs[0].neighbors == [] && |near| == 1 && near[0].index == 0
    ensures Linked(locs, near, ActivatedIds(locs, near), cap, 1) == locs
  {
    var (loc, peers) := (locs[0], ActivatedIds(locs, near));
    assert peers == [loc.id] && peers[..0] == [];
    assert AddPeers([], peers, loc.id) == [];
    assert Linked(locs, near, peers, cap, 0) == locs;
    assert loc.(neighbors := []) == loc;
  }

  lemma ConnectedAlone(o: Oracles, i: Input, near: seq<Scan.Scored>)
    requires OnceWritten(i, near) && Apart(o, i, near)
    ensures Connected(o, i, near) == i.locations
  {
    hide Winner, Spawns, NeighborCap, Apart;
    ApartSpawns(o, i, near);
    LinkedAlone(i.locations, near, NeighborCap(o, i.config, |i.locations|));
  }

  lemma AbsorbedOnce(o: Oracles, i: Input, near: seq<Scan.Scored>)
    requires OnceWritten(i, near) && i.config.k > 0
    ensures var loc := Joined(o, i, near, 0, 1)[0]; loc.writeCount == 2.0 && loc.surprise == 0.0
  {
    hide Normalized, AddScaled, Difference, EtaWinner;
    assert Joined(o, i, near, 0, 0) == i.locations;
    assert Share(i, near, 0, 0).Some? && Share(i, near, 0, 0).value.0 == 1.0;
  }

  lemma JoinedAlone(o: Oracles, i: Input, near: seq<Scan.Scored>)
    requires OnceWritten(i, near) && !Apart(o, i, near) && i.config.k > 0
    ensures var loc := Connected(o, i, near)[0];
      loc.writeCount == 2.0 && loc.surprise == if i.config.mdlGate then o.surpriseBits(near[0].sim) else 0.0
  {
    hide Winner, Spawns, NeighborCap, Apart, Normalized, AddScaled, Difference, EtaWinner;
    ApartSpawns(o, i, near);
    ConnectedKeeps(o, i, near, 0);
    AbsorbedOnce(o, i, near);
  }

  /** Too far from the one location, the second pattern leaves it as it was; close
      enough to join, it changes it, unless joining overloads a location without links. */
  lemma SecondChanges(o: Oracles, i: Input, near: seq<Scan.Scored>)
    requires OnceWritten(i, near) && i.config.k > 0
    ensures Apart(o, i, near) ==> Activated(o, i, near).locations == i.locations
    ensures !Apart(o, i, near) && (i.config.neighborCap > 0 || !Overloaded(o, i.config, Connected(o, i, near), 0)) ==>
              Activated(o, i, near).locations != i.locations
  {
    hide Winner, Spawns, Connected, Apart, Normalized, Scale, AddScaled, NeighborCap, Overloaded;
    ApartSpawns(o, i, near);
    if Apart(o, i, near) {
      ConnectedAlone(o, i, near);
    } else {
      JoinedAlone(o, i, near);
      Unlinked(o, i, near);
    }
  }

  lemma Unlinked(o: Oracles, i: Input, near: seq<Scan.Scored>)
    requires OnceWritten(i, near) && i.config.k > 0
    ensures Connected(o, i, near)[0].neighbors == []
    ensures i.config.neighborCap > 0 ==> NeighborCap(o, i.config, 1) >= 2
  {
    hide Updated;
    UpdatedKeeps(o, i, near, 0);
    LinkedAlone(Updated(o, i, near), near, NeighborCap(o, i.config, 1));
  }

  /** Two patterns written in one batch to an empty memory: what is stored of the first
      one's location is what it was before the second. That is what is in memory when
      the second was too far from it to join, and, unless joining overloads a location
      without links, only then. */
  lemma PairInStep(o: Oracles, w: World, first: Item, second: Item, order: seq<nat>)
    requires Sound(o) && Inv(o, w) && w.valid && InStep(w) && w.live.locations == []
    requires PlainBatches.ItemsFit(w.live.config, [first, second]) && w.live.config.competitive && w.live.config.k > 0
    requires (forall t | 0 <= t < |order| :: order[t] < |PlainBatches.BatchOf(o, w.live, [first, second]).live.locations|)
    requires Batches.Orders(order, PlainBatches.BatchOf(o, w.live, [first, second]).modified)
    ensures var n := PlainBatches.WroteBatch(w, PlainBatches.BatchOf(o, w.live, [first, second]), order);
      && (SecondSpawns(o, w.live, first, second) ==> InStep(n))
      && (w.live.config.neighborCap > 0 || Calm(o, w.live, first, second) ==>
            (InStep(n) <==> SecondSpawns(o, w.live, first, second)))
  {
    hide LiveOK, Sound, DiskOK, InStep, PlainBatches.WroteBatch, Batches.Orders, PlainBatches.BatchOf, RefsAgree, Aligned,
      CountersMatch, SecondSpawns, Calm;
    var items := [first, second];
    assert items[..1] == [first];
    PlainBatches.BatchKeeps(o, w, items, order);
    SecondBatched(o, w.live, first, second);
    var locs := PlainBatches.BatchOf(o, w.live, items).live.locations;
    assert locs[0..] == locs;
  }

  lemma SecondBatched(o: Oracles, v: Live, first: Item, second: Item)
    requires Sound(o) && LiveOK(o, v) && v.locations == [] && v.config.competitive && v.config.k > 0
    requires PlainBatches.ItemsFit(v.config, [first, second])
    ensures var b := PlainBatches.BatchOf(o, v, [first, second]);
      && (SecondSpawns(o, v, first, second) ==> b.clones == b.live.locations)
      && (v.config.neighborCap > 0 || Calm(o, v, first, second) ==>
            (b.clones == b.live.locations <==> SecondSpawns(o, v, first, second)))
  {
    hide LiveOK, Sound, PlainBatches.BatchOf, Activated, Apart, Normalized, Connected, TakenOver, SecondSpawns, Calm, SecondNear,
      FirstLocation;
    var items := [first, second];
    assert items[..1] == [first] && items[0] == first && items[1] == second;
    AfterFirst(o, v, first);
    PlainBatches.BatchNext(o, v, items);
    var b := PlainBatches.BatchOf(o, v, [first]);
    WriteKeepsLive(o, b.live, second);
    OneFound(o, v, first, second);
    var (i, near) := (InputAt(b.live, second), SecondNear(o, v, first, second));
    FoundAfterFirst(o, v, first, second, i);
    SecondChanges(o, i, near);
    var out := OutcomeAt(o, b.live, second);
    SameFront(b.clones, out.locations, out.created);
  }

  lemma SameFront(a: seq<HardLocation>, b: seq<HardLocation>, c: seq<HardLocation>)
    requires |a| == |b|
    ensures a + c == b + c <==> a == b
  {
    assert (a + c)[..|a|] == a && (b + c)[..|a|] == b;
  }

  lemma FoundAfterFirst(o: Oracles, v: Live, first: Item, second: Item, i: Input)
    requires |SecondNear(o, v, first, second)| == 1 && SecondNear(o, v, first, second)[0].index == 0
    requires i.config == v.config && i.config.k > 0 && i.locations == [FirstLocation(o, v, first)]
    requires i.matrix32 == [Rounding.ToF32(FirstLocation(o, v, first).address, o.to32)]
    requires i.maxNorm == Max(v.maxNorm, o.norm(FirstLocation(o, v, first).address))
    requires i.address == second.address && i.counter == second.counter && i.opts == second.opts
    ensures var near := SecondNear(o, v, first, second);
      near == Near(o, i) && OnceWritten(i, near) && (Apart(o, i, near) <==> SecondSpawns(o, v, first, second))
      && (Calm(o, v, first, second) && !Apart(o, i, near) ==> !Overloaded(o, i.config, Connected(o, i, near), 0))
  {
    hide Normalized, Connected, Cosine, Rounding.ToF32;
    var near := SecondNear(o, v, first, second);
    if !Apart(o, i, near) {
      JoinedAlone(o, i, near);
    }
  }

  /** One location to store after such a batch when the second joins the first. */
  lemma OnlyFirstModified(o: Oracles, v: Live, first: Item, second: Item)
    requires Sound(o) && LiveOK(o, v) && v.locations == [] && v.config.competitive && v.config.k > 0
    requires PlainBatches.ItemsFit(v.config, [first, second])
    ensures PlainBatches.BatchOf(o, v, [first, second]).modified == {0}
    ensures PlainBatches.BatchOf(o, v, [first, second]).live.locations != []
  {
    hide LiveOK, Sound, PlainBatches.BatchOf, Winner, Spawns, Normalized, Connected, TakenOver, SecondNear, FirstLocation,
      Overloaded, SplitChild, SplitParent, NeighborCap;
    var items := [first, second];
    assert items[..1] == [first] && items[0] == first && items[1] == second;
    AfterFirst(o, v, first);
    PlainBatches.BatchNext(o, v, items);
    var b := PlainBatches.BatchOf(o, v, [first]);
    WriteKeepsLive(o, b.live, second);
    OneFound(o, v, first, second);
    var (i, near) := (InputAt(b.live, second), SecondNear(o, v, first, second));
    FoundAfterFirst(o, v, first, second, i);
    var modified := OutcomeAt(o, b.live, second).modified;
    assert modified == [0];
    assert (set t | 0 <= t < |modified| :: modified[t]) == {0} by {
      assert modified[0] == 0;
    }
  }

  // One such input: the same pattern twice.

  const SAME: Item := Item([1.0], [1.0], DEFAULT_OPTS, [1.0])
  const TINY: Config :=
    Config(d := 1, k := 1, eta0 := 0.1, lambda := 1.0, etaMin := 0.1, tauSplit := 0.3, tauMerge := 0.95, gamma := 0.0,
           tauDamp := 1.0, tauOverload := 100.0, neighborCap := 0, numLandmarks := 0, mdlGate := false, competitive := true)

  /** Every location is as similar as can be, as they are when all have this address. */
  const ALIKE: Oracles :=
    Oracles((v: Vec) => 1.0, (x: real) => x, (n: nat) => 0, (n: nat) => 0.0, (x: real) => 0.0, (n: nat, d: nat) => 0.0,
            (q: Vec, locs: seq<HardLocation>, k: nat, m: seq<Vec>, x: real) =>
              seq(k, t requires 0 <= t < k => Scan.Scored(t, 1.0)))

  const NEW: World := World(Live(TINY, [], 0, 0.1, 0, [], 0, [], [], [], 0.0), WithCounters(EMPTY, 0, Some(0.1), None), true, 0)

  lemma BatchGoesStale()
    ensures Sound(ALIKE) && Inv(ALIKE, NEW) && InStep(NEW) && PlainBatches.ItemsFit(TINY, [SAME, SAME])
    ensures var b := PlainBatches.BatchOf(ALIKE, NEW.live, [SAME, SAME]);
      Batches.Orders([0], b.modified) && b.live.locations != [] && !InStep(PlainBatches.WroteBatch(NEW, b, [0]))
  {
    hide PlainBatches.BatchOf, PlainBatches.WroteBatch;
    assert Sound(ALIKE);
    assert Inv(ALIKE, NEW) && InStep(NEW);
    OnlyFirstModified(ALIKE, NEW.live, SAME, SAME);
    PairInStep(ALIKE, NEW, SAME, SAME, [0]);
  }
}
