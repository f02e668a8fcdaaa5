/** What `knn_merge` keeps: a well-founded merge chain, the order of the survivors,
    the totals, the neighbour graph; and that no close pair is left. */
module MergeLaws {
  import opened Wrappers
  import opened Vectors
  import opened Locations
  import opened Write
  import opened WriteLaws
  import opened Conservation
  import opened Merge
  import opened Nearest
  import opened Sorting

  /** Each removed location goes into one that is still there, once. */
  ghost predicate Chained(chain: seq<(nat, nat)>) {
    && (forall s, t | 0 <= s <= t < |chain| :: chain[s].0 != chain[t].1)
    && (forall s, t | 0 <= s < t < |chain| :: chain[s].0 != chain[t].0)
  }

  /** The ids removed so far, as the loop records them in three places. */
  ghost predicate Recorded(locs: seq<HardLocation>, m: Merging) {
    && |m.locations| == |m.merged| == |locs|
    && (forall x | 0 <= x < |locs| :: m.locations[x].id == locs[x].id)
    && |m.chain| == |m.removed|
    && (forall t | 0 <= t < |m.chain| :: m.chain[t].0 == m.removed[t])
    && (forall x | 0 <= x < |locs| :: m.merged[x] <==> locs[x].id in m.removed)
    && (forall t | 0 <= t < |m.chain| :: m.chain[t].0 in Ids(locs) && m.chain[t].1 in Ids(locs))
    && Chained(m.chain)
  }

  lemma RecordedStep(o: Oracles, c: Config, locs: seq<HardLocation>, m: Merging, p: Pair)
    requires Recorded(locs, m) && Fits(m, p) && Distinct(Ids(locs))
    ensures Recorded(locs, MergeOne(o, c, m, p))
  {
    hide Survivor, NeighborCap;
    if !m.merged[p.i] && !m.merged[p.j] {
      var (a, b) := (Ids(locs)[p.i], Ids(locs)[p.j]);
      var r := MergeOne(o, c, m, p);
      SurvivorKeepsId(o, c, m.locations[p.i], m.locations[p.j], NeighborCap(o, c, |m.locations|));
      assert r.chain == m.chain + [(b, a)] && r.removed == m.removed + [b];
      assert a != b;
      ChainExtends(m.chain, m.removed, b, a);
      RemovedExtends(locs, m, p.j);
    }
  }

  lemma SurvivorKeepsId(o: Oracles, c: Config, a: HardLocation, b: HardLocation, cap: nat)
    ensures Survivor(o, c, a, b, cap).id == a.id
  {
    hide MergedAddress, MergedNeighbors, AddScaled;
  }

  lemma ChainExtends(chain: seq<(nat, nat)>, removed: seq<nat>, b: nat, a: nat)
    requires Chained(chain) && |chain| == |removed| && forall t | 0 <= t < |chain| :: chain[t].0 == removed[t]
    requires a !in removed && b !in removed && a != b
    ensures Chained(chain + [(b, a)])
  {
    var longer := chain + [(b, a)];
    forall s | 0 <= s < |chain| ensures longer[s].0 != b && longer[s].0 != a {
      assert removed[s] in removed;
    }
  }

  lemma RemovedExtends(locs: seq<HardLocation>, m: Merging, j: nat)
    requires Recorded(locs, m) && j < |locs| && Distinct(Ids(locs))
    ensures forall x | 0 <= x < |locs| :: m.merged[j := true][x] <==> locs[x].id in m.removed + [locs[j].id]
  {
    forall x | 0 <= x < |locs|
      ensures m.merged[j := true][x] <==> locs[x].id in m.removed + [locs[j].id]
    {
      assert Ids(locs)[x] == locs[x].id && Ids(locs)[j] == locs[j].id;
    }
  }

  lemma {:induction false} RecordedAll(o: Oracles, c: Config, locs: seq<HardLocation>, pairs: seq<Pair>, n: nat)
    requires AllFit(pairs, |locs|) && n <= |pairs| && Distinct(Ids(locs))
    ensures Recorded(locs, MergeFirst(o, c, locs, pairs, n))
  {
    hide MergeOne;
    if n > 0 {
      RecordedAll(o, c, locs, pairs, n - 1);
      RecordedStep(o, c, locs, MergeFirst(o, c, locs, pairs, n - 1), pairs[n - 1]);
    }
  }

  // ----- the survivors

  /** The ids that are left when these are removed. */
  function Alive(removed: seq<nat>): nat -> bool {
    id => id !in removed
  }

  lemma {:induction false} RetainedIds(locs: seq<HardLocation>, merged: seq<bool>, removed: seq<nat>)
    requires |merged| == |locs| && forall x | 0 <= x < |locs| :: merged[x] <==> locs[x].id in removed
    ensures Ids(Retained(locs, merged)) == Filter(Ids(locs), Alive(removed))
  {
    if locs != [] {
      var n := |locs| - 1;
      RetainedIds(locs[..n], merged[..n], removed);
      assert Ids(locs)[..n] == Ids(locs[..n]);
      assert Ids(locs)[n] == locs[n].id;
    }
  }

  lemma {:induction false} SameIds(o: Oracles, c: Config, locs: seq<HardLocation>, pairs: seq<Pair>, n: nat)
    requires AllFit(pairs, |locs|) && n <= |pairs|
    ensures Ids(MergeFirst(o, c, locs, pairs, n).locations) == Ids(locs)
  {
    hide Survivor, NeighborCap;
    if n > 0 {
      SameIds(o, c, locs, pairs, n - 1);
      var m := MergeFirst(o, c, locs, pairs, n - 1);
      var p := pairs[n - 1];
      var cap := NeighborCap(o, c, |m.locations|);
      SurvivorKeepsId(o, c, m.locations[p.i], m.locations[p.j], cap);
      assert Ids(m.locations)[p.i] == m.locations[p.i].id;
      assert Ids(MergeOne(o, c, m, p).locations) == Ids(m.locations);
    }
  }

  /** A merge removes each location once, into one that is still there, and leaves
      the others in their order. */
  lemma MergeIsChained(o: Oracles, c: Config, locs: seq<HardLocation>)
    requires Distinct(Ids(locs))
    ensures var r := Merged(o, c, locs);
      && Chained(r.chain) && |r.chain| == |r.removed|
      && (forall t | 0 <= t < |r.chain| :: r.chain[t].0 == r.removed[t])
      && (forall t | 0 <= t < |r.chain| :: r.chain[t].0 in Ids(locs) && r.chain[t].1 in Ids(locs))
      && Ids(r.locations) == Filter(Ids(locs), Alive(r.removed))
  {
    hide MergeFirst, PairsOf, Retained;
    var r := Merged(o, c, locs);
    if |locs| < 2 {
      NothingFiltered(Ids(locs), r.removed);
    } else {
      PairsFit(o, c, locs);
      var pairs := PairsOf(o, c, locs);
      var m := MergeFirst(o, c, locs, pairs, |pairs|);
      RecordedAll(o, c, locs, pairs, |pairs|);
      SameIds(o, c, locs, pairs, |pairs|);
      RetainedIds(m.locations, m.merged, m.removed);
    }
  }

  lemma {:induction false} NothingFiltered(ids: seq<nat>, removed: seq<nat>)
    requires removed == []
    ensures Filter(ids, Alive(removed)) == ids
  {
    if ids != [] {
      NothingFiltered(ids[..|ids| - 1], removed);
    }
  }

  // ----- the neighbour graph

  lemma {:induction false} FilterGood(list: seq<nat>, p: nat -> bool, own: nat, nextId: nat)
    requires GoodList(list, own, nextId)
    ensures GoodList(Filter(list, p), own, nextId)
  {
    if list != [] {
      var n := |list| - 1;
      FilterGood(list[..n], p, own, nextId);
      FilterMembers(list[..n], p);
      forall t | 0 <= t < |Filter(list[..n], p)| ensures Filter(list[..n], p)[t] != list[n] {
        assert Filter(list[..n], p)[t] in list[..n];
      }
    }
  }

  lemma CapZero(o: Oracles, c: Config, a: nat, b: nat)
    requires NeighborCap(o, c, a) == 0
    ensures NeighborCap(o, c, b) == 0
  {
  }

  lemma SurvivorGood(o: Oracles, c: Config, a: HardLocation, b: HardLocation, n: nat, nextId: nat, largest: nat)
    requires Sound(o) && n <= largest && GoodList(a.neighbors, a.id, nextId) && GoodList(b.neighbors, b.id, nextId)
    requires |a.neighbors| <= NeighborCap(o, c, largest) && |b.neighbors| <= NeighborCap(o, c, largest)
    ensures var s := Survivor(o, c, a, b, NeighborCap(o, c, n));
      s.id == a.id && GoodList(s.neighbors, a.id, nextId) && |s.neighbors| <= NeighborCap(o, c, largest)
  {
    hide MergedAddress, AddScaled, NeighborCap, GoodList, AddPeers, Filter;
    var cap := NeighborCap(o, c, n);
    CapGrows(o, c, n, largest);
    Peers(a.neighbors, b.neighbors, a.id, nextId, b.id);
    var both := AddPeers(a.neighbors, b.neighbors, a.id);
    var other := (n: nat) => n != b.id;
    FilterGood(both, other, a.id, nextId);
    KeepGood(Filter(both, other), cap, a.id, nextId);
    if cap == 0 {
      CapZero(o, c, n, largest);
      NoPeers(a.id, other);
    }
  }

  lemma Peers(list: seq<nat>, more: seq<nat>, own: nat, nextId: nat, other: nat)
    requires GoodList(list, own, nextId) && GoodList(more, other, nextId)
    ensures GoodList(AddPeers(list, more, own), own, nextId)
  {
    AddPeersGood(list, more, own, nextId);
  }

  lemma NoPeers(own: nat, p: nat -> bool)
    ensures Filter(AddPeers([], [], own), p) == []
  {
  }

  lemma {:induction false} LoopTidy(o: Oracles, c: Config, locs: seq<HardLocation>, pairs: seq<Pair>, n: nat, nextId: nat,
                                    largest: nat)
    requires Sound(o) && AllFit(pairs, |locs|) && n <= |pairs| && Tidy(o, c, locs, nextId, largest)
    ensures Tidy(o, c, MergeFirst(o, c, locs, pairs, n).locations, nextId, largest)
  {
    hide Survivor, NeighborCap, GoodList, Distinct, Sound;
    if n > 0 {
      LoopTidy(o, c, locs, pairs, n - 1, nextId, largest);
      var m := MergeFirst(o, c, locs, pairs, n - 1);
      var p := pairs[n - 1];
      var (a, b) := (m.locations[p.i], m.locations[p.j]);
      SurvivorGood(o, c, a, b, |m.locations|, nextId, largest);
      TidyUpdate(o, c, m.locations, nextId, largest, p.i, Survivor(o, c, a, b, NeighborCap(o, c, |m.locations|)));
    }
  }

  lemma TidyPrefix(o: Oracles, c: Config, locs: seq<HardLocation>, nextId: nat, largest: nat)
    requires Tidy(o, c, locs, nextId, largest) && locs != []
    ensures Tidy(o, c, locs[..|locs| - 1], nextId, largest)
    ensures locs[|locs| - 1].id !in Ids(locs[..|locs| - 1])
  {
    hide NeighborCap, GoodList;
    assert Ids(locs[..|locs| - 1]) == Ids(locs)[..|locs| - 1];
    assert Ids(locs)[|locs| - 1] == locs[|locs| - 1].id;
  }

  lemma {:induction false} RetainedTidy(o: Oracles, c: Config, locs: seq<HardLocation>, merged: seq<bool>, nextId: nat,
                                        largest: nat)
    requires |merged| == |locs| && Tidy(o, c, locs, nextId, largest)
    ensures Tidy(o, c, Retained(locs, merged), nextId, largest) && |Retained(locs, merged)| <= |locs|
    ensures forall t | 0 <= t < |Retained(locs, merged)| :: Retained(locs, merged)[t].id in Ids(locs)
  {
    hide NeighborCap, GoodList, Distinct;
    if locs != [] {
      var n := |locs| - 1;
      TidyPrefix(o, c, locs, nextId, largest);
      RetainedTidy(o, c, locs[..n], merged[..n], nextId, largest);
      assert Ids(locs) == Ids(locs[..n]) + [locs[n].id];
      if merged[n] {
        assert Retained(locs, merged) == Retained(locs[..n], merged[..n]);
      } else {
        TidyAppend(o, c, Retained(locs[..n], merged[..n]), nextId, largest, locs[n]);
      }
    }
  }

  /** Merging keeps the memory tidy; the next id stays as it was. */
  lemma MergeKeepsTidy(o: Oracles, c: Config, locs: seq<HardLocation>, nextId: nat, largest: nat)
    requires Sound(o) && Tidy(o, c, locs, nextId, largest)
    ensures Tidy(o, c, Merged(o, c, locs).locations, nextId, largest)
    ensures |Merged(o, c, locs).locations| <= |locs|
  {
    hide MergeFirst, PairsOf, Retained, Tidy;
    if |locs| >= 2 {
      PairsFit(o, c, locs);
      var pairs := PairsOf(o, c, locs);
      var m := MergeFirst(o, c, locs, pairs, |pairs|);
      LoopTidy(o, c, locs, pairs, |pairs|, nextId, largest);
      RetainedTidy(o, c, m.locations, m.merged, nextId, largest);
    }
  }

  // ----- the totals

  /** Coordinate j of the counters not merged away, and their write counts. */
  ghost function LiveCounter(locs: seq<HardLocation>, merged: seq<bool>, j: nat): real
    requires |merged| == |locs|
  {
    if locs == [] then 0.0
    else
      var n := |locs| - 1;
      LiveCounter(locs[..n], merged[..n], j) + if merged[n] then 0.0 else At(locs[n].counter, j)
  }

  ghost function LiveWrites(locs: seq<HardLocation>, merged: seq<bool>): real
    requires |merged| == |locs|
  {
    if locs == [] then 0.0
    else
      var n := |locs| - 1;
      LiveWrites(locs[..n], merged[..n]) + if merged[n] then 0.0 else locs[n].writeCount
  }

  lemma {:induction false} RetainedSums(locs: seq<HardLocation>, merged: seq<bool>, j: nat)
    requires |merged| == |locs|
    ensures CounterSum(Retained(locs, merged), j) == LiveCounter(locs, merged, j)
    ensures WriteSum(Retained(locs, merged)) == LiveWrites(locs, merged)
  {
    hide At;
    if locs != [] {
      var n := |locs| - 1;
      RetainedSums(locs[..n], merged[..n], j);
      SumsAppend(Retained(locs[..n], merged[..n]), if merged[n] then [] else [locs[n]], j);
      OneSum(locs[n], j);
    }
  }

  lemma {:induction false} LiveUpdate(locs: seq<HardLocation>, merged: seq<bool>, i: nat, x: HardLocation, j: nat)
    requires |merged| == |locs| && i < |locs| && !merged[i]
    ensures LiveCounter(locs[i := x], merged, j) == LiveCounter(locs, merged, j) - At(locs[i].counter, j) + At(x.counter, j)
    ensures LiveWrites(locs[i := x], merged) == LiveWrites(locs, merged) - locs[i].writeCount + x.writeCount
  {
    hide At;
    var n := |locs| - 1;
    if i < n {
      assert locs[i := x][..n] == locs[..n][i := x];
      LiveUpdate(locs[..n], merged[..n], i, x, j);
    } else {
      assert locs[i := x][..n] == locs[..n];
    }
  }

  lemma {:induction false} LiveRemove(locs: seq<HardLocation>, merged: seq<bool>, i: nat, j: nat)
    requires |merged| == |locs| && i < |locs| && !merged[i]
    ensures LiveCounter(locs, merged[i := true], j) == LiveCounter(locs, merged, j) - At(locs[i].counter, j)
    ensures LiveWrites(locs, merged[i := true]) == LiveWrites(locs, merged) - locs[i].writeCount
  {
    hide At;
    var n := |locs| - 1;
    if i < n {
      assert merged[i := true][..n] == merged[..n][i := true];
      LiveRemove(locs[..n], merged[..n], i, j);
    } else {
      assert merged[i := true][..n] == merged[..n];
    }
  }

  lemma {:induction false} NothingMerged(locs: seq<HardLocation>, merged: seq<bool>, j: nat)
    requires |merged| == |locs| && forall x | 0 <= x < |locs| :: !merged[x]
    ensures LiveCounter(locs, merged, j) == CounterSum(locs, j) && LiveWrites(locs, merged) == WriteSum(locs)
  {
    hide At;
    if locs != [] {
      NothingMerged(locs[..|locs| - 1], merged[..|locs| - 1], j);
    }
  }

  lemma SurvivorSums(o: Oracles, c: Config, a: HardLocation, b: HardLocation, cap: nat, j: nat)
    requires |b.counter| <= |a.counter|
    ensures At(Survivor(o, c, a, b, cap).counter, j) == At(a.counter, j) + At(b.counter, j)
    ensures Survivor(o, c, a, b, cap).writeCount == a.writeCount + b.writeCount
    ensures |Survivor(o, c, a, b, cap).counter| == |a.counter|
  {
    hide MergedAddress, MergedNeighbors;
    AddScaledAt(a.counter, b.counter, 1.0, j);
  }

  lemma StepConserves(o: Oracles, c: Config, m: Merging, p: Pair, d: nat, j: nat)
    requires Fits(m, p) && CountersOf(m.locations, d)
    ensures var r := MergeOne(o, c, m, p);
      CountersOf(r.locations, d)
      && LiveCounter(r.locations, r.merged, j) == LiveCounter(m.locations, m.merged, j)
      && LiveWrites(r.locations, r.merged) == LiveWrites(m.locations, m.merged)
  {
    hide Survivor, NeighborCap, At, LiveCounter, LiveWrites;
    if !m.merged[p.i] && !m.merged[p.j] {
      var (a, b) := (m.locations[p.i], m.locations[p.j]);
      var s := Survivor(o, c, a, b, NeighborCap(o, c, |m.locations|));
      SurvivorSums(o, c, a, b, NeighborCap(o, c, |m.locations|), j);
      LiveUpdate(m.locations, m.merged, p.i, s, j);
      LiveRemove(m.locations[p.i := s], m.merged, p.j, j);
    }
  }

  lemma {:induction false} LoopConserves(o: Oracles, c: Config, locs: seq<HardLocation>, pairs: seq<Pair>, n: nat, d: nat, j: nat)
    requires AllFit(pairs, |locs|) && n <= |pairs| && CountersOf(locs, d)
    ensures var m := MergeFirst(o, c, locs, pairs, n);
      CountersOf(m.locations, d)
      && LiveCounter(m.locations, m.merged, j) == CounterSum(locs, j) && LiveWrites(m.locations, m.merged) == WriteSum(locs)
  {
    hide MergeOne, CounterSum, WriteSum, LiveCounter, LiveWrites;
    if n == 0 {
      NothingMerged(locs, MergeFirst(o, c, locs, pairs, 0).merged, j);
    } else {
      LoopConserves(o, c, locs, pairs, n - 1, d, j);
      StepConserves(o, c, MergeFirst(o, c, locs, pairs, n - 1), pairs[n - 1], d, j);
    }
  }

  /** Merging neither adds to nor takes from the sum of all counters, or the total
      write count. */
  lemma MergeConserves(o: Oracles, c: Config, locs: seq<HardLocation>, d: nat, j: nat)
    requires CountersOf(locs, d)
    ensures CounterSum(Merged(o, c, locs).locations, j) == CounterSum(locs, j)
    ensures WriteSum(Merged(o, c, locs).locations) == WriteSum(locs)
  {
    hide MergeFirst, PairsOf, Retained, CounterSum, WriteSum;
    if |locs| >= 2 {
      PairsFit(o, c, locs);
      var pairs := PairsOf(o, c, locs);
      var m := MergeFirst(o, c, locs, pairs, |pairs|);
      LoopConserves(o, c, locs, pairs, |pairs|, d, j);
      RetainedSums(m.locations, m.merged, j);
    }
  }

  // ----- bystanders, and what is left to merge

  /** A location that survived no merge of its own is as it was. */
  lemma {:induction false} Bystander(o: Oracles, c: Config, locs: seq<HardLocation>, pairs: seq<Pair>, n: nat, x: nat)
    requires AllFit(pairs, |locs|) && n <= |pairs| && x < |locs|
    ensures var m := MergeFirst(o, c, locs, pairs, n);
      m.locations[x].id == locs[x].id
      && ((forall t | 0 <= t < |m.chain| :: m.chain[t].1 != locs[x].id) ==> m.locations[x] == locs[x])
  {
    hide Survivor, NeighborCap;
    if n > 0 {
      Bystander(o, c, locs, pairs, n - 1, x);
      var m := MergeFirst(o, c, locs, pairs, n - 1);
      var p := pairs[n - 1];
      if p.i < |m.locations| && !m.merged[p.i] && !m.merged[p.j] {
        SurvivorKeepsId(o, c, m.locations[p.i], m.locations[p.j], NeighborCap(o, c, |m.locations|));
        var r := MergeOne(o, c, m, p);
        assert r.chain == m.chain + [(m.locations[p.j].id, m.locations[p.i].id)];
        assert forall t | 0 <= t < |m.chain| :: r.chain[t] == m.chain[t];
        assert r.chain[|m.chain|].1 == m.locations[p.i].id;
      }
    }
  }

  lemma {:induction false} PairsSettled(o: Oracles, c: Config, locs: seq<HardLocation>, pairs: seq<Pair>, n: nat)
    requires AllFit(pairs, |locs|) && n <= |pairs|
    ensures var m := MergeFirst(o, c, locs, pairs, n);
      forall t | 0 <= t < n :: m.merged[pairs[t].i] || m.merged[pairs[t].j]
  {
    hide Survivor, NeighborCap;
    if n > 0 {
      PairsSettled(o, c, locs, pairs, n - 1);
    }
  }

  lemma {:induction false} PairIsListed(addresses: seq<Vec>, norms: seq<real>, tau: real, n: nat, i: nat)
    requires |norms| == |addresses| && i < n <= |norms|
    requires PlainNearest(addresses, norms, i, |norms|).Some? && PlainNearest(addresses, norms, i, |norms|).value.sim > tau
    ensures var r := PlainNearest(addresses, norms, i, |norms|).value;
      Pair(i, r.index, r.sim) in PairsBelow(addresses, norms, tau, n)
  {
    hide PlainNearest;
    if i < n - 1 {
      PairIsListed(addresses, norms, tau, n - 1, i);
    }
  }

  /** Of every location and its nearest neighbour at the start, when they were
      more similar than `tau_merge`, at most one is left. */
  lemma MergeIsMaximal(o: Oracles, c: Config, locs: seq<HardLocation>, i: nat)
    requires Distinct(Ids(locs)) && i < |locs|
    ensures var nearest := PlainNearest(Addresses(locs), NormsOf(o, locs), i, |locs|);
      nearest.Some? && nearest.value.sim > c.tauMerge ==>
        locs[i].id in Merged(o, c, locs).removed || locs[nearest.value.index].id in Merged(o, c, locs).removed
  {
    hide PlainNearest, Sort, PairsBelow, MergeFirst, Retained, Sim;
    var (addresses, norms) := (Addresses(locs), NormsOf(o, locs));
    var nearest := PlainNearest(addresses, norms, i, |norms|);
    if nearest.Some? && nearest.value.sim > c.tauMerge {
      assert BestBelow(addresses, norms, i, |norms|, nearest);
      assert |locs| >= 2;
      PairIsListed(addresses, norms, c.tauMerge, |locs|, i);
      var listed := PairsBelow(addresses, norms, c.tauMerge, |locs|);
      var pairs := PairsOf(o, c, locs);
      var pair := Pair(i, nearest.value.index, nearest.value.sim);
      SortIsPermutation(listed, MoreSimilar);
      SameMembers(listed, pairs, pair);
      PairsFit(o, c, locs);
      PairsSettled(o, c, locs, pairs, |pairs|);
      RecordedAll(o, c, locs, pairs, |pairs|);
    }
  }
}
