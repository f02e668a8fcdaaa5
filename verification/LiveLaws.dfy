/** The live half of a collection after each operation: sizes, ids and caches. */
module LiveLaws {
  import opened Wrappers
  import opened Vectors
  import opened Locations
  import opened Live
  import opened Write
  import opened WriteLaws
  import opened Steps
  import Merge
  import MergeLaws
  import Compress
  import CompressLaws
  import Rounding
  import Scan
  import Sorting
  import Nearest

  ghost predicate Sized(locs: seq<HardLocation>, d: nat) {
    forall x | 0 <= x < |locs| :: |locs[x].address| == d && |locs[x].counter| == d
  }

  ghost predicate Below(locs: seq<HardLocation>, nextId: nat) {
    forall x | 0 <= x < |locs| :: locs[x].id < nextId
  }

  /** The live half is in order: vectors of the right size, ids unique and given
      out, caches what a rebuild would make them. */
  ghost predicate LiveOK(o: Oracles, v: Live) {
    && Sized(v.locations, v.config.d)
    && Distinct(Ids(v.locations))
    && Below(v.locations, v.nextId)
    && CachesRight(o, v)
  }

  // ----- sizes

  lemma ConnectedSized(o: Oracles, i: Input, near: seq<Scan.Scored>, d: nat)
    requires near != [] && InRange(near, |i.locations|) && Sized(i.locations, d)
    ensures Sized(Connected(o, i, near), d)
  {
    hide Connected, Updated;
    forall x | 0 <= x < |i.locations|
      ensures |Connected(o, i, near)[x].address| == d && |Connected(o, i, near)[x].counter| == d
    {
      ConnectedKeeps(o, i, near, x);
      UpdatedKeeps(o, i, near, x);
    }
  }

  lemma ActivatedSized(o: Oracles, i: Input, near: seq<Scan.Scored>, d: nat)
    requires near != [] && InRange(near, |i.locations|) && Sized(i.locations, d) && |i.address| == |i.counter| == d
    ensures Sized(After(Activated(o, i, near)), d)
  {
    hide Winner, Spawns, Connected, Overloaded, NeighborCap, KeepOldest, Scale, AddScaled, Normalized;
    ConnectedSized(o, i, near, d);
  }

  lemma WriteSized(o: Oracles, i: Input, d: nat)
    requires Sound(o) && Sized(i.locations, d) && |i.address| == |i.counter| == d
    ensures Sized(After(Adaptive(o, i)), d)
  {
    hide Activated, Normalized;
    if i.config.competitive && Near(o, i) != [] {
      NearIndices(o, i);
      ActivatedSized(o, i, Near(o, i), d);
    }
  }

  lemma {:induction false} MeanSize(a: Vec, wa: real, b: Vec, wb: real)
    requires |a| == |b|
    ensures |Merge.Mean(a, wa, b, wb)| == |a| && |Compress.Sum(a, wa, b, wb)| == |a|
  {
    if a != [] {
      MeanSize(a[1..], wa, b[1..], wb);
    }
  }

  lemma SurvivorSized(o: Oracles, c: Config, a: HardLocation, b: HardLocation, cap: nat, d: nat)
    requires |a.address| == |b.address| == d && |a.counter| == d
    ensures |Merge.Survivor(o, c, a, b, cap).address| == d && |Merge.Survivor(o, c, a, b, cap).counter| == d
  {
    hide Normalized, AddScaled, Merge.MergedNeighbors, Merge.Mean;
    var total := a.writeCount + b.writeCount;
    if total > 0.000000000001 {
      MeanSize(a.address, a.writeCount / total, b.address, b.writeCount / total);
    }
  }

  lemma AbsorbingSized(o: Oracles, a: HardLocation, b: HardLocation, d: nat)
    requires |a.address| == |b.address| == d && |a.counter| == d
    ensures |Compress.Absorbing(o, a, b).address| == d && |Compress.Absorbing(o, a, b).counter| == d
  {
    hide Normalized, AddScaled, Compress.Sum;
    MeanSize(a.address, Compress.WeightOf(a), b.address, Compress.WeightOf(b));
  }

  lemma {:induction false} LoopSized(o: Oracles, c: Config, locs: seq<HardLocation>, pairs: seq<Merge.Pair>, n: nat, d: nat)
    requires Merge.AllFit(pairs, |locs|) && n <= |pairs| && Sized(locs, d)
    ensures Sized(Merge.MergeFirst(o, c, locs, pairs, n).locations, d)
  {
    hide Merge.Survivor, NeighborCap;
    if n > 0 {
      LoopSized(o, c, locs, pairs, n - 1, d);
      var m := Merge.MergeFirst(o, c, locs, pairs, n - 1);
      var p := pairs[n - 1];
      SurvivorSized(o, c, m.locations[p.i], m.locations[p.j], NeighborCap(o, c, |m.locations|), d);
    }
  }

  lemma {:induction false} RetainedSized(locs: seq<HardLocation>, merged: seq<bool>, d: nat)
    requires |merged| == |locs| && Sized(locs, d)
    ensures Sized(Merge.Retained(locs, merged), d)
  {
    if locs != [] {
      RetainedSized(locs[..|locs| - 1], merged[..|locs| - 1], d);
    }
  }

  lemma MergedSized(o: Oracles, c: Config, locs: seq<HardLocation>, d: nat)
    requires Sized(locs, d)
    ensures Sized(Merge.Merged(o, c, locs).locations, d)
  {
    hide Merge.MergeFirst, Merge.PairsOf, Merge.Retained;
    if |locs| >= 2 {
      Merge.PairsFit(o, c, locs);
      var pairs := Merge.PairsOf(o, c, locs);
      var m := Merge.MergeFirst(o, c, locs, pairs, |pairs|);
      LoopSized(o, c, locs, pairs, |pairs|, d);
      RetainedSized(m.locations, m.merged, d);
    }
  }

  lemma {:induction false} CompressedSized(o: Oracles, kappa: real, costWeight: real, w: real, locs: seq<HardLocation>, d: nat)
    requires Sized(locs, d)
    ensures Sized(Compress.Compressed(o, kappa, costWeight, w, locs).locations, d)
    decreases |locs|
  {
    hide Compress.Pays, Compress.Closest, Compress.Absorbing;
    if |locs| > 2 && Compress.Pays(o, kappa, costWeight, w, locs, Compress.Closest(locs)) {
      var b := Compress.Closest(locs);
      AbsorbingSized(o, locs[b.i], locs[b.j], d);
      CompressedSized(o, kappa, costWeight, w, Compress.Round(o, locs, b), d);
    }
  }

  // ----- a write

  lemma TakenFacts(o: Oracles, v: Live, it: Item)
    requires Sound(o) && Distinct(Ids(v.locations)) && Below(v.locations, v.nextId) && Sized(v.locations, v.config.d)
    requires |it.address| == |it.counter| == v.config.d
    ensures var out := OutcomeAt(o, v, it);
      && Framed(InputAt(v, it), out) && CreatesNext(InputAt(v, it), out) && InBounds(v, out)
      && Sized(After(out), v.config.d) && Distinct(Ids(After(out))) && Below(After(out), out.nextId)
  {
    hide Adaptive, Distinct;
    var out := OutcomeAt(o, v, it);
    WriteFrame(o, InputAt(v, it));
    WriteSized(o, InputAt(v, it), v.config.d);
    CreatedDistinct(v.locations, out, v.nextId, InputAt(v, it));
  }

  lemma CreatedDistinct(locs: seq<HardLocation>, out: Outcome, nextId: nat, i: Input)
    requires i.locations == locs && i.nextId == nextId && Framed(i, out) && CreatesNext(i, out)
    requires Distinct(Ids(locs)) && Below(locs, nextId)
    ensures Distinct(Ids(After(out))) && Below(After(out), out.nextId) && Distinct(Ids(out.locations))
  {
    var all := After(out);
    forall x | 0 <= x < |all| ensures all[x].id == if x < |locs| then Ids(locs)[x] else nextId {
    }
    assert Ids(out.locations) == Ids(locs);
  }

  lemma JoinedRightBut(o: Oracles, v: Live, it: Item, out: Outcome)
    requires CachesRight(o, v) && Framed(InputAt(v, it), out)
    ensures RightBut(o, v.(locations := out.locations, nextId := out.nextId, eta := out.eta), out.modified)
  {
    hide LookupRight;
    SameLookup(v.idLookup, v.locations, out.locations);
  }

  lemma SameLookup(lookup: seq<Option<nat>>, a: seq<HardLocation>, b: seq<HardLocation>)
    requires |a| == |b| && LookupRight(lookup, a, |a|) && forall x | 0 <= x < |a| :: b[x].id == a[x].id
    ensures LookupRight(lookup, b, |b|)
  {
  }

  /** Taking over a write keeps the live half in order. */
  lemma WriteKeepsLive(o: Oracles, v: Live, it: Item)
    requires Sound(o) && LiveOK(o, v) && |it.address| == |it.counter| == v.config.d
    ensures var out := OutcomeAt(o, v, it);
      InBounds(v, out) && LiveOK(o, TakenOver(o, v, out))
      && TakenOver(o, v, out).locations == After(out) && TakenOver(o, v, out).nextId == out.nextId
      && TakenOver(o, v, out).eta == out.eta && TakenOver(o, v, out).docNextId == v.docNextId
      && TakenOver(o, v, out).config == v.config
  {
    hide CachesRight, RightBut, Refreshed, Adaptive, Distinct, Synced, Entered, MaxNormOf, LookupRight;
    var out := OutcomeAt(o, v, it);
    TakenFacts(o, v, it);
    RowsAreThere(o, v);
    JoinedRightBut(o, v, it, out);
    var joined := v.(locations := out.locations, nextId := out.nextId, eta := out.eta);
    SyncIsRight(o, joined, out.modified);
    var synced := Synced(o, joined, out.modified, |out.modified|);
    if out.created == [] {
      assert After(out) == out.locations;
    } else {
      AppendIsRight(o, synced, out.created);
      AppendChangesCachesOnly(o, synced.(locations := After(out)), |out.locations|);
    }
  }

  lemma RowsAreThere(o: Oracles, v: Live)
    requires CachesRight(o, v)
    ensures HasRows(v)
  {
  }

  lemma AppendChangesCachesOnly(o: Oracles, v: Live, start: nat)
    requires start <= |v.locations|
    ensures var r := Appended(o, v, start);
      r.locations == v.locations && r.nextId == v.nextId && r.eta == v.eta && r.docNextId == v.docNextId && r.config == v.config
  {
    hide Entered, MaxNormOf, Landmarks;
  }

  // ----- the others

  lemma {:induction false} FilteredDistinct(ids: seq<nat>, p: nat -> bool, nextId: nat)
    requires Distinct(ids) && forall x | 0 <= x < |ids| :: ids[x] < nextId
    ensures var kept: seq<nat> := Sorting.Filter(ids, p); Distinct(kept) && forall x | 0 <= x < |kept| :: kept[x] < nextId
  {
    assert nextId !in ids;
    assert GoodList(ids, nextId, nextId);
    MergeLaws.FilterGood(ids, p, nextId, nextId);
  }

  /** Any operation that ends in a full rebuild, on locations in order. */
  lemma RebuildKeepsLive(o: Oracles, v: Live)
    requires Sized(v.locations, v.config.d) && Distinct(Ids(v.locations)) && Below(v.locations, v.nextId)
    ensures LiveOK(o, Rebuilt(o, v))
  {
    hide CachesRight, BuiltLookup, Landmarks, MaxNormOf, Distinct;
    RebuildIsRight(o, v);
  }

  lemma FilteredLocations(before: seq<HardLocation>, after: seq<HardLocation>, p: nat -> bool, nextId: nat)
    requires Distinct(Ids(before)) && Below(before, nextId) && Ids(after) == Sorting.Filter(Ids(before), p)
    ensures Distinct(Ids(after)) && Below(after, nextId)
  {
    hide Sorting.Filter;
    FilteredDistinct(Ids(before), p, nextId);
    var kept := Ids(after);
    assert forall x | 0 <= x < |kept| :: kept[x] < nextId;
    assert forall x | 0 <= x < |after| :: Ids(after)[x] == after[x].id;
  }

  lemma MergeKeepsLive(o: Oracles, v: Live)
    requires LiveOK(o, v)
    ensures LiveOK(o, Rebuilt(o, v.(locations := Merge.Merged(o, v.config, v.locations).locations)))
  {
    hide Merge.Merged, CachesRight, Rebuilt, Distinct;
    var r := Merge.Merged(o, v.config, v.locations);
    MergeLaws.MergeIsChained(o, v.config, v.locations);
    MergedSized(o, v.config, v.locations, v.config.d);
    FilteredLocations(v.locations, r.locations, MergeLaws.Alive(r.removed), v.nextId);
    RebuildKeepsLive(o, v.(locations := r.locations));
  }

  lemma CompressKeepsLive(o: Oracles, v: Live, kappa: real, costWeight: real, w: real)
    requires LiveOK(o, v)
    ensures LiveOK(o, Rebuilt(o, v.(locations := Compress.Compressed(o, kappa, costWeight, w, v.locations).locations)))
  {
    hide Compress.Compressed, CachesRight, Rebuilt, Distinct;
    var r := Compress.Compressed(o, kappa, costWeight, w, v.locations);
    CompressLaws.CompressIsChained(o, kappa, costWeight, w, v.locations);
    CompressedSized(o, kappa, costWeight, w, v.locations, v.config.d);
    FilteredLocations(v.locations, r.locations, MergeLaws.Alive(CompressLaws.RemovedOf(r.chain)), v.nextId);
    RebuildKeepsLive(o, v.(locations := r.locations));
  }

  /** A merge that merges nothing changes nothing. */
  lemma {:induction false} NothingRemoved(o: Oracles, c: Config, locs: seq<HardLocation>, pairs: seq<Merge.Pair>, n: nat)
    requires Merge.AllFit(pairs, |locs|) && n <= |pairs|
    ensures var m := Merge.MergeFirst(o, c, locs, pairs, n);
      m.removed == [] ==> m.locations == locs && forall x | 0 <= x < |locs| :: !m.merged[x]
  {
    hide Merge.Survivor, NeighborCap;
    if n > 0 {
      NothingRemoved(o, c, locs, pairs, n - 1);
    }
  }

  lemma {:induction false} AllRetained(locs: seq<HardLocation>, merged: seq<bool>)
    requires |merged| == |locs| && forall x | 0 <= x < |locs| :: !merged[x]
    ensures Merge.Retained(locs, merged) == locs
  {
    if locs != [] {
      AllRetained(locs[..|locs| - 1], merged[..|locs| - 1]);
    }
  }

  lemma QuietMerge(o: Oracles, c: Config, locs: seq<HardLocation>)
    requires Merge.Merged(o, c, locs).removed == []
    ensures Merge.Merged(o, c, locs).locations == locs
  {
    hide Merge.MergeFirst, Merge.PairsOf, Merge.Retained;
    if |locs| >= 2 {
      Merge.PairsFit(o, c, locs);
      var pairs := Merge.PairsOf(o, c, locs);
      var m := Merge.MergeFirst(o, c, locs, pairs, |pairs|);
      NothingRemoved(o, c, locs, pairs, |pairs|);
      AllRetained(m.locations, m.merged);
    }
  }

  /** The norms the engine measures d-vectors with cover them. */
  ghost predicate NormsCover(o: Oracles, d: nat) {
    forall v: Vec | |v| == d :: Rounding.CoversNorm(o.norm(v), v)
  }

  /** So do exact norms. */
  lemma RootsCover(o: Oracles, d: nat)
    requires Merge.NormIsRoot(o)
    ensures NormsCover(o, d)
  {
    hide Dot;
    forall v: Vec | |v| == d ensures Rounding.CoversNorm(o.norm(v), v) {
      Rounding.ExactNormCovers(o.norm(v), v);
    }
  }

  /** And norms computed in f64. */
  lemma ComputedNormsCover(o: Oracles, d: nat, rnd64: real -> real, sqrt: real -> real)
    requires Rounding.Rounds(rnd64, Rounding.U64) && SquareRoot(sqrt) && (d as real + 3.0) * Rounding.U32 <= 0.0099
    requires forall v: Vec :: o.norm(v) == Rounding.Norm64(v, rnd64, sqrt)
    ensures NormsCover(o, d)
  {
    hide Rounding.Norm64, Rounding.CoversNorm, Rounding.Rounds;
    forall v: Vec | |v| == d ensures Rounding.CoversNorm(o.norm(v), v) {
      Rounding.ComputedNormCovers(v, rnd64, sqrt);
    }
  }

  /** What a search needs of the f32 copy, the caches give it. */
  lemma CachesServeScans(o: Oracles, v: Live)
    requires CachesRight(o, v) && NormsCover(o, v.config.d) && Sized(v.locations, v.config.d)
    ensures Scan.Copies(v.rows32, v.maxNorm, RowsOf(v.locations), o.to32)
  {
    hide LookupRight, Rounding.CoversNorm;
    forall x | 0 <= x < |v.locations|
      ensures Rounding.CoversNorm(v.maxNorm, v.locations[x].address)
    {
      Rounding.CoversGrows(o.norm(v.locations[x].address), v.maxNorm, v.locations[x].address);
    }
  }
}
