/** What merging, compression, flushing, deletion, snapshots and failures keep of a
    collection: its invariant, its agreement with the store, its documents. */
module Upkeep {
  import opened Wrappers
  import opened Vectors
  import opened Locations
  import opened Live
  import opened LiveLaws
  import opened Store
  import opened Steps
  import opened Consistency
  import opened Documents
  import Merge
  import MergeLaws
  import Compress
  import CompressLaws
  import Sorting

  // ----- materializing

  ghost predicate NoRefs(d: Disk) {
    forall doc | doc in d.documents :: d.documents[doc].Inline?
  }

  /** `location_address` finds each live location. */
  lemma AddressRight(o: Oracles, v: Live, x: nat)
    requires LiveOK(o, v) && x < |v.locations|
    ensures AddressOf(v, v.locations[x].id) == Some(v.locations[x].address)
  {
    assert LookupRight(v.idLookup, v.locations, |v.locations|);
  }

  /** Every stored document resolves to what it stands for: `get_document` returns it. */
  lemma EveryDocumentResolves(o: Oracles, w: World, doc: nat)
    requires Inv(o, w) && w.valid && doc in w.disk.documents
    ensures ResolvedDocument(w.live, w.disk.documents[doc]) == Some(Docs(w.disk)[doc])
  {
    hide LiveOK, Keyed, CountersMatch;
    var data := w.disk.documents[doc];
    if data.ByLocation? {
      assert data.location in Ids(w.live.locations);
      var x :| 0 <= x < |w.live.locations| && Ids(w.live.locations)[x] == data.location;
      AddressRight(o, w.live, x);
    }
  }

  /** Materializing gives every document its own vector, the one it stood for. */
  lemma MaterializeKeeps(o: Oracles, w: World)
    requires Inv(o, w) && w.valid
    ensures var d := Materialized(w.live, w.disk);
      NoRefs(d) && Docs(d) == Docs(w.disk) && d == w.disk.(documents := d.documents)
      && d.documents.Keys == w.disk.documents.Keys
  {
    hide Inv, ResolvedDocument;
    forall doc | doc in w.disk.documents
      ensures ResolvedDocument(w.live, w.disk.documents[doc]) == Some(Docs(w.disk)[doc])
    {
      EveryDocumentResolves(o, w, doc);
    }
    InlineResolves(w.live, w.disk);
  }

  lemma InlineResolves(v: Live, d: Disk)
    ensures forall doc | doc in d.documents && d.documents[doc].Inline? ::
              ResolvedDocument(v, d.documents[doc]) == Some((d.documents[doc].vector, d.documents[doc].metadata))
  {
  }

  lemma MaterializedOK(o: Oracles, w: World)
    requires Inv(o, w) && w.valid
    ensures DiskOK(w.live.config, Materialized(w.live, w.disk))
  {
    hide LiveOK, Materialized, Docs, Keyed;
    MaterializeKeeps(o, w);
    var d := Materialized(w.live, w.disk);
    WithoutRefs(d, d, w.live.config, w.live.locations);
  }

  /** With no references left, documents do not depend on locations. */
  lemma WithoutRefs(d: Disk, e: Disk, c: Config, locs: seq<HardLocation>)
    requires NoRefs(d) && e.documents == d.documents
    ensures Docs(e) == Docs(d) && RefsStored(c, e) && RefsAgree(locs, e)
  {
  }

  // ----- dropping locations

  lemma {:induction false} DropAllIn(m: map<nat, HardLocation>, ids: seq<nat>, id: nat)
    ensures id in DropAll(m, ids) <==> id in m && id !in ids
    ensures id in DropAll(m, ids) ==> DropAll(m, ids)[id] == m[id]
  {
    if ids != [] {
      DropAllIn(m, ids[..|ids| - 1], id);
      assert ids == ids[..|ids| - 1] + [ids[|ids| - 1]];
    }
  }

  lemma DropAllKeyed(m: map<nat, HardLocation>, ids: seq<nat>, d: nat, nextId: nat)
    requires Keyed(m, d, nextId)
    ensures Keyed(DropAll(m, ids), d, nextId)
  {
    hide DropAll;
    forall id | id in DropAll(m, ids)
      ensures var loc := DropAll(m, ids)[id];
        loc.id == id && id < nextId && |loc.address| == d && |loc.counter| == d
    {
      DropAllIn(m, ids, id);
    }
  }

  /** Survivors in memory and survivors in the store are the same. */
  lemma DroppedAligned(before: seq<HardLocation>, after: seq<HardLocation>, m: map<nat, HardLocation>, removed: seq<nat>)
    requires Aligned(before, m) && Ids(after) == Sorting.Filter(Ids(before), MergeLaws.Alive(removed))
    ensures Aligned(after, DropAll(m, removed))
  {
    hide DropAll, Sorting.Filter;
    Sorting.FilterMembers(Ids(before), MergeLaws.Alive(removed));
    forall x | 0 <= x < |after| ensures after[x].id in DropAll(m, removed) {
      assert after[x].id == Ids(after)[x] && Ids(after)[x] in Ids(after);
      InBefore(before, m, after[x].id);
      DropAllIn(m, removed, after[x].id);
    }
    forall id | id in DropAll(m, removed) ensures id in Ids(after) {
      DropAllIn(m, removed, id);
      assert MergeLaws.Alive(removed)(id);
    }
  }

  lemma InBefore(before: seq<HardLocation>, m: map<nat, HardLocation>, id: nat)
    requires Aligned(before, m) && id in Ids(before)
    ensures id in m
  {
    var x :| 0 <= x < |before| && Ids(before)[x] == id;
    assert before[x].id == id;
  }

  lemma {:induction false} MovedPostingsOnly(d: Disk, chain: seq<(nat, nat)>)
    ensures MovedAlong(d, chain) == d.(postings := MovedAlong(d, chain).postings)
  {
    if chain != [] {
      MovedPostingsOnly(d, chain[..|chain| - 1]);
    }
  }

  // ----- merge

  /** A merge keeps the invariant and every document, and leaves what a reload would
      rebuild as it was when it merges nothing. */
  lemma MergedKeeps(o: Oracles, w: World)
    requires Inv(o, w) && w.valid
    ensures Inv(o, MergedWorld(o, w)) && Docs(MergedWorld(o, w).disk) == Docs(w.disk)
    ensures Merge.Merged(o, w.live.config, w.live.locations).removed == [] && InStep(w) ==> InStep(MergedWorld(o, w))
  {
    hide Merge.Merged, Materialized, Rebuilt, LiveOK, Docs, MovedAlong, Aligned, Mirrors, DropAll, Keyed, RefsAgree, RefsStored;
    var r := Merge.Merged(o, w.live.config, w.live.locations);
    var d := Materialized(w.live, w.disk);
    MaterializeKeeps(o, w);
    WithoutRefs(d, MergedWorld(o, w).disk, w.live.config, MergedWorld(o, w).live.locations) by {
      MovedPostingsOnly(d, r.chain);
    }
    if r.removed == [] {
      QuietMerge(o, w.live.config, w.live.locations);
      assert w.live.(locations := r.locations) == w.live;
    } else {
      MovedPostingsOnly(d, r.chain);
      MergeChain(o, w.live);
      MergeKeepsLive(o, w.live);
      RebuildLeavesTheRest(o, w.live.(locations := r.locations));
      DroppedAligned(w.live.locations, r.locations, w.disk.locations, r.removed);
      DropAllKeyed(w.disk.locations, r.removed, w.live.config.d, w.live.nextId);
    }
  }

  lemma MergeChain(o: Oracles, v: Live)
    requires LiveOK(o, v)
    ensures var r := Merge.Merged(o, v.config, v.locations);
      Ids(r.locations) == Sorting.Filter(Ids(v.locations), MergeLaws.Alive(r.removed))
  {
    hide Merge.Merged, CachesRight;
    MergeLaws.MergeIsChained(o, v.config, v.locations);
  }

  /** Survivors of a merge are not stored: the collection agrees with a reload after it
      exactly when each of them is, unchanged, a location from before. */
  lemma SurvivorsAreStale(o: Oracles, w: World)
    requires Inv(o, w) && w.valid && InStep(w)
    ensures var r := Merge.Merged(o, w.live.config, w.live.locations);
      InStep(MergedWorld(o, w)) <==> forall x | 0 <= x < |r.locations| :: r.locations[x] in w.live.locations
  {
    hide Merge.Merged, Materialized, Rebuilt, LiveOK, Docs, MovedAlong, Keyed, RefsAgree, RefsStored, DropAll, Mirrors,
      Aligned, Distinct, Sorting.Filter;
    var r := Merge.Merged(o, w.live.config, w.live.locations);
    MaterializeKeeps(o, w);
    if r.removed == [] {
      QuietMerge(o, w.live.config, w.live.locations);
      assert forall x | 0 <= x < |r.locations| :: r.locations[x] in w.live.locations;
    } else {
      MovedPostingsOnly(Materialized(w.live, w.disk), r.chain);
      RebuildLeavesTheRest(o, w.live.(locations := r.locations));
      MergeChain(o, w.live);
      DroppedMirrors(w.live.locations, r.locations, w.disk.locations, r.removed);
    }
  }

  /** With the stored locations left alone, memory and store stay the same exactly when
      the locations in memory do. */
  lemma DroppedMirrors(before: seq<HardLocation>, after: seq<HardLocation>, m: map<nat, HardLocation>, removed: seq<nat>)
    requires Mirrors(before, m) && Ids(after) == Sorting.Filter(Ids(before), MergeLaws.Alive(removed))
    ensures Mirrors(after, DropAll(m, removed)) <==> forall x | 0 <= x < |after| :: after[x] in before
  {
    hide DropAll, Sorting.Filter;
    MirrorsAligned(before, m);
    DroppedAligned(before, after, m, removed);
    forall x | 0 <= x < |after|
      ensures after[x] in before <==> DropAll(m, removed)[after[x].id] == after[x]
    {
      DropAllIn(m, removed, after[x].id);
      MirroredIsLive(before, m, after[x].id);
    }
  }

  lemma MirroredIsLive(locs: seq<HardLocation>, m: map<nat, HardLocation>, id: nat)
    requires Mirrors(locs, m) && id in m
    ensures m[id] in locs
  {
    assert id in Ids(locs);
    var x :| 0 <= x < |locs| && Ids(locs)[x] == id;
    assert m[locs[x].id] == locs[x];
  }

  lemma RebuildLeavesTheRest(o: Oracles, v: Live)
    ensures var r := Rebuilt(o, v);
      r.locations == v.locations && r.config == v.config && r.nextId == v.nextId && r.eta == v.eta && r.docNextId == v.docNextId
  {
    hide BuiltLookup, Landmarks, MaxNormOf;
  }

  // ----- compress and flush

  /** Storing every live location brings the store in step. */
  lemma {:induction false} PutAllMirrors(m: map<nat, HardLocation>, locs: seq<HardLocation>)
    requires Distinct(Ids(locs)) && forall id | id in m :: id in Ids(locs)
    ensures Mirrors(locs, PutAll(m, locs))
  {
    var after := PutAll(m, locs);
    forall x | 0 <= x < |locs| ensures locs[x].id in after && after[locs[x].id] == locs[x] {
      assert forall y | 0 <= y < |locs| :: Ids(locs)[y] == locs[y].id;
      PutAllAt(m, locs, locs[x]);
    }
    forall id | id in after ensures id in Ids(locs) {
      if id !in Ids(locs) {
        assert forall y | 0 <= y < |locs| :: Ids(locs)[y] == locs[y].id;
        PutAllElsewhere(m, locs, id);
      }
    }
  }

  lemma MirrorsAligned(locs: seq<HardLocation>, m: map<nat, HardLocation>)
    requires Mirrors(locs, m)
    ensures Aligned(locs, m)
  {
  }

  lemma RetiringPart(d: Disk, removed: nat, survivor: nat)
    ensures var e := Retiring(d, removed, survivor); e == d.(postings := e.postings, locations := d.locations - {removed})
  {
    var moved := Moving(d, removed, survivor);
    assert [removed][..0] == [];
    assert DropAll(moved.locations, [removed]) == DropAll(moved.locations, []) - {removed};
  }

  lemma DropNext(m: map<nat, HardLocation>, ids: seq<nat>, n: nat)
    requires n < |ids|
    ensures DropAll(m, ids[..n + 1]) == DropAll(m, ids[..n]) - {ids[n]}
  {
    assert ids[..n + 1][..n] == ids[..n];
  }

  lemma {:induction false} RetiredPart(d: Disk, chain: seq<(nat, nat)>, n: nat)
    requires n <= |chain|
    ensures var e := Retired(d, chain, n);
      e == d.(postings := e.postings, locations := DropAll(d.locations, CompressLaws.RemovedOf(chain)[..n]))
  {
    hide CompressLaws.Resolve, DropAll, Retiring;
    if n == 0 {
      assert CompressLaws.RemovedOf(chain)[..0] == [];
      NothingDropped(d.locations);
    } else {
      RetiredPart(d, chain, n - 1);
      RetiringPart(Retired(d, chain, n - 1), chain[n - 1].0, CompressLaws.Resolve(chain, chain[n - 1].0));
      DropNext(d.locations, CompressLaws.RemovedOf(chain), n - 1);
    }
  }

  lemma NothingDropped(m: map<nat, HardLocation>)
    ensures DropAll(m, []) == m
  {
  }

  lemma CompressedFacts(o: Oracles, v: Live, kappa: real, costWeight: real, w: real)
    requires LiveOK(o, v)
    ensures var r := Compress.Compressed(o, kappa, costWeight, w, v.locations);
      && Distinct(Ids(r.locations)) && Sized(r.locations, v.config.d) && Below(r.locations, v.nextId)
      && Ids(r.locations) == Sorting.Filter(Ids(v.locations), MergeLaws.Alive(CompressLaws.RemovedOf(r.chain)))
  {
    hide Compress.Compressed, CachesRight, Distinct, Sorting.Filter;
    var r := Compress.Compressed(o, kappa, costWeight, w, v.locations);
    CompressLaws.CompressIsChained(o, kappa, costWeight, w, v.locations);
    CompressedSized(o, kappa, costWeight, w, v.locations, v.config.d);
    FilteredLocations(v.locations, r.locations, MergeLaws.Alive(CompressLaws.RemovedOf(r.chain)), v.nextId);
  }

  /** The locations stored by a compression that merged something. */
  lemma CompressStores(o: Oracles, w: World, kappa: real, costWeight: real)
    requires Inv(o, w) && w.valid
    ensures var r := Compress.Compressed(o, kappa, costWeight, TotalWrites(w.live.locations), w.live.locations);
      var m := PutAll(DropAll(w.disk.locations, CompressLaws.RemovedOf(r.chain)), r.locations);
      Mirrors(r.locations, m) && Aligned(r.locations, m) && Keyed(m, w.live.config.d, w.live.nextId)
  {
    hide Compress.Compressed, LiveOK, DropAll, PutAll, Keyed, Mirrors, Distinct, Sorting.Filter, RefsAgree, RefsStored,
      TotalWrites;
    var total := TotalWrites(w.live.locations);
    var r := Compress.Compressed(o, kappa, costWeight, total, w.live.locations);
    var removed := CompressLaws.RemovedOf(r.chain);
    CompressedFacts(o, w.live, kappa, costWeight, total);
    DroppedAligned(w.live.locations, r.locations, w.disk.locations, removed);
    PutAllMirrors(DropAll(w.disk.locations, removed), r.locations);
    MirrorsAligned(r.locations, PutAll(DropAll(w.disk.locations, removed), r.locations));
    DropAllKeyed(w.disk.locations, removed, w.live.config.d, w.live.nextId);
    PutAllKeyed(DropAll(w.disk.locations, removed), r.locations, w.live.config.d, w.live.nextId);
  }

  /** Compression keeps the invariant, what a reload would rebuild and every document;
      one that merges anything brings the store in step, whatever was stale. */
  lemma CompressedKeeps(o: Oracles, w: World, kappa: real, costWeight: real)
    requires Inv(o, w) && w.valid
    ensures var n := CompressedWorld(o, w, kappa, costWeight);
      && Inv(o, n) && Docs(n.disk) == Docs(w.disk)
      && (InStep(w) || Compress.Compressed(o, kappa, costWeight, TotalWrites(w.live.locations), w.live.locations).chain != []
          ==> InStep(n))
  {
    hide Compress.Compressed, Materialized, Rebuilt, LiveOK, Docs, Retired, Aligned, Mirrors, DropAll, PutAll, Keyed, RefsAgree,
      RefsStored, TotalWrites;
    var total := TotalWrites(w.live.locations);
    var r := Compress.Compressed(o, kappa, costWeight, total, w.live.locations);
    var d := Materialized(w.live, w.disk);
    MaterializeKeeps(o, w);
    RetiredPart(d, r.chain, |r.chain|);
    var n := CompressedWorld(o, w, kappa, costWeight);
    WithoutRefs(d, n.disk, w.live.config, n.live.locations);
    if r.chain != [] {
      assert CompressLaws.RemovedOf(r.chain)[..|r.chain|] == CompressLaws.RemovedOf(r.chain);
      CompressStores(o, w, kappa, costWeight);
      CompressKeepsLive(o, w.live, kappa, costWeight, total);
      RebuildLeavesTheRest(o, w.live.(locations := r.locations));
    }
  }

  /** A flush brings the store in step, whatever was stale. */
  lemma FlushedKeeps(o: Oracles, w: World)
    requires Inv(o, w) && w.valid
    ensures Inv(o, Flushed(w)) && InStep(Flushed(w)) && Docs(Flushed(w).disk) == Docs(w.disk)
  {
    hide PutAll, Keyed, Mirrors, CachesRight, Distinct, Docs;
    var (locs, m) := (w.live.locations, w.disk.locations);
    PutAllMirrors(m, locs);
    MirrorsAligned(locs, PutAll(m, locs));
    PutAllKeyed(m, locs, w.live.config.d, w.live.nextId);
    FlushedRefs(locs, w.disk);
    DocsKept(w.disk, WithLocations(w.disk, locs));
    CountersDoNotMatter(WithLocations(w.disk, locs), w.live.nextId, Some(w.live.eta), None);
  }

  lemma FlushedRefs(locs: seq<HardLocation>, d: Disk)
    requires Aligned(locs, d.locations) && RefsAgree(locs, d) && Mirrors(locs, PutAll(d.locations, locs))
    ensures RefsKept(d, PutAll(d.locations, locs)) && RefsAgree(locs, WithLocations(d, locs))
  {
    hide PutAll;
    var m := PutAll(d.locations, locs);
    forall doc | doc in d.documents && d.documents[doc].ByLocation? && d.documents[doc].location in d.locations
      ensures var l := d.documents[doc].location; l in m && m[l].address == d.locations[l].address
    {
      var l := d.documents[doc].location;
      assert l in Ids(locs);
      var x :| 0 <= x < |locs| && Ids(locs)[x] == l;
      assert locs[x].id == l;
    }
  }

  // ----- delete_document

  /** A deletion removes exactly its document. */
  lemma DeletedKeeps(o: Oracles, w: World, doc: nat)
    requires Inv(o, w)
    ensures Inv(o, Deleted(w, doc)) && Docs(Deleted(w, doc).disk) == Docs(w.disk) - {doc}
    ensures w.valid && InStep(w) ==> InStep(Deleted(w, doc))
  {
    hide LiveOK, Keyed, Aligned, Mirrors, Scrubbed;
  }

  // ----- load_snapshot_checked

  lemma AllDropped(locs: seq<HardLocation>, m: map<nat, HardLocation>)
    requires Aligned(locs, m)
    ensures DropAll(m, Ids(locs)) == map[]
  {
    hide DropAll;
    forall id | id in DropAll(m, Ids(locs)) ensures false {
      DropAllIn(m, Ids(locs), id);
    }
  }

  /** A loaded snapshot with distinct ids is in step with the store, whatever was
      stale, and leaves every document. */
  lemma SnapshotKeeps(o: Oracles, w: World, locs: seq<HardLocation>, c: Config)
    requires Inv(o, w) && w.valid && Sized(locs, c.d) && Distinct(Ids(locs))
    ensures var n := SnapshotLoaded(o, w, locs, c);
      Inv(o, n) && InStep(n) && Docs(n.disk) == Docs(w.disk) && n.live.locations == locs && n.live.config == c
  {
    hide Materialized, Rebuilt, LiveOK, Docs, Aligned, Mirrors, DropAll, PutAll, Keyed, RefsAgree, RefsStored, Distinct;
    var d := Materialized(w.live, w.disk);
    var n := SnapshotLoaded(o, w, locs, c);
    var nextId := if locs == [] then 0 else MaxId(locs) + 1;
    MaterializeKeeps(o, w);
    WithoutRefs(d, n.disk, c, locs);
    AllDropped(w.live.locations, w.disk.locations);
    PutAllMirrors(map[], locs);
    MirrorsAligned(locs, PutAll(map[], locs));
    EmptyKeyed(c.d, nextId);
    PutAllKeyed(map[], locs, c.d, nextId);
    var v := w.live.(locations := locs, config := c, nextId := nextId);
    RebuildKeepsLive(o, v);
    RebuildLeavesTheRest(o, v);
  }

  lemma EmptyKeyed(d: nat, nextId: nat)
    ensures Keyed(map[], d, nextId)
  {
  }

  /** Exactly when locations that share an id are the same does a loaded snapshot
      agree with the store. */
  lemma SnapshotInStep(o: Oracles, w: World, locs: seq<HardLocation>, c: Config)
    requires Inv(o, w) && w.valid
    ensures InStep(SnapshotLoaded(o, w, locs, c))
       <==> forall x, y | 0 <= x < |locs| && 0 <= y < |locs| && locs[x].id == locs[y].id :: locs[x] == locs[y]
  {
    hide Materialized, Rebuilt, LiveOK, Docs, DropAll, PutAll, Keyed, RefsAgree, RefsStored, Distinct;
    MaterializeKeeps(o, w);
    AllDropped(w.live.locations, w.disk.locations);
    RebuildLeavesTheRest(o, w.live.(locations := locs, config := c, nextId := if locs == [] then 0 else MaxId(locs) + 1));
    PutAllInStep(locs);
  }

  lemma PutAllInStep(locs: seq<HardLocation>)
    ensures Mirrors(locs, PutAll(map[], locs))
       <==> forall x, y | 0 <= x < |locs| && 0 <= y < |locs| && locs[x].id == locs[y].id :: locs[x] == locs[y]
  {
    hide PutAll;
    if forall x, y | 0 <= x < |locs| && 0 <= y < |locs| && locs[x].id == locs[y].id :: locs[x] == locs[y] {
      forall x | 0 <= x < |locs|
        ensures locs[x].id in PutAll(map[], locs) && PutAll(map[], locs)[locs[x].id] == locs[x]
      {
        PutAllAt(map[], locs, locs[x]);
      }
      forall id | id in PutAll(map[], locs) ensures id in Ids(locs) {
        if id !in Ids(locs) {
          assert forall y | 0 <= y < |locs| :: Ids(locs)[y] == locs[y].id;
          PutAllElsewhere(map[], locs, id);
        }
      }
    }
  }

  // ----- reloading

  lemma ListedFacts(m: map<nat, HardLocation>, keys: seq<nat>, locs: seq<HardLocation>, d: nat, nextId: nat)
    requires Keyed(m, d, nextId) && Listed(m, keys, locs)
    ensures Mirrors(locs, m) && Distinct(Ids(locs)) && Sized(locs, d) && Below(locs, nextId)
  {
    assert forall x | 0 <= x < |locs| :: locs[x].id == keys[x];
    assert Ids(locs) == keys;
  }

  /** What a reload rebuilds is in order and in step with the store. */
  lemma ReloadKeeps(o: Oracles, c: Config, d: Disk, v: Live, version: nat)
    requires DiskOK(c, d) && Reloaded(o, c, d, v)
    ensures Inv(o, World(v, d, true, version)) && InStep(World(v, d, true, version)) && v.config == c
  {
    hide Listed, Rebuilt, LiveOK, Keyed, Mirrors, Distinct;
    var keys, locs :| Listed(d.locations, keys, locs) && v == LoadedFrom(o, c, d, locs);
    ListedFacts(d.locations, keys, locs, c.d, d.nextId.value);
    MirrorsAligned(locs, d.locations);
    var loaded := Live(c, locs, d.nextId.value, d.eta.value, DocNext(d), [], 0, [], [], [], 0.0);
    RebuildKeepsLive(o, loaded);
    RebuildLeavesTheRest(o, loaded);
    MirroredRefs(locs, d);
  }

  lemma MirroredRefs(locs: seq<HardLocation>, d: Disk)
    requires Mirrors(locs, d.locations)
    ensures RefsAgree(locs, d)
  {
  }

  /** A failed operation keeps the invariant and every document; a reload leaves the
      collection in step with the store. */
  lemma FailedKeeps(o: Oracles, w: World, d: Disk, dirty: bool, version: nat, n: World)
    requires Inv(o, w) && w.valid && Failed(o, w, d, dirty, version, n)
    requires d == w.disk || d == Materialized(w.live, w.disk)
    ensures Inv(o, n) && Docs(n.disk) == Docs(w.disk)
    ensures n.valid && (dirty || InStep(w)) ==> InStep(n)
  {
    hide LiveOK, Keyed, Reloaded, Aligned, Mirrors, Docs, Materialized, RefsAgree, RefsStored;
    MaterializeKeeps(o, w);
    if d != w.disk {
      WithoutRefs(d, d, w.live.config, w.live.locations);
    }
    assert DiskOK(w.live.config, d);
    if dirty && n.valid {
      ReloadKeeps(o, w.live.config, d, n.live, n.version);
    }
  }
}
