/** The document index: every stored document is in some posting list, nothing else
    is, and no list is left on a location that is gone. */
module Postings {
  import opened Wrappers
  import opened Vectors
  import opened Locations
  import opened Live
  import opened LiveLaws
  import opened Store
  import opened Write
  import opened WriteLaws
  import opened Steps
  import opened Consistency
  import opened Documents
  import opened Upkeep
  import Merge
  import MergeLaws
  import Compress
  import CompressLaws
  import Sorting

  ghost predicate Indexed(postings: map<nat, seq<nat>>, doc: nat) {
    exists l :: l in postings && doc in postings[l]
  }

  ghost predicate OnLocations(postings: map<nat, seq<nat>>, m: map<nat, HardLocation>) {
    forall l | l in postings :: l in m
  }

  ghost predicate SameDocuments(documents: map<nat, Document>, postings: map<nat, seq<nat>>) {
    forall doc :: doc in documents <==> Indexed(postings, doc)
  }

  /** The documents named in the posting lists are the stored ones, and every list is
      on a stored location. */
  ghost predicate PostingsRight(d: Disk) {
    OnLocations(d.postings, d.locations) && SameDocuments(d.documents, d.postings)
  }

  // ----- writes

  /** Appending one document to one list. */
  lemma AppendingIndexes(d: Disk, l: nat, doc: nat, x: nat)
    ensures Indexed(Appending(d, l, [doc]).postings, x) <==> Indexed(d.postings, x) || x == doc
  {
    var e := Appending(d, l, [doc]);
    if Indexed(d.postings, x) {
      var k :| k in d.postings && x in d.postings[k];
      assert k in e.postings && x in e.postings[k];
    }
    if x == doc {
      assert l in e.postings && x in e.postings[l];
    }
    if Indexed(e.postings, x) && x != doc {
      var k :| k in e.postings && x in e.postings[k];
      assert k in d.postings && x in d.postings[k];
    }
  }

  lemma {:induction false} IndexingIndexes(d: Disk, locations: seq<nat>, doc: nat, x: nat)
    ensures Indexed(Indexing(d, locations, doc).postings, x)
       <==> Indexed(d.postings, x) || (x == doc && locations != [])
  {
    hide Indexed, Appending;
    if locations != [] {
      var init := locations[..|locations| - 1];
      IndexingIndexes(d, init, doc, x);
      AppendingIndexes(Indexing(d, init, doc), locations[|locations| - 1], doc, x);
    }
  }

  lemma {:induction false} IndexingOn(d: Disk, locations: seq<nat>, doc: nat, m: map<nat, HardLocation>)
    requires OnLocations(d.postings, m) && forall t | 0 <= t < |locations| :: locations[t] in m
    ensures OnLocations(Indexing(d, locations, doc).postings, m)
  {
    if locations != [] {
      IndexingOn(d, locations[..|locations| - 1], doc, m);
    }
  }

  lemma {:induction false} PutAllGrows(m: map<nat, HardLocation>, locs: seq<HardLocation>)
    ensures forall id | id in m :: id in PutAll(m, locs)
  {
    if locs != [] {
      PutAllGrows(m, locs[..|locs| - 1]);
    }
  }

  lemma StoredGrows(d: Disk, out: Outcome)
    requires forall t | 0 <= t < |out.modified| :: out.modified[t] < |out.locations|
    ensures forall id | id in d.locations :: id in StoredBy(d, out).locations
  {
    hide PutAll;
    PutAllGrows(d.locations, Picked(out.locations, out.modified));
    PutAllGrows(PutAll(d.locations, Picked(out.locations, out.modified)), out.created);
  }

  /** A write without a document leaves the index right. */
  lemma WroteIndex(o: Oracles, w: World, it: Item)
    requires Sound(o) && Inv(o, w) && w.valid && |it.address| == |it.counter| == w.live.config.d && PostingsRight(w.disk)
    ensures HasRows(w.live) && InBounds(w.live, OutcomeAt(o, w.live, it)) && PostingsRight(Wrote(o, w, it).disk)
  {
    hide OutcomeAt, StoredBy, LiveOK, TakenOver, Keyed, Aligned, Mirrors, RefsAgree, Sound, RefsKept, Docs, SameDocuments;
    WrittenHalves(o, w.live, w.disk, it);
    StoredGrows(w.disk, OutcomeAt(o, w.live, it));
  }

  /** A document write indexes its document under every location it joined or
      created, of which there is always one. */
  lemma WroteDocumentIndex(o: Oracles, w: World, it: DocumentItem)
    requires Sound(o) && Inv(o, w) && w.valid && |it.input| == w.live.config.d && PostingsRight(w.disk)
    ensures HasRows(w.live) && InBounds(w.live, OutcomeAt(o, w.live, PlainItem(it)))
    ensures PostingsRight(WroteDocument(o, w, it).disk)
    ensures IndexedUnder(OutcomeAt(o, w.live, PlainItem(it))) != []
  {
    hide OutcomeAt, StoredBy, LiveOK, TakenOver, Keyed, Aligned, Mirrors, RefsAgree, RefsKept, Docs, Indexed, DocumentFor,
      Indexing, Sound, IndexedUnder;
    var (v, doc) := (w.live, w.live.docNextId);
    var out := OutcomeAt(o, v, PlainItem(it));
    WrittenHalves(o, v, w.disk, PlainItem(it));
    var stored := StoredBy(w.disk, out);
    StoredGrows(w.disk, out);
    UnderStored(out, stored.locations, v);
    SomethingTouched(o, v, PlainItem(it));
    var added := WithDocument(stored, doc, DocumentFor(v.config, out, it.input, it.metadata));
    IndexingOn(added, IndexedUnder(out), doc, stored.locations);
    IndexingPostingsOnly(added, IndexedUnder(out), doc);
    forall x ensures x in added.documents <==> Indexed(Indexing(added, IndexedUnder(out), doc).postings, x) {
      IndexingIndexes(added, IndexedUnder(out), doc, x);
    }
  }

  lemma SomethingTouched(o: Oracles, v: Live, it: Item)
    requires Sound(o) && InBounds(v, OutcomeAt(o, v, it))
    ensures IndexedUnder(OutcomeAt(o, v, it)) != []
  {
    hide Adaptive;
    WriteFrame(o, InputAt(v, it));
    var out := OutcomeAt(o, v, it);
    assert |IndexedUnder(out)| == |out.modified| + |out.created|;
  }

  lemma UnderStored(out: Outcome, m: map<nat, HardLocation>, v: Live)
    requires WriteShape(v, out) && Aligned(After(out), m)
    ensures forall t | 0 <= t < |IndexedUnder(out)| :: IndexedUnder(out)[t] in m
  {
    var under := IndexedUnder(out);
    forall t | 0 <= t < |under| ensures under[t] in m {
      if t < |out.modified| {
        assert under[t] == After(out)[out.modified[t]].id;
      } else {
        assert under[t] == After(out)[|out.locations| + t - |out.modified|].id;
      }
    }
  }

  // ----- merging

  lemma MovingIndexes(d: Disk, removed: nat, survivor: nat, x: nat)
    requires removed != survivor
    ensures Indexed(Moving(d, removed, survivor).postings, x) <==> Indexed(d.postings, x)
  {
    var e := Moving(d, removed, survivor);
    if Indexed(d.postings, x) {
      var k :| k in d.postings && x in d.postings[k];
      var l := if k == removed then survivor else k;
      assert l in e.postings && x in e.postings[l];
    }
    if Indexed(e.postings, x) {
      var k :| k in e.postings && x in e.postings[k];
      if k in d.postings && x in d.postings[k] {
      } else {
        assert removed in d.postings && x in d.postings[removed];
      }
    }
  }

  lemma {:induction false} MovedIndexes(d: Disk, chain: seq<(nat, nat)>, x: nat)
    requires MergeLaws.Chained(chain)
    ensures Indexed(MovedAlong(d, chain).postings, x) <==> Indexed(d.postings, x)
  {
    hide Indexed, Moving;
    if chain != [] {
      var n := |chain| - 1;
      MovedIndexes(d, chain[..n], x);
      MovingIndexes(MovedAlong(d, chain[..n]), chain[n].0, chain[n].1, x);
    }
  }

  /** No list stays on a removed location, even where its survivor was removed later. */
  lemma {:induction false} MovedOff(d: Disk, chain: seq<(nat, nat)>, m: map<nat, HardLocation>)
    requires MergeLaws.Chained(chain) && OnLocations(d.postings, m)
    requires forall t | 0 <= t < |chain| :: chain[t].1 in m
    ensures OnLocations(MovedAlong(d, chain).postings, m)
    ensures forall t | 0 <= t < |chain| :: chain[t].0 !in MovedAlong(d, chain).postings
  {
    if chain != [] {
      var n := |chain| - 1;
      MovedOff(d, chain[..n], m);
      assert forall t | 0 <= t < n :: chain[..n][t] == chain[t];
    }
  }

  /** A merge leaves the index right. */
  lemma MergedIndex(o: Oracles, w: World)
    requires Inv(o, w) && w.valid && PostingsRight(w.disk)
    ensures PostingsRight(MergedWorld(o, w).disk)
  {
    hide Merge.Merged, Materialized, Rebuilt, MovedAlong, Mirrors, DropAll, Keyed, RefsAgree, RefsStored, Indexed, CachesRight,
      Docs, Sorting.Filter;
    var (v, m) := (w.live, w.disk.locations);
    var r := Merge.Merged(o, v.config, v.locations);
    var d := Materialized(v, w.disk);
    MaterializeKeeps(o, w);
    if r.removed != [] {
      MovedPostingsOnly(d, r.chain);
      MergeLaws.MergeIsChained(o, v.config, v.locations);
      InChain(v.locations, m, r.chain);
      MovedOff(d, r.chain, m);
      OffRemoved(MovedAlong(d, r.chain).postings, m, r.chain, r.removed);
      forall x ensures Indexed(MovedAlong(d, r.chain).postings, x) <==> Indexed(d.postings, x) {
        MovedIndexes(d, r.chain, x);
      }
    }
  }

  lemma InChain(locs: seq<HardLocation>, m: map<nat, HardLocation>, chain: seq<(nat, nat)>)
    requires Aligned(locs, m) && forall t | 0 <= t < |chain| :: chain[t].1 in Ids(locs)
    ensures forall t | 0 <= t < |chain| :: chain[t].1 in m
  {
    forall t | 0 <= t < |chain| ensures chain[t].1 in m {
      InBefore(locs, m, chain[t].1);
    }
  }

  lemma OffRemoved(postings: map<nat, seq<nat>>, m: map<nat, HardLocation>, chain: seq<(nat, nat)>, removed: seq<nat>)
    requires OnLocations(postings, m) && |removed| == |chain| && forall t | 0 <= t < |chain| :: removed[t] == chain[t].0
    requires forall t | 0 <= t < |chain| :: chain[t].0 !in postings
    ensures OnLocations(postings, DropAll(m, removed))
  {
    hide DropAll;
    forall l | l in postings ensures l in DropAll(m, removed) {
      DropAllIn(m, removed, l);
    }
  }

  // ----- compression

  lemma {:induction false} ResolveIn(chain: seq<(nat, nat)>, x: nat, m: map<nat, HardLocation>)
    requires x in m && forall t | 0 <= t < |chain| :: chain[t].1 in m
    ensures CompressLaws.Resolve(chain, x) in m
  {
    if chain != [] {
      assert forall t | 0 <= t < |chain[1..]| :: chain[1..][t] == chain[t + 1];
      ResolveIn(chain[1..], if chain[0].0 == x then chain[0].1 else x, m);
    }
  }

  lemma RetiringPostings(d: Disk, removed: nat, survivor: nat)
    ensures Retiring(d, removed, survivor).postings == Moving(d, removed, survivor).postings
  {
  }

  lemma {:induction false} RetiredOff(d: Disk, chain: seq<(nat, nat)>, n: nat, m: map<nat, HardLocation>)
    requires n <= |chain| && MergeLaws.Chained(chain) && OnLocations(d.postings, m)
    requires forall t | 0 <= t < |chain| :: chain[t].0 in m && chain[t].1 in m
    ensures OnLocations(Retired(d, chain, n).postings, m)
    ensures forall t | 0 <= t < n :: chain[t].0 !in Retired(d, chain, n).postings
  {
    hide CompressLaws.Resolve, Retiring;
    if n > 0 {
      RetiredOff(d, chain, n - 1, m);
      var survivor := CompressLaws.Resolve(chain, chain[n - 1].0);
      CompressLaws.ResolveSurvives(chain, chain[n - 1].0);
      ResolveIn(chain, chain[n - 1].0, m);
      RetiringPostings(Retired(d, chain, n - 1), chain[n - 1].0, survivor);
    }
  }

  lemma {:induction false} RetiredIndexes(d: Disk, chain: seq<(nat, nat)>, n: nat, x: nat)
    requires n <= |chain| && MergeLaws.Chained(chain)
    ensures Indexed(Retired(d, chain, n).postings, x) <==> Indexed(d.postings, x)
  {
    hide CompressLaws.Resolve, Retiring, Moving, Indexed;
    if n > 0 {
      RetiredIndexes(d, chain, n - 1, x);
      var survivor := CompressLaws.Resolve(chain, chain[n - 1].0);
      CompressLaws.ResolveSurvives(chain, chain[n - 1].0);
      RetiringPostings(Retired(d, chain, n - 1), chain[n - 1].0, survivor);
      MovingIndexes(Retired(d, chain, n - 1), chain[n - 1].0, survivor, x);
    }
  }

  /** A compression leaves the index right, each removed location resolved through
      the whole chain to a survivor. */
  lemma CompressedIndex(o: Oracles, w: World, kappa: real, costWeight: real)
    requires Inv(o, w) && w.valid && PostingsRight(w.disk)
    ensures PostingsRight(CompressedWorld(o, w, kappa, costWeight).disk)
  {
    hide Compress.Compressed, Materialized, Rebuilt, Retired, Mirrors, DropAll, PutAll, Keyed, RefsAgree, RefsStored, TotalWrites,
      Indexed, CachesRight, Docs, Sorting.Filter;
    var (v, m, total) := (w.live, w.disk.locations, TotalWrites(w.live.locations));
    var r := Compress.Compressed(o, kappa, costWeight, total, v.locations);
    var (d, n) := (Materialized(v, w.disk), |r.chain|);
    MaterializeKeeps(o, w);
    if r.chain != [] {
      CompressLaws.CompressIsChained(o, kappa, costWeight, total, v.locations);
      var removed := CompressLaws.RemovedOf(r.chain);
      RetiredPart(d, r.chain, n);
      assert removed[..n] == removed;
      InChain(v.locations, m, r.chain);
      RemovedInChain(v.locations, m, r.chain);
      RetiredOff(d, r.chain, n, m);
      OffRemoved(Retired(d, r.chain, n).postings, m, r.chain, removed);
      PutAllGrows(DropAll(m, removed), r.locations);
      forall x ensures Indexed(Retired(d, r.chain, n).postings, x) <==> Indexed(d.postings, x) {
        RetiredIndexes(d, r.chain, n, x);
      }
    }
  }

  lemma RemovedInChain(locs: seq<HardLocation>, m: map<nat, HardLocation>, chain: seq<(nat, nat)>)
    requires Aligned(locs, m) && forall t | 0 <= t < |chain| :: chain[t].0 in Ids(locs)
    ensures forall t | 0 <= t < |chain| :: chain[t].0 in m
  {
    forall t | 0 <= t < |chain| ensures chain[t].0 in m {
      InBefore(locs, m, chain[t].0);
    }
  }

  // ----- the rest

  lemma FlushedIndex(w: World)
    requires PostingsRight(w.disk)
    ensures PostingsRight(Flushed(w).disk)
  {
    hide PutAll, SameDocuments;
    PutAllGrows(w.disk.locations, w.live.locations);
  }

  /** What is left of one list. */
  lemma ScrubbedHas(postings: map<nat, seq<nat>>, doc: nat, l: nat, x: nat)
    ensures l in Scrubbed(postings, doc) && x in Scrubbed(postings, doc)[l]
       <==> l in postings && x in postings[l] && x != doc
  {
    hide Sorting.Filter;
    if l in postings {
      Sorting.FilterMembers(postings[l], Others(doc));
    }
  }

  lemma ScrubbedIndexes(postings: map<nat, seq<nat>>, doc: nat, x: nat)
    ensures Indexed(Scrubbed(postings, doc), x) <==> Indexed(postings, x) && x != doc
  {
    hide Scrubbed;
    if Indexed(postings, x) && x != doc {
      var l :| l in postings && x in postings[l];
      ScrubbedHas(postings, doc, l, x);
    }
    if Indexed(Scrubbed(postings, doc), x) {
      var l :| l in Scrubbed(postings, doc) && x in Scrubbed(postings, doc)[l];
      ScrubbedHas(postings, doc, l, x);
    }
  }

  /** A deletion takes its document out of every list. */
  lemma DeletedIndex(w: World, doc: nat)
    requires PostingsRight(w.disk)
    ensures PostingsRight(Deleted(w, doc).disk)
  {
    hide Indexed;
    forall x ensures Indexed(Scrubbed(w.disk.postings, doc), x) <==> Indexed(w.disk.postings, x) && x != doc {
      ScrubbedIndexes(w.disk.postings, doc, x);
    }
  }

  lemma FailedIndex(o: Oracles, w: World, d: Disk, dirty: bool, version: nat, n: World)
    requires Inv(o, w) && w.valid && Failed(o, w, d, dirty, version, n) && PostingsRight(w.disk)
    requires d == w.disk || d == Materialized(w.live, w.disk)
    ensures PostingsRight(n.disk)
  {
    hide LiveOK, Inv, Reloaded, Docs, Materialized, Indexed;
    MaterializeKeeps(o, w);
  }

  // ----- load_snapshot_checked

  lemma {:induction false} PutAllHas(m: map<nat, HardLocation>, locs: seq<HardLocation>, id: nat)
    ensures id in PutAll(m, locs) <==> id in m || id in Ids(locs)
  {
    if locs != [] {
      var n := |locs| - 1;
      PutAllHas(m, locs[..n], id);
      assert Ids(locs) == Ids(locs[..n]) + [locs[n].id];
    }
  }

  /** A snapshot replaces the locations and leaves the posting lists: the index stays
      right exactly when every location that has a list is in the snapshot. */
  lemma SnapshotIndex(o: Oracles, w: World, locs: seq<HardLocation>, c: Config)
    requires Inv(o, w) && w.valid && PostingsRight(w.disk)
    ensures PostingsRight(SnapshotLoaded(o, w, locs, c).disk) <==> forall l | l in w.disk.postings :: l in Ids(locs)
  {
    hide Materialized, Rebuilt, LiveOK, Docs, DropAll, PutAll, Keyed, RefsAgree, RefsStored, Indexed, Mirrors;
    MaterializeKeeps(o, w);
    AllDropped(w.live.locations, w.disk.locations);
    forall id ensures id in PutAll(map[], locs) <==> id in Ids(locs) {
      PutAllHas(map[], locs, id);
    }
  }

  /** In a collection with a document, the empty snapshot leaves a list on a location
      that is gone. */
  lemma EmptySnapshotStrands(o: Oracles, w: World, doc: nat, c: Config)
    requires Inv(o, w) && w.valid && PostingsRight(w.disk) && doc in w.disk.documents
    ensures !PostingsRight(SnapshotLoaded(o, w, [], c).disk)
  {
    hide LiveOK, SnapshotLoaded, DiskOK, RefsAgree, Aligned;
    SnapshotIndex(o, w, [], c);
    var l :| l in w.disk.postings && doc in w.disk.postings[l];
    assert l !in Ids([]);
  }

  /** So does one loaded right after a document is written. */
  lemma WriteThenSnapshot(o: Oracles, w: World, it: DocumentItem, c: Config)
    requires Sound(o) && Inv(o, w) && w.valid && |it.input| == w.live.config.d && PostingsRight(w.disk)
    ensures HasRows(w.live) && InBounds(w.live, OutcomeAt(o, w.live, PlainItem(it)))
    ensures !PostingsRight(SnapshotLoaded(o, WroteDocument(o, w, it), [], c).disk)
  {
    hide LiveOK, OutcomeAt, SnapshotLoaded, Sound, DiskOK, RefsAgree, Aligned, SameDocuments, StoredBy, TakenOver, DocumentFor,
      Indexing, Inv, OnLocations;
    WroteDocumentKeeps(o, w, it);
    WroteDocumentIndex(o, w, it);
    assert w.live.docNextId in Docs(WroteDocument(o, w, it).disk);
    EmptySnapshotStrands(o, WroteDocument(o, w, it), w.live.docNextId, c);
  }
}
