/** Which posting lists hold a document: those of the locations it was written to, and
    after merges and compressions those of the locations these ended up in. */
module Lists {
  import opened Wrappers
  import opened Vectors
  import opened Locations
  import opened Live
  import opened LiveLaws
  import opened Store
  import opened Write
  import opened WriteLaws
  import opened Steps
  import opened Consistency
  import opened Documents
  import opened Upkeep
  import opened Postings
  import CompressLaws
  import Compress
  import Merge
  import MergeLaws
  import Rehoming

  // ----- a document write

  lemma {:induction false} IndexingAt(d: Disk, locations: seq<nat>, doc: nat, l: nat, x: nat)
    ensures x in Posting(Indexing(d, locations, doc), l) <==> x in Posting(d, l) || (x == doc && l in locations)
  {
    if locations != [] {
      var (init, last) := (locations[..|locations| - 1], locations[|locations| - 1]);
      assert locations == init + [last];
      IndexingAt(d, init, doc, l, x);
    }
  }

  /** The location at index x of what a write leaves was joined or created by it. */
  ghost predicate TouchedAt(out: Outcome, x: nat) {
    x in out.modified || |out.locations| <= x < |After(out)|
  }

  lemma UnderTouched(out: Outcome, l: nat)
    requires forall t | 0 <= t < |out.modified| :: out.modified[t] < |out.locations|
    ensures l in IndexedUnder(out) <==> exists x :: 0 <= x < |After(out)| && TouchedAt(out, x) && After(out)[x].id == l
  {
    var under := IndexedUnder(out);
    if l in under {
      var t :| 0 <= t < |under| && under[t] == l;
      var x := if t < |out.modified| then out.modified[t] else |out.locations| + t - |out.modified|;
      assert TouchedAt(out, x) && After(out)[x].id == l;
    }
    if exists x :: 0 <= x < |After(out)| && TouchedAt(out, x) && After(out)[x].id == l {
      var x :| 0 <= x < |After(out)| && TouchedAt(out, x) && After(out)[x].id == l;
      if x in out.modified {
        var t :| 0 <= t < |out.modified| && out.modified[t] == x;
        assert under[t] == l;
      } else {
        assert under[|out.modified| + x - |out.locations|] == l;
      }
    }
  }

  /** A document write adds its document to the list of every location it joined or
      created and to no other list, and changes nothing else of any list. */
  lemma WrittenUnder(o: Oracles, w: World, it: DocumentItem, l: nat, x: nat)
    requires Sound(o) && Inv(o, w) && w.valid && |it.input| == w.live.config.d
    ensures HasRows(w.live) && InBounds(w.live, OutcomeAt(o, w.live, PlainItem(it)))
    ensures x in Posting(WroteDocument(o, w, it).disk, l) <==>
      || x in Posting(w.disk, l)
      || (x == w.live.docNextId
          && exists y :: 0 <= y < |After(OutcomeAt(o, w.live, PlainItem(it)))|
                         && TouchedAt(OutcomeAt(o, w.live, PlainItem(it)), y)
                         && After(OutcomeAt(o, w.live, PlainItem(it)))[y].id == l)
  {
    hide OutcomeAt, StoredBy, LiveOK, TakenOver, DiskOK, Docs, DocumentFor, Indexing, Sound, IndexedUnder, RefsAgree, Aligned,
      TouchedAt;
    var (v, doc) := (w.live, w.live.docNextId);
    var out := OutcomeAt(o, v, PlainItem(it));
    WroteDocumentKeeps(o, w, it);
    OutcomeShape(o, v, PlainItem(it));
    var added := WithDocument(StoredBy(w.disk, out), doc, DocumentFor(v.config, out, it.input, it.metadata));
    StoredPostings(w.disk, out);
    IndexingAt(added, IndexedUnder(out), doc, l, x);
    UnderTouched(out, l);
  }

  lemma StoredPostings(d: Disk, out: Outcome)
    requires forall t | 0 <= t < |out.modified| :: out.modified[t] < |out.locations|
    ensures StoredBy(d, out).postings == d.postings
  {
  }

  // ----- along a chain

  lemma {:induction false} ResolveLast(chain: seq<(nat, nat)>, last: (nat, nat), l: nat)
    ensures CompressLaws.Resolve(chain + [last], l)
         == if CompressLaws.Resolve(chain, l) == last.0 then last.1 else CompressLaws.Resolve(chain, l)
  {
    if chain == [] {
      assert [last][1..] == [];
    } else {
      assert (chain + [last])[1..] == chain[1..] + [last];
      ResolveLast(chain[1..], last, if chain[0].0 == l then chain[0].1 else l);
    }
  }

  lemma MovingAt(d: Disk, removed: nat, survivor: nat, s: nat, x: nat)
    requires removed != survivor
    ensures x in Posting(Moving(d, removed, survivor), s) <==>
      s != removed && (x in Posting(d, s) || (s == survivor && x in Posting(d, removed)))
  {
  }

  /** x was in the list of a location that ends up in s. */
  ghost predicate CameFrom(d: Disk, chain: seq<(nat, nat)>, s: nat, x: nat) {
    exists l :: CompressLaws.Resolve(chain, l) == s && x in Posting(d, l)
  }

  /** Moved along a chain of merges, a list holds what the lists of the locations that end
      up in its own held. */
  lemma {:induction false} MovedLists(d: Disk, chain: seq<(nat, nat)>, s: nat, x: nat)
    requires MergeLaws.Chained(chain)
    ensures x in Posting(MovedAlong(d, chain), s) <==> CameFrom(d, chain, s, x)
  {
    hide Posting, Moving, CompressLaws.Resolve;
    if chain == [] {
      ResolvesNowhere();
    } else {
      var (init, last) := (chain[..|chain| - 1], chain[|chain| - 1]);
      assert chain == init + [last] && last.0 != last.1;
      MovedLists(d, init, s, x);
      MovedLists(d, init, last.0, x);
      MovingAt(MovedAlong(d, init), last.0, last.1, s, x);
      forall l: nat
        ensures CompressLaws.Resolve(chain, l)
             == if CompressLaws.Resolve(init, l) == last.0 then last.1 else CompressLaws.Resolve(init, l)
      {
        ResolveLast(init, last, l);
      }
    }
  }

  lemma ResolvesNowhere()
    ensures forall l: nat :: CompressLaws.Resolve([], l) == l
  {
  }

  /** After a merge a document is listed under a location exactly when it was listed under
      one that ended up in it. */
  lemma MergedLists(o: Oracles, w: World, s: nat, x: nat)
    requires Inv(o, w) && w.valid
    ensures x in Posting(MergedWorld(o, w).disk, s)
       <==> CameFrom(w.disk, Merge.Merged(o, w.live.config, w.live.locations).chain, s, x)
  {
    hide Merge.Merged, Materialized, Rebuilt, MovedAlong, DropAll, CachesRight, DiskOK, CompressLaws.Resolve, RefsAgree, Aligned;
    var r := Merge.Merged(o, w.live.config, w.live.locations);
    var d := Materialized(w.live, w.disk);
    MaterializeKeeps(o, w);
    MergeLaws.MergeIsChained(o, w.live.config, w.live.locations);
    MovedLists(d, r.chain, s, x);
    if r.removed == [] {
      assert MovedAlong(d, r.chain) == d by { NothingMoved(d, r.chain); }
    }
    assert CameFrom(d, r.chain, s, x) <==> CameFrom(w.disk, r.chain, s, x) by { SameLists(d, w.disk, r.chain, s, x); }
  }

  lemma NothingMoved(d: Disk, chain: seq<(nat, nat)>)
    requires chain == []
    ensures MovedAlong(d, chain) == d
  {
  }

  lemma SameLists(d: Disk, e: Disk, chain: seq<(nat, nat)>, s: nat, x: nat)
    requires d.postings == e.postings
    ensures CameFrom(d, chain, s, x) <==> CameFrom(e, chain, s, x)
  {
    hide CompressLaws.Resolve;
    assert forall l :: Posting(d, l) == Posting(e, l);
  }

  // ----- a compression

  /** Where l ends up once the first n removals are retired. */
  ghost function RetiredTo(chain: seq<(nat, nat)>, n: nat, l: nat): nat
    requires n <= |chain|
  {
    if l in CompressLaws.RemovedOf(chain)[..n] then CompressLaws.Resolve(chain, l) else l
  }

  lemma RetiredOnce(chain: seq<(nat, nat)>, n: nat, l: nat)
    requires 0 < n <= |chain| && MergeLaws.Chained(chain)
    ensures var (a, before) := (chain[n - 1].0, RetiredTo(chain, n - 1, l));
      && RetiredTo(chain, n, l) == (if l == a then CompressLaws.Resolve(chain, a) else before)
      && (before == a <==> l == a) && CompressLaws.Resolve(chain, a) != a
  {
    hide CompressLaws.Resolve;
    var removed := CompressLaws.RemovedOf(chain);
    assert removed[..n] == removed[..n - 1] + [chain[n - 1].0];
    CompressLaws.ResolveSurvives(chain, l);
    CompressLaws.ResolveSurvives(chain, chain[n - 1].0);
  }

  ghost predicate RetiredFrom(d: Disk, chain: seq<(nat, nat)>, n: nat, s: nat, x: nat)
    requires n <= |chain|
  {
    exists l :: RetiredTo(chain, n, l) == s && x in Posting(d, l)
  }

  lemma {:induction false} RetiredLists(d: Disk, chain: seq<(nat, nat)>, n: nat, s: nat, x: nat)
    requires MergeLaws.Chained(chain) && n <= |chain|
    ensures x in Posting(Retired(d, chain, n), s) <==> RetiredFrom(d, chain, n, s, x)
  {
    hide Posting, Moving, CompressLaws.Resolve, RetiredTo, Retiring, MergeLaws.Chained;
    if n == 0 {
      NoneRetired(chain);
    } else {
      var a := chain[n - 1].0;
      var survivor := CompressLaws.Resolve(chain, a);
      RetiredLists(d, chain, n - 1, s, x);
      RetiredLists(d, chain, n - 1, a, x);
      forall l: nat
        ensures RetiredTo(chain, n, l) == (if l == a then survivor else RetiredTo(chain, n - 1, l))
        ensures (RetiredTo(chain, n - 1, l) == a <==> l == a) && survivor != a
      {
        RetiredOnce(chain, n, l);
      }
      RetiredOnce(chain, n, a);
      MovingAt(Retired(d, chain, n - 1), a, survivor, s, x);
      RetiringPosts(Retired(d, chain, n - 1), a, survivor, s);
    }
  }

  lemma RetiringPosts(d: Disk, a: nat, survivor: nat, s: nat)
    ensures Posting(Retiring(d, a, survivor), s) == Posting(Moving(d, a, survivor), s)
  {
    RetiringPostings(d, a, survivor);
  }

  lemma NoneRetired(chain: seq<(nat, nat)>)
    ensures forall l: nat :: RetiredTo(chain, 0, l) == l
  {
  }

  /** All retired, a location is where the whole chain leads it. */
  lemma AllRetired(chain: seq<(nat, nat)>, l: nat)
    ensures RetiredTo(chain, |chain|, l) == CompressLaws.Resolve(chain, l)
  {
    hide CompressLaws.Resolve;
    var removed := CompressLaws.RemovedOf(chain);
    assert removed[..|chain|] == removed;
    if l !in removed {
      assert forall t | 0 <= t < |chain| :: chain[t].0 == removed[t];
      Rehoming.ResolveStops(chain, l);
    }
  }

  /** After a compression, the same: listed under a location exactly when listed before
      under one that ended up in it. */
  lemma CompressedLists(o: Oracles, w: World, kappa: real, costWeight: real, s: nat, x: nat)
    requires Inv(o, w) && w.valid
    ensures x in Posting(CompressedWorld(o, w, kappa, costWeight).disk, s)
       <==> CameFrom(w.disk, Compress.Compressed(o, kappa, costWeight, TotalWrites(w.live.locations), w.live.locations).chain, s, x)
  {
    hide Compress.Compressed, Materialized, Rebuilt, Retired, DropAll, PutAll, CachesRight, DiskOK, CompressLaws.Resolve, RefsAgree,
      Aligned, TotalWrites, RetiredTo;
    var total := TotalWrites(w.live.locations);
    var r := Compress.Compressed(o, kappa, costWeight, total, w.live.locations);
    var d := Materialized(w.live, w.disk);
    MaterializeKeeps(o, w);
    CompressLaws.CompressIsChained(o, kappa, costWeight, total, w.live.locations);
    RetiredLists(d, r.chain, |r.chain|, s, x);
    forall l: nat ensures RetiredTo(r.chain, |r.chain|, l) == CompressLaws.Resolve(r.chain, l) {
      AllRetired(r.chain, l);
    }
    SameLists(d, w.disk, r.chain, s, x);
    NothingCompressed(o, w, kappa, costWeight, d, r.chain);
  }

  lemma NothingCompressed(o: Oracles, w: World, kappa: real, costWeight: real, d: Disk, chain: seq<(nat, nat)>)
    requires d == Materialized(w.live, w.disk)
    requires chain == Compress.Compressed(o, kappa, costWeight, TotalWrites(w.live.locations), w.live.locations).chain
    ensures CompressedWorld(o, w, kappa, costWeight).disk.postings == Retired(d, chain, |chain|).postings
  {
    hide Compress.Compressed, Materialized, Rebuilt, PutAll, TotalWrites, Retiring, CompressLaws.Resolve;
  }
}
