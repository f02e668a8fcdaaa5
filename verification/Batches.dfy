/** `write_batch_with_metadata` does what its items would do one by one; `write_batch`
    does not, and when it does. */
module Batches {
  import opened Wrappers
  import opened Vectors
  import opened Locations
  import opened Live
  import opened LiveLaws
  import opened Store
  import opened Write
  import opened WriteLaws
  import opened Steps
  import opened Consistency
  import opened Documents
  import opened Postings

  ghost predicate Fits(c: Config, items: seq<DocumentItem>) {
    forall t | 0 <= t < |items| :: |items[t].input| == c.d
  }

  // ----- one by one

  /** `write_with_metadata` for each item in turn, every one succeeding. */
  ghost function InTurn(o: Oracles, w: World, items: seq<DocumentItem>): (r: World)
    requires Sound(o) && Inv(o, w) && w.valid && Fits(w.live.config, items)
    ensures Inv(o, r) && r.valid && r.live.config == w.live.config
  {
    if items == [] then w
    else
      var before := InTurn(o, w, items[..|items| - 1]);
      var it := items[|items| - 1];
      WroteDocumentKeeps(o, before, it);
      ConfigStays(o, before, it);
      WroteDocument(o, before, it)
  }

  lemma ConfigStays(o: Oracles, w: World, it: DocumentItem)
    requires Sound(o) && Inv(o, w) && w.valid && |it.input| == w.live.config.d
    requires HasRows(w.live) && InBounds(w.live, OutcomeAt(o, w.live, PlainItem(it)))
    ensures WroteDocument(o, w, it).live.config == w.live.config && WroteDocument(o, w, it).valid
  {
    hide OutcomeAt, TakenOver, LiveOK, Sound;
    WriteKeepsLive(o, w.live, PlainItem(it));
  }

  // ----- gathered

  /** What the batch keeps while it goes through its items. */
  datatype Gathered = Gathered(live: Live, touched: set<nat>, postings: map<nat, seq<nat>>, documents: seq<(nat, Document)>)

  /** One more document for each of these locations. */
  function Pushed(postings: map<nat, seq<nat>>, locations: seq<nat>, doc: nat): map<nat, seq<nat>> {
    if locations == [] then postings
    else
      var before := Pushed(postings, locations[..|locations| - 1], doc);
      var l := locations[|locations| - 1];
      before[l := (if l in before then before[l] else []) + [doc]]
  }

  predicate Between(a: nat, x: nat, b: nat) {
    a <= x < b
  }

  ghost function Range(a: nat, b: nat): set<nat> {
    set x: nat | x < b && Between(a, x, b)
  }

  /** The touched indices, with those a write joined and those it created. */
  ghost function NowTouched(touched: set<nat>, out: Outcome): set<nat> {
    touched + (set t | 0 <= t < |out.modified| :: out.modified[t]) + Range(|out.locations|, |out.locations| + |out.created|)
  }

  ghost function Gather(o: Oracles, v: Live, items: seq<DocumentItem>): (r: Gathered)
    requires Sound(o) && LiveOK(o, v) && Fits(v.config, items)
    ensures LiveOK(o, r.live) && r.live.config == v.config
  {
    if items == [] then Gathered(v, {}, map[], [])
    else
      var g := Gather(o, v, items[..|items| - 1]);
      var it := items[|items| - 1];
      GatherStep(o, g.live, it);
      Gathering(o, g, it)
  }

  ghost function Gathering(o: Oracles, g: Gathered, it: DocumentItem): Gathered
    requires Sound(o) && HasRows(g.live) && InBounds(g.live, OutcomeAt(o, g.live, PlainItem(it)))
  {
    var out := OutcomeAt(o, g.live, PlainItem(it));
    var doc := g.live.docNextId;
    Gathered(TakenOver(o, g.live, out).(docNextId := doc + 1),
             NowTouched(g.touched, out),
             Pushed(g.postings, IndexedUnder(out), doc),
             g.documents + [(doc, DocumentFor(g.live.config, out, it.input, it.metadata))])
  }

  lemma GatherStep(o: Oracles, v: Live, it: DocumentItem)
    requires Sound(o) && LiveOK(o, v) && |it.input| == v.config.d
    ensures HasRows(v) && InBounds(v, OutcomeAt(o, v, PlainItem(it)))
    ensures var u := TakenOver(o, v, OutcomeAt(o, v, PlainItem(it))).(docNextId := v.docNextId + 1);
      LiveOK(o, u) && u.config == v.config
  {
    hide OutcomeAt, TakenOver, LiveOK, Sound;
    WriteKeepsLive(o, v, PlainItem(it));
    LiveHasRows(o, v);
    CountIsLive(o, TakenOver(o, v, OutcomeAt(o, v, PlainItem(it))), v.docNextId + 1);
  }

  function WithDocuments(d: Disk, documents: seq<(nat, Document)>): Disk {
    if documents == [] then d
    else
      var last := documents[|documents| - 1];
      WithDocument(WithDocuments(d, documents[..|documents| - 1]), last.0, last.1)
  }

  /** Each list with its new documents at the end. */
  function JoinedPostings(postings: map<nat, seq<nat>>, more: map<nat, seq<nat>>): map<nat, seq<nat>> {
    map l | l in postings.Keys + more.Keys ::
      (if l in postings then postings[l] else []) + (if l in more then more[l] else [])
  }

  /** The elements of a set, once or more each, in some order. */
  ghost predicate Orders(order: seq<nat>, s: set<nat>) {
    forall x :: x in order <==> x in s
  }

  /** `write_batch_with_metadata`: what was gathered is taken over and stored, the
      touched locations in the given order. */
  function WroteTogether(w: World, g: Gathered, order: seq<nat>): World
    requires forall t | 0 <= t < |order| :: order[t] < |g.live.locations|
  {
    var d := WithDocuments(WithLocations(w.disk, Picked(g.live.locations, order)), g.documents);
    w.(live := g.live,
       disk := WithCounters(d.(postings := JoinedPostings(d.postings, g.postings)), g.live.nextId, Some(g.live.eta),
                            Some(g.live.docNextId)),
       version := w.version + 1)
  }

  // ----- the same

  lemma {:induction false} SameLive(o: Oracles, w: World, items: seq<DocumentItem>)
    requires Sound(o) && Inv(o, w) && w.valid && Fits(w.live.config, items)
    ensures Gather(o, w.live, items).live == InTurn(o, w, items).live
  {
    hide OutcomeAt, TakenOver, LiveOK, Inv, Sound;
    if items != [] {
      SameLive(o, w, items[..|items| - 1]);
    }
  }

  lemma {:induction false} WithDocumentsOnly(d: Disk, documents: seq<(nat, Document)>)
    ensures WithDocuments(d, documents) == d.(documents := WithDocuments(d, documents).documents)
  {
    if documents != [] {
      WithDocumentsOnly(d, documents[..|documents| - 1]);
    }
  }

  lemma PushJoins(d: Disk, more: map<nat, seq<nat>>, l: nat, doc: nat)
    ensures var pushed := more[l := (if l in more then more[l] else []) + [doc]];
      JoinedPostings(d.postings, pushed)
      == Appending(d.(postings := JoinedPostings(d.postings, more)), l, [doc]).postings
  {
    hide JoinedPostings;
    var pushed := more[l := (if l in more then more[l] else []) + [doc]];
    var joined := JoinedPostings(d.postings, more);
    var a := JoinedPostings(d.postings, pushed);
    var b := Appending(d.(postings := joined), l, [doc]).postings;
    assert b == joined[l := (if l in joined then joined[l] else []) + [doc]];
    forall k ensures (k in a <==> k in b) && (k in a ==> a[k] == b[k]) {
      JoinedAt(d.postings, pushed, k);
      JoinedAt(d.postings, more, k);
      JoinedMore(d.postings, more, k, doc);
    }
  }

  lemma JoinedAt(before: map<nat, seq<nat>>, more: map<nat, seq<nat>>, k: nat)
    ensures k in JoinedPostings(before, more) <==> k in before || k in more
    ensures k in JoinedPostings(before, more) ==>
              JoinedPostings(before, more)[k] == (if k in before then before[k] else []) + if k in more then more[k] else []
  {
  }

  lemma JoinedMore(before: map<nat, seq<nat>>, more: map<nat, seq<nat>>, k: nat, doc: nat)
    ensures var (x, y) := (if k in before then before[k] else [], if k in more then more[k] else []);
      x + (y + [doc]) == (x + y) + [doc] && [] + x == x
  {
  }

  lemma {:induction false} PushedJoins(d: Disk, more: map<nat, seq<nat>>, locations: seq<nat>, doc: nat)
    ensures JoinedPostings(d.postings, Pushed(more, locations, doc))
         == Indexing(d.(postings := JoinedPostings(d.postings, more)), locations, doc).postings
  {
    hide JoinedPostings, Appending;
    if locations != [] {
      var init := locations[..|locations| - 1];
      PushedJoins(d, more, init, doc);
      PushJoins(d, Pushed(more, init, doc), locations[|locations| - 1], doc);
      var e := d.(postings := JoinedPostings(d.postings, more));
      IndexingPostingsOnly(e, init, doc);
      assert Indexing(e, init, doc) == d.(postings := JoinedPostings(d.postings, Pushed(more, init, doc)));
    }
  }

  lemma {:induction false} IndexingOnlyPostings(d: Disk, e: Disk, locations: seq<nat>, doc: nat)
    requires d.postings == e.postings
    ensures Indexing(d, locations, doc).postings == Indexing(e, locations, doc).postings
  {
    if locations != [] {
      IndexingOnlyPostings(d, e, locations[..|locations| - 1], doc);
    }
  }

  lemma NothingJoined(postings: map<nat, seq<nat>>)
    ensures JoinedPostings(postings, map[]) == postings
  {
    forall l | l in postings ensures JoinedPostings(postings, map[])[l] == postings[l] {
      assert postings[l] + [] == postings[l];
    }
  }

  /** The documents and the posting lists, as sequences, come out the same. */
  lemma {:induction false} SameIndex(o: Oracles, w: World, items: seq<DocumentItem>)
    requires Sound(o) && Inv(o, w) && w.valid && Fits(w.live.config, items)
    ensures var (g, d) := (Gather(o, w.live, items), InTurn(o, w, items).disk);
      && JoinedPostings(w.disk.postings, g.postings) == d.postings
      && WithDocuments(w.disk, g.documents).documents == d.documents
  {
    hide OutcomeAt, TakenOver, LiveOK, DiskOK, Sound, JoinedPostings, Indexing, Pushed, DocumentFor, IndexedUnder, StoredBy;
    if items == [] {
      NothingJoined(w.disk.postings);
    } else {
      var (init, it) := (items[..|items| - 1], items[|items| - 1]);
      SameIndex(o, w, init);
      SameLive(o, w, init);
      GatherStep(o, Gather(o, w.live, init).live, it);
      IndexStep(o, w, Gather(o, w.live, init), InTurn(o, w, init), it);
    }
  }

  lemma IndexStep(o: Oracles, w: World, g: Gathered, before: World, it: DocumentItem)
    requires Sound(o) && HasRows(g.live) && InBounds(g.live, OutcomeAt(o, g.live, PlainItem(it))) && g.live == before.live
    requires JoinedPostings(w.disk.postings, g.postings) == before.disk.postings
    requires WithDocuments(w.disk, g.documents).documents == before.disk.documents
    ensures var (h, d) := (Gathering(o, g, it), WroteDocument(o, before, it).disk);
      && JoinedPostings(w.disk.postings, h.postings) == d.postings
      && WithDocuments(w.disk, h.documents).documents == d.documents
  {
    hide OutcomeAt, TakenOver, Sound, JoinedPostings, Indexing, Pushed, DocumentFor, IndexedUnder, StoredBy;
    var out := OutcomeAt(o, g.live, PlainItem(it));
    var doc := g.live.docNextId;
    var data := DocumentFor(g.live.config, out, it.input, it.metadata);
    PushedJoins(w.disk, g.postings, IndexedUnder(out), doc);
    var stored := WithDocument(StoredBy(before.disk, out), doc, data);
    StoredByLocationsOnly(before.disk, out);
    IndexingOnlyPostings(w.disk.(postings := JoinedPostings(w.disk.postings, g.postings)), stored, IndexedUnder(out), doc);
    IndexingPostingsOnly(stored, IndexedUnder(out), doc);
    assert (g.documents + [(doc, data)])[..|g.documents|] == g.documents;
  }

  // ----- the locations

  /** Of a run of writes over v: the touched locations are stored as they are, the
      others as they were. */
  ghost predicate TouchedStored(locs: seq<HardLocation>, touched: set<nat>, before: map<nat, HardLocation>,
                                m: map<nat, HardLocation>) {
    && (forall x | x in touched :: x < |locs| && locs[x].id in m && m[locs[x].id] == locs[x])
    && (forall id | (id in m || id in before) && (forall x | x in touched && x < |locs| :: locs[x].id != id) ::
          id in m && id in before && m[id] == before[id])
  }

  /** One more write. */
  lemma TouchedStep(v: Live, d: Disk, out: Outcome, touched: set<nat>, before: map<nat, HardLocation>)
    requires WriteShape(v, out) && TouchedStored(v.locations, touched, before, d.locations)
    ensures TouchedStored(After(out), NowTouched(touched, out), before, StoredBy(d, out).locations)
  {
    hide StoredBy;
    var (all, m, now) := (After(out), StoredBy(d, out).locations, NowTouched(touched, out));
    forall x | x in now ensures x < |all| && all[x].id in m && m[all[x].id] == all[x] {
      NowTouchedIn(touched, out, x);
      StoredAt(v, d, out, x);
    }
    forall id | (id in m || id in before) && (forall x | x in now && x < |all| :: all[x].id != id)
      ensures id in m && id in before && m[id] == before[id]
    {
      UntouchedId(v, d, out, touched, id);
    }
  }

  lemma NowTouchedIn(touched: set<nat>, out: Outcome, x: nat)
    requires x in NowTouched(touched, out)
    ensures x in touched || x in out.modified || |out.locations| <= x < |out.locations| + |out.created|
  {
  }

  lemma TouchedIn(touched: set<nat>, out: Outcome, x: nat)
    requires x in touched || x in out.modified || |out.locations| <= x < |out.locations| + |out.created|
    ensures x in NowTouched(touched, out)
  {
    if x !in touched && x !in out.modified {
      assert Between(|out.locations|, x, |out.locations| + |out.created|);
    }
  }

  /** An id no touched location has is stored as before the write. */
  lemma UntouchedId(v: Live, d: Disk, out: Outcome, touched: set<nat>, id: nat)
    requires WriteShape(v, out)
    requires forall x | x in NowTouched(touched, out) && x < |After(out)| :: After(out)[x].id != id
    ensures var m := StoredBy(d, out).locations; (id in m <==> id in d.locations) && (id in m ==> m[id] == d.locations[id])
    ensures forall x | x in touched && x < |v.locations| :: v.locations[x].id != id
  {
    hide StoredBy, NowTouched;
    forall x | x in touched && x < |v.locations| ensures v.locations[x].id != id {
      TouchedIn(touched, out, x);
      assert After(out)[x].id == v.locations[x].id;
    }
    if id in Ids(After(out)) {
      var x :| 0 <= x < |After(out)| && Ids(After(out))[x] == id;
      if x in out.modified || x >= |v.locations| {
        TouchedIn(touched, out, x);
      }
      StoredAt(v, d, out, x);
    } else {
      StoredElsewhere(v, d, out, id);
    }
  }

  lemma {:induction false} SameLocations(o: Oracles, w: World, items: seq<DocumentItem>)
    requires Sound(o) && Inv(o, w) && w.valid && Fits(w.live.config, items)
    ensures var g := Gather(o, w.live, items);
      TouchedStored(g.live.locations, g.touched, w.disk.locations, InTurn(o, w, items).disk.locations)
  {
    hide OutcomeAt, TakenOver, LiveOK, DiskOK, Sound, Indexing, Pushed, DocumentFor, IndexedUnder, StoredBy, TouchedStored,
      NowTouched;
    if items == [] {
      NothingTouched(w.live.locations, w.disk.locations);
    } else {
      var (init, it) := (items[..|items| - 1], items[|items| - 1]);
      SameLocations(o, w, init);
      SameLive(o, w, init);
      LocationsStep(o, w, Gather(o, w.live, init), InTurn(o, w, init), it);
    }
  }

  lemma NothingTouched(locs: seq<HardLocation>, m: map<nat, HardLocation>)
    ensures TouchedStored(locs, {}, m, m)
  {
  }

  lemma LocationsStep(o: Oracles, w: World, g: Gathered, before: World, it: DocumentItem)
    requires Sound(o) && LiveOK(o, g.live) && g.live == before.live && |it.input| == g.live.config.d
    requires TouchedStored(g.live.locations, g.touched, w.disk.locations, before.disk.locations)
    ensures HasRows(g.live) && InBounds(g.live, OutcomeAt(o, g.live, PlainItem(it)))
    ensures TouchedStored(Gathering(o, g, it).live.locations, Gathering(o, g, it).touched, w.disk.locations,
                          WroteDocument(o, before, it).disk.locations)
  {
    hide OutcomeAt, TakenOver, LiveOK, Sound, Indexing, Pushed, DocumentFor, IndexedUnder, StoredBy, TouchedStored, NowTouched;
    var out := OutcomeAt(o, g.live, PlainItem(it));
    LiveHasRows(o, g.live);
    OutcomeShape(o, g.live, PlainItem(it));
    WriteKeepsLive(o, g.live, PlainItem(it));
    TouchedStep(g.live, before.disk, out, g.touched, w.disk.locations);
    var stored := WithDocument(StoredBy(before.disk, out), g.live.docNextId,
                               DocumentFor(g.live.config, out, it.input, it.metadata));
    IndexingPostingsOnly(stored, IndexedUnder(out), g.live.docNextId);
  }

  /** Storing the touched locations once, in any order, stores what the writes did. */
  lemma TouchedDetermines(locs: seq<HardLocation>, touched: set<nat>, before: map<nat, HardLocation>,
                          m: map<nat, HardLocation>, order: seq<nat>)
    requires Distinct(Ids(locs)) && TouchedStored(locs, touched, before, m)
    requires (forall t | 0 <= t < |order| :: order[t] < |locs|) && Orders(order, touched)
    ensures PutAll(before, Picked(locs, order)) == m
  {
    hide PutAll, Distinct;
    var after := PutAll(before, Picked(locs, order));
    forall id ensures (id in after <==> id in m) && (id in m ==> after[id] == m[id]) {
      if id in Ids(locs) {
        var x :| 0 <= x < |locs| && Ids(locs)[x] == id;
        PickedAt(before, locs, order, x);
        if x !in touched {
          OtherIds(locs, touched, x);
        }
      } else {
        PickedElsewhere(before, locs, order, id);
        assert forall x | x in touched && x < |locs| :: Ids(locs)[x] == locs[x].id;
      }
    }
  }

  lemma OtherIds(locs: seq<HardLocation>, touched: set<nat>, x: nat)
    requires Distinct(Ids(locs)) && x < |locs| && x !in touched
    ensures forall y | y in touched && y < |locs| :: locs[y].id != locs[x].id
  {
    forall y | y in touched && y < |locs| ensures locs[y].id != locs[x].id {
      assert Ids(locs)[y] == locs[y].id && Ids(locs)[x] == locs[x].id;
    }
  }

  lemma {:induction false} SameCounters(o: Oracles, w: World, items: seq<DocumentItem>)
    requires Sound(o) && Inv(o, w) && w.valid && Fits(w.live.config, items) && items != []
    ensures var d := InTurn(o, w, items).disk;
      && d.nextId == Some(InTurn(o, w, items).live.nextId) && d.eta == Some(InTurn(o, w, items).live.eta)
      && d.docNextId == Some(InTurn(o, w, items).live.docNextId)
  {
    hide OutcomeAt, LiveOK, DiskOK, Sound, Indexing, DocumentFor, IndexedUnder, StoredBy, TakenOver;
    var before := InTurn(o, w, items[..|items| - 1]);
    WriteKeepsLive(o, before.live, PlainItem(items[|items| - 1]));
  }

  /** `write_batch_with_metadata` is `write_with_metadata` of its items in turn: the
      same live state, the same locations, documents, posting lists and counters
      stored, whatever the order the touched locations are stored in. Only the
      version counts one mutation instead of many. */
  lemma BatchIsSequence(o: Oracles, w: World, items: seq<DocumentItem>, order: seq<nat>)
    requires Sound(o) && Inv(o, w) && w.valid && Fits(w.live.config, items) && items != []
    requires (forall t | 0 <= t < |order| :: order[t] < |Gather(o, w.live, items).live.locations|)
    requires Orders(order, Gather(o, w.live, items).touched)
    ensures WroteTogether(w, Gather(o, w.live, items), order) == InTurn(o, w, items).(version := w.version + 1)
  {
    hide LiveOK, DiskOK, Sound, TouchedStored, JoinedPostings, Gather, InTurn, PutAll;
    var g := Gather(o, w.live, items);
    SameLive(o, w, items);
    SameIndex(o, w, items);
    SameLocations(o, w, items);
    SameCounters(o, w, items);
    LiveIdsDistinct(o, g.live);
    TouchedDetermines(g.live.locations, g.touched, w.disk.locations, InTurn(o, w, items).disk.locations, order);
    var stored := WithLocations(w.disk, Picked(g.live.locations, order));
    WithDocumentsOnly(stored, g.documents);
    WithDocumentsOnly(w.disk, g.documents);
    DocumentsOnly(stored, w.disk, g.documents);
  }

  lemma LiveIdsDistinct(o: Oracles, v: Live)
    requires LiveOK(o, v)
    ensures Distinct(Ids(v.locations))
  {
  }

  lemma {:induction false} DocumentsOnly(d: Disk, e: Disk, documents: seq<(nat, Document)>)
    requires d.documents == e.documents
    ensures WithDocuments(d, documents).documents == WithDocuments(e, documents).documents
  {
    if documents != [] {
      DocumentsOnly(d, e, documents[..|documents| - 1]);
    }
  }

  /** The ids the batch returns are the ones its items would be given in turn. */
  lemma {:induction false} BatchIds(o: Oracles, v: Live, items: seq<DocumentItem>)
    requires Sound(o) && LiveOK(o, v) && Fits(v.config, items)
    ensures var g := Gather(o, v, items);
      |g.documents| == |items| && g.live.docNextId == v.docNextId + |items|
      && forall t | 0 <= t < |items| :: g.documents[t].0 == v.docNextId + t
  {
    hide OutcomeAt, TakenOver, LiveOK, Sound, DocumentFor;
    if items != [] {
      BatchIds(o, v, items[..|items| - 1]);
    }
  }

  /** Documents added under consecutive ids. */
  function Adding(docs: map<nat, (Vec, Metadata)>, first: nat, items: seq<DocumentItem>): map<nat, (Vec, Metadata)> {
    if items == [] then docs
    else
      var n := |items| - 1;
      Adding(docs, first, items[..n])[first + n := (items[n].input, items[n].metadata)]
  }

  /** Writes in turn add exactly their documents, and keep what a reload would rebuild
      and the index. */
  lemma {:induction false} InTurnKeeps(o: Oracles, w: World, items: seq<DocumentItem>)
    requires Sound(o) && Inv(o, w) && w.valid && Fits(w.live.config, items)
    ensures var r := InTurn(o, w, items);
      && r.live.docNextId == w.live.docNextId + |items|
      && Docs(r.disk) == Adding(Docs(w.disk), w.live.docNextId, items)
      && (InStep(w) ==> InStep(r))
      && (PostingsRight(w.disk) ==> PostingsRight(r.disk))
  {
    hide OutcomeAt, TakenOver, LiveOK, DiskOK, Sound, Docs, Indexing, DocumentFor, IndexedUnder, StoredBy, InStep, PostingsRight;
    if items != [] {
      var (init, it) := (items[..|items| - 1], items[|items| - 1]);
      InTurnKeeps(o, w, init);
      var before := InTurn(o, w, init);
      WroteDocumentKeeps(o, before, it);
      if PostingsRight(before.disk) {
        WroteDocumentIndex(o, before, it);
      }
    }
  }
}
