/** A collection as a plain map of documents: each id to the vector and metadata it
    was written with, however they are stored. */
module Documents {
  import opened Wrappers
  import opened Vectors
  import opened Locations
  import opened Live
  import opened LiveLaws
  import opened Store
  import opened Write
  import opened WriteLaws
  import opened Steps
  import opened Consistency

  /** What a stored document stands for. */
  function DocOf(d: Disk, data: Document): (Vec, Metadata) {
    match data
    case Inline(vector, metadata) => (vector, metadata)
    case ByLocation(id, metadata) => (if id in d.locations then d.locations[id].address else [], metadata)
  }

  function Docs(d: Disk): map<nat, (Vec, Metadata)> {
    map doc | doc in d.documents :: DocOf(d, d.documents[doc])
  }

  // ----- references through a write

  /** Every location a document refers to is still stored, at its address. */
  ghost predicate RefsKept(d: Disk, m: map<nat, HardLocation>) {
    forall doc | doc in d.documents && d.documents[doc].ByLocation? && d.documents[doc].location in d.locations ::
      d.documents[doc].location in m
      && m[d.documents[doc].location].address == d.locations[d.documents[doc].location].address
  }

  lemma PlainOutcome(o: Oracles, v: Live, it: Item)
    requires Sound(o) && !v.config.competitive
    ensures var out := OutcomeAt(o, v, it);
      out.modified == [] && out.locations == v.locations && out.nextId == v.nextId + 1
      && out.created == [NewLocation(v.nextId, it.address, it.counter, [])]
  {
  }

  lemma RefsThroughWrite(o: Oracles, v: Live, d: Disk, it: Item)
    requires Sound(o) && WriteShape(v, OutcomeAt(o, v, it))
    requires RefsStored(v.config, d) && Keyed(d.locations, v.config.d, v.nextId)
    ensures RefsKept(d, StoredBy(d, OutcomeAt(o, v, it)).locations)
  {
    hide Adaptive;
    if !v.config.competitive {
      PlainOutcome(o, v, it);
      OneStored(d, OutcomeAt(o, v, it));
    }
  }

  /** Storing one new location leaves the others. */
  lemma OneStored(d: Disk, out: Outcome)
    requires out.modified == [] && |out.created| == 1
    ensures StoredBy(d, out).locations == d.locations[out.created[0].id := out.created[0]]
  {
    assert Picked(out.locations, out.modified) == [];
    assert out.created[..0] == [];
    assert PutAll(d.locations, out.created) == PutAll(d.locations, out.created[..0])[out.created[0].id := out.created[0]];
  }

  lemma DocsKept(d: Disk, e: Disk)
    requires e.documents == d.documents && RefsKept(d, e.locations)
    requires forall doc | doc in d.documents && d.documents[doc].ByLocation? :: d.documents[doc].location in d.locations
    ensures Docs(e) == Docs(d)
  {
  }

  /** References agree with the live locations after a write when they did before. */
  lemma RefsAgreeThroughWrite(o: Oracles, v: Live, d: Disk, it: Item)
    requires Sound(o) && WriteShape(v, OutcomeAt(o, v, it))
    requires RefsStored(v.config, d) && Keyed(d.locations, v.config.d, v.nextId) && RefsAgree(v.locations, d)
    ensures RefsAgree(After(OutcomeAt(o, v, it)), StoredBy(d, OutcomeAt(o, v, it)))
  {
    hide Adaptive;
    if !v.config.competitive {
      PlainOutcome(o, v, it);
      OneStored(d, OutcomeAt(o, v, it));
    }
  }

  // ----- write, write_two

  lemma CountersDoNotMatter(d: Disk, nextId: nat, eta: Option<real>, docNextId: Option<nat>)
    ensures Docs(WithCounters(d, nextId, eta, docNextId)) == Docs(d)
  {
  }

  /** A write keeps every invariant, what a reload would rebuild, and every
      document. */
  lemma WroteKeeps(o: Oracles, w: World, it: Item)
    requires Sound(o) && Inv(o, w) && w.valid && |it.address| == |it.counter| == w.live.config.d
    ensures HasRows(w.live) && InBounds(w.live, OutcomeAt(o, w.live, it)) && Inv(o, Wrote(o, w, it))
    ensures InStep(w) ==> InStep(Wrote(o, w, it))
    ensures Docs(Wrote(o, w, it).disk) == Docs(w.disk)
  {
    hide OutcomeAt, StoredBy, LiveOK, TakenOver, Keyed, Aligned, Mirrors, RefsAgree, Sound, Docs, RefsKept;
    var out := OutcomeAt(o, w.live, it);
    WrittenHalves(o, w.live, w.disk, it);
    CountersDoNotMatter(StoredBy(w.disk, out), out.nextId, Some(out.eta), None);
    SameRefs(After(out), StoredBy(w.disk, out), Wrote(o, w, it).disk);
  }

  lemma LiveHasRows(o: Oracles, v: Live)
    requires LiveOK(o, v)
    ensures HasRows(v)
  {
    RowsAreThere(o, v);
  }

  lemma StoredByLocationsOnly(d: Disk, out: Outcome)
    requires forall t | 0 <= t < |out.modified| :: out.modified[t] < |out.locations|
    ensures StoredBy(d, out) == d.(locations := StoredBy(d, out).locations)
  {
  }

  lemma RefsStillStored(c: Config, d: Disk, e: Disk)
    requires RefsStored(c, d) && e.documents == d.documents && RefsKept(d, e.locations)
    ensures RefsStored(c, e)
  {
  }

  lemma SameRefs(locs: seq<HardLocation>, d: Disk, e: Disk)
    requires RefsAgree(locs, d) && e.documents == d.documents && e.locations == d.locations
    ensures RefsAgree(locs, e)
  {
  }

  // ----- write_with_metadata

  lemma {:induction false} IndexingPostingsOnly(d: Disk, locations: seq<nat>, doc: nat)
    ensures Indexing(d, locations, doc) == d.(postings := Indexing(d, locations, doc).postings)
  {
    if locations != [] {
      IndexingPostingsOnly(d, locations[..|locations| - 1], doc);
    }
  }

  /** The location a plain document refers to is the one just created, with its
      vector as address. */
  lemma PlainIsStored(v: Live, d: Disk, out: Outcome, input: Vec)
    requires WriteShape(v, out) && PlainLocation(v.config, out, input).Some?
    ensures var id := PlainLocation(v.config, out, input).value;
      var m := StoredBy(d, out).locations;
      id == v.nextId && id in m && m[id].address == input && !v.config.competitive
    ensures forall x | 0 <= x < |After(out)| && After(out)[x].id == v.nextId :: After(out)[x].address == input
  {
    hide StoredBy;
    StoredAt(v, d, out, |v.locations|);
    assert forall x | 0 <= x < |v.locations| :: After(out)[x] == out.locations[x] && out.locations[x].id < v.nextId;
  }

  /** A document is stored by reference in exactly the memories that never move their
      locations. */
  lemma StoredByReference(o: Oracles, v: Live, it: DocumentItem)
    requires Sound(o)
    ensures DocumentFor(v.config, OutcomeAt(o, v, PlainItem(it)), it.input, it.metadata)
         == if v.config.competitive then Inline(it.input, it.metadata) else ByLocation(v.nextId, it.metadata)
  {
    hide Activated;
  }

  /** Storing a document adds it, as written, to the documents there were. */
  lemma DocumentAdds(v: Live, d: Disk, out: Outcome, doc: nat, input: Vec, metadata: Metadata)
    requires WriteShape(v, out)
    ensures var e := StoredBy(d, out);
      Docs(WithDocument(e, doc, DocumentFor(v.config, out, input, metadata))) == Docs(e)[doc := (input, metadata)]
  {
    hide StoredBy;
    if PlainLocation(v.config, out, input).Some? {
      PlainIsStored(v, d, out, input);
    }
  }

  lemma DocumentRefs(v: Live, d: Disk, out: Outcome, doc: nat, input: Vec, metadata: Metadata)
    requires WriteShape(v, out) && RefsStored(v.config, StoredBy(d, out)) && RefsAgree(After(out), StoredBy(d, out))
    ensures var e := WithDocument(StoredBy(d, out), doc, DocumentFor(v.config, out, input, metadata));
      RefsStored(v.config, e) && RefsAgree(After(out), e)
  {
    hide StoredBy;
    if PlainLocation(v.config, out, input).Some? {
      PlainIsStored(v, d, out, input);
    }
  }

  lemma PostingsDoNotMatter(locs: seq<HardLocation>, d: Disk, e: Disk, c: Config)
    requires e.documents == d.documents && e.locations == d.locations
    ensures Docs(e) == Docs(d)
    ensures RefsAgree(locs, d) ==> RefsAgree(locs, e)
    ensures RefsStored(c, d) ==> RefsStored(c, e)
  {
  }

  /** A document write keeps every invariant and what a reload would rebuild, returns
      an id not in use, and adds exactly its document. */
  lemma WroteDocumentKeeps(o: Oracles, w: World, it: DocumentItem)
    requires Sound(o) && Inv(o, w) && w.valid && |it.input| == w.live.config.d
    ensures HasRows(w.live) && InBounds(w.live, OutcomeAt(o, w.live, PlainItem(it))) && Inv(o, WroteDocument(o, w, it))
    ensures InStep(w) ==> InStep(WroteDocument(o, w, it))
    ensures Docs(WroteDocument(o, w, it).disk) == Docs(w.disk)[w.live.docNextId := (it.input, it.metadata)]
    ensures w.live.docNextId !in Docs(w.disk)
  {
    hide OutcomeAt, StoredBy, LiveOK, TakenOver, Keyed, Aligned, Mirrors, RefsAgree, Sound, Docs, RefsKept, DocumentFor,
      Indexing, IndexedUnder, RefsStored;
    var (v, doc) := (w.live, w.live.docNextId);
    var out := OutcomeAt(o, v, PlainItem(it));
    WrittenHalves(o, v, w.disk, PlainItem(it));
    var stored := StoredBy(w.disk, out);
    var added := WithDocument(stored, doc, DocumentFor(v.config, out, it.input, it.metadata));
    DocumentAdds(v, w.disk, out, doc, it.input, it.metadata);
    DocumentRefs(v, w.disk, out, doc, it.input, it.metadata);
    IndexingPostingsOnly(added, IndexedUnder(out), doc);
    PostingsDoNotMatter(After(out), added, WroteDocument(o, w, it).disk, v.config);
    CountIsLive(o, TakenOver(o, v, out), doc + 1);
    FreshDocument(w.disk, doc);
  }

  lemma FreshDocument(d: Disk, doc: nat)
    requires forall x | x in d.documents :: x < doc
    ensures doc !in Docs(d)
  {
  }

  /** The counter of documents is no part of what the caches depend on. */
  lemma CountIsLive(o: Oracles, v: Live, n: nat)
    requires LiveOK(o, v)
    ensures LiveOK(o, v.(docNextId := n))
  {
  }

  /** u and e are the two halves after the locations of a write are taken over and stored. */
  ghost predicate TakenAndStored(o: Oracles, v: Live, d: Disk, out: Outcome, u: Live, e: Disk) {
    && WriteShape(v, out)
    && LiveOK(o, u) && u.locations == After(out) && u.nextId == out.nextId && u.eta == out.eta
    && u.docNextId == v.docNextId && u.config == v.config
    && e == d.(locations := e.locations) && Keyed(e.locations, v.config.d, out.nextId)
    && Aligned(After(out), e.locations) && RefsAgree(After(out), e) && RefsStored(v.config, e)
    && (Mirrors(v.locations, d.locations) ==> Mirrors(After(out), e.locations))
    && Docs(e) == Docs(d)
  }

  lemma WrittenHalves(o: Oracles, v: Live, d: Disk, it: Item)
    requires Sound(o) && LiveOK(o, v) && |it.address| == |it.counter| == v.config.d
    requires Keyed(d.locations, v.config.d, v.nextId) && RefsStored(v.config, d)
    requires Aligned(v.locations, d.locations) && RefsAgree(v.locations, d)
    ensures HasRows(v) && InBounds(v, OutcomeAt(o, v, it))
    ensures forall t | 0 <= t < |OutcomeAt(o, v, it).modified| ::
              OutcomeAt(o, v, it).modified[t] < |OutcomeAt(o, v, it).locations|
    ensures TakenAndStored(o, v, d, OutcomeAt(o, v, it), TakenOver(o, v, OutcomeAt(o, v, it)), StoredBy(d, OutcomeAt(o, v, it)))
  {
    hide OutcomeAt, StoredBy, LiveOK, TakenOver, Keyed, Aligned, Mirrors, RefsAgree, Sound, Docs, RefsKept;
    var out := OutcomeAt(o, v, it);
    OutcomeShape(o, v, it);
    LiveHasRows(o, v);
    WriteKeepsLive(o, v, it);
    WriteStays(v, d, out);
    WriteKeyed(v, d, out);
    RefsThroughWrite(o, v, d, it);
    RefsAgreeThroughWrite(o, v, d, it);
    StoredByLocationsOnly(d, out);
    DocsKept(d, StoredBy(d, out));
    RefsStillStored(v.config, d, StoredBy(d, out));
  }
}
