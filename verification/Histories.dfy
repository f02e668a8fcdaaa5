/** Whole histories of a collection: any operations, failing or not, in any order. */
module Histories {
  import opened Wrappers
  import opened Vectors
  import opened Locations
  import opened Live
  import opened LiveLaws
  import opened Store
  import opened Steps
  import opened Consistency
  import opened Documents
  import opened Upkeep
  import opened Postings
  import opened Batches
  import opened PlainBatches
  import opened Agreement
  import Compress
  import Merge
  import Scan

  datatype Operation =
    | Write(item: Item)
    | WriteMany(items: seq<Item>)
    | WriteDocument(document: DocumentItem)
    | WriteDocuments(documents: seq<DocumentItem>)
    | MergeAll
    | CompressAll(kappa: real, costWeight: real)
    | Flush
    | Delete(doc: nat)
    | LoadSnapshot(locations: seq<HardLocation>, config: Config, expected: Option<nat>)
    | Reopen

  /** What the engine checks of an operation before it starts, and the distinct ids it
      expects of a snapshot. */
  ghost predicate Admitted(c: Config, op: Operation) {
    match op
    case Write(it) => |it.address| == |it.counter| == c.d
    case WriteMany(items) => ItemsFit(c, items)
    case WriteDocument(it) => |it.input| == c.d
    case WriteDocuments(items) => Fits(c, items)
    case LoadSnapshot(locs, config, _) => Sized(locs, config.d) && Distinct(Ids(locs))
    case _ => true
  }

  /** The operation went through. */
  ghost predicate Succeeds(o: Oracles, w: World, op: Operation, n: World)
    requires Sound(o) && Inv(o, w) && w.valid && Admitted(w.live.config, op)
  {
    match op
    case Write(it) =>
      WroteKeeps(o, w, it);
      n == Wrote(o, w, it)
    case WriteMany(items) =>
      exists order: seq<nat> ::
        (forall t | 0 <= t < |order| :: order[t] < |BatchOf(o, w.live, items).live.locations|)
        && Orders(order, BatchOf(o, w.live, items).modified) && n == WroteBatch(w, BatchOf(o, w.live, items), order)
    case WriteDocument(it) =>
      WroteDocumentKeeps(o, w, it);
      n == WroteDocument(o, w, it)
    case WriteDocuments(items) =>
      if items == [] then n == w
      else
        exists order: seq<nat> ::
          (forall t | 0 <= t < |order| :: order[t] < |Gather(o, w.live, items).live.locations|)
          && Orders(order, Gather(o, w.live, items).touched) && n == WroteTogether(w, Gather(o, w.live, items), order)
    case MergeAll => n == MergedWorld(o, w)
    case CompressAll(kappa, costWeight) => n == CompressedWorld(o, w, kappa, costWeight)
    case Flush => n == Flushed(w)
    case Delete(doc) => n == Deleted(w, doc)
    case LoadSnapshot(locs, c, expected) =>
      (expected.Some? ==> expected.value == w.version) && n == SnapshotLoaded(o, w, locs, c)
    case Reopen => Reopens(o, w, n)
  }

  /** `load` over the store: versions start again. */
  ghost predicate Reopens(o: Oracles, w: World, n: World) {
    n.valid && n.disk == w.disk && Reloaded(o, w.live.config, w.disk, n.live) && n.version == 0
  }

  /** It did not: nothing happened, or the mutation was abandoned, before or after
      documents were given their vectors back. */
  ghost predicate Fails(o: Oracles, w: World, n: World) {
    || n == w
    || (exists dirty: bool, version: nat :: Bumped(w, version) && Failed(o, w, w.disk, dirty, version, n))
    || (exists dirty: bool, version: nat :: Bumped(w, version) && Failed(o, w, Materialized(w.live, w.disk), dirty, version, n))
  }

  /** The version an abandoned mutation leaves: it had counted itself, or not yet. */
  predicate Bumped(w: World, version: nat) {
    version == w.version || version == w.version + 1
  }

  /** One operation of a collection; out of use, it can only be reopened. */
  ghost predicate Step(o: Oracles, w: World, op: Operation, ok: bool, n: World)
    requires Sound(o) && Inv(o, w)
  {
    if w.valid then if ok then Admitted(w.live.config, op) && Succeeds(o, w, op, n) else Fails(o, w, n)
    else if op.Reopen? && ok then Reopens(o, w, n)
    else n == w
  }

  // ----- one step

  /** The documents after an operation, as a plain map would have them. */
  ghost function DocsAfter(w: World, op: Operation, ok: bool): map<nat, (Vec, Metadata)> {
    if !w.valid || !ok then Docs(w.disk)
    else
      match op
      case WriteDocument(it) => Docs(w.disk)[w.live.docNextId := (it.input, it.metadata)]
      case WriteDocuments(items) => Adding(Docs(w.disk), w.live.docNextId, items)
      case Delete(doc) => Docs(w.disk) - {doc}
      case _ => Docs(w.disk)
  }

  /** A snapshot that is loaded holds every location that has a posting list. */
  ghost predicate HoldsLists(w: World, op: Operation, ok: bool) {
    w.valid && ok && op.LoadSnapshot? ==> forall l | l in w.disk.postings :: l in Ids(op.locations)
  }

  /** The operations that may leave the store behind: a merge of what is close enough,
      and a batch of several patterns in a memory whose locations move, but for two into
      an empty memory that are too far apart to join. */
  ghost predicate MayGoStale(o: Oracles, v: Live, op: Operation) {
    match op
    case MergeAll => ClosePair(o, v.config, v.locations)
    case WriteMany(items) =>
      v.config.competitive && |items| > 1
      && !(v.locations == [] && v.config.k > 0 && |items| == 2 && SecondSpawns(o, v, items[0], items[1]))
    case _ => false
  }

  /** What is promised of every step. */
  ghost predicate Kept(o: Oracles, w: World, op: Operation, ok: bool, n: World) {
    && Inv(o, n)
    && Docs(n.disk) == DocsAfter(w, op, ok)
    && (PostingsRight(w.disk) ==> (PostingsRight(n.disk) <==> HoldsLists(w, op, ok)))
    && (n.valid && w.valid && InStep(w) && !(ok && MayGoStale(o, w.live, op)) ==> InStep(n))
    && (w.valid && ok && op.MergeAll? && InStep(w) && Written(w.live.locations) ==>
          (InStep(n) <==> !MayGoStale(o, w.live, op)))
    && (n.valid && ok && (op.Flush? || op.LoadSnapshot? || op.Reopen?) ==> InStep(n))
    && (n.valid && !ok && n.live != w.live ==> InStep(n))
  }

  lemma FailureKept(o: Oracles, w: World, op: Operation, n: World)
    requires Sound(o) && Inv(o, w) && w.valid && Fails(o, w, n)
    ensures Kept(o, w, op, false, n)
  {
    hide Failed, Materialized, LiveOK, DiskOK, InStep, PostingsRight, Docs;
    if n != w {
      if exists dirty: bool, version: nat :: Bumped(w, version) && Failed(o, w, w.disk, dirty, version, n) {
        var dirty: bool, version: nat :| Bumped(w, version) && Failed(o, w, w.disk, dirty, version, n);
        FailureWith(o, w, op, w.disk, dirty, version, n);
      } else {
        var dirty: bool, version: nat :| Bumped(w, version) && Failed(o, w, Materialized(w.live, w.disk), dirty, version, n);
        FailureWith(o, w, op, Materialized(w.live, w.disk), dirty, version, n);
      }
    }
  }

  lemma FailureWith(o: Oracles, w: World, op: Operation, d: Disk, dirty: bool, version: nat, n: World)
    requires Inv(o, w) && w.valid && Failed(o, w, d, dirty, version, n) && (d == w.disk || d == Materialized(w.live, w.disk))
    ensures Kept(o, w, op, false, n)
  {
    hide Materialized, LiveOK, DiskOK, InStep, PostingsRight, Docs, Reloaded;
    FailedKeeps(o, w, d, dirty, version, n);
    if PostingsRight(w.disk) {
      FailedIndex(o, w, d, dirty, version, n);
    }
  }

  lemma WritesKept(o: Oracles, w: World, op: Operation, n: World)
    requires Sound(o) && Inv(o, w) && w.valid && Admitted(w.live.config, op) && Succeeds(o, w, op, n)
    requires op.Write? || op.WriteDocument?
    ensures Kept(o, w, op, true, n)
  {
    hide LiveOK, DiskOK, InStep, PostingsRight, Docs, Wrote, WroteDocument, Sound;
    match op
    case Write(it) =>
      WroteKeeps(o, w, it);
      if PostingsRight(w.disk) {
        WroteIndex(o, w, it);
      }
    case WriteDocument(it) =>
      WroteDocumentKeeps(o, w, it);
      if PostingsRight(w.disk) {
        WroteDocumentIndex(o, w, it);
      }
  }

  lemma BatchesKept(o: Oracles, w: World, op: Operation, n: World)
    requires Sound(o) && Inv(o, w) && w.valid && Admitted(w.live.config, op) && Succeeds(o, w, op, n)
    requires op.WriteMany? || op.WriteDocuments?
    ensures Kept(o, w, op, true, n)
  {
    hide LiveOK, DiskOK, InStep, PostingsRight, Docs, WroteBatch, WroteTogether, InTurn, Gather, BatchOf, Sound, Orders;
    match op
    case WriteMany(items) =>
      var order: seq<nat> :|
        (forall t | 0 <= t < |order| :: order[t] < |BatchOf(o, w.live, items).live.locations|)
        && Orders(order, BatchOf(o, w.live, items).modified) && n == WroteBatch(w, BatchOf(o, w.live, items), order);
      BatchKeeps(o, w, items, order);
      if !w.live.config.competitive {
        PlainBatchInStep(o, w.live, items);
      } else if |items| <= 1 {
        SingleStaysInStep(o, w.live, items);
      } else if InStep(w) && !MayGoStale(o, w.live, op) {
        assert items == [items[0], items[1]];
        PairInStep(o, w, items[0], items[1], order);
      }
    case WriteDocuments(items) =>
      if items != [] {
        var order: seq<nat> :|
          (forall t | 0 <= t < |order| :: order[t] < |Gather(o, w.live, items).live.locations|)
          && Orders(order, Gather(o, w.live, items).touched) && n == WroteTogether(w, Gather(o, w.live, items), order);
        TogetherKept(o, w, items, order);
      }
  }

  lemma TogetherKept(o: Oracles, w: World, items: seq<DocumentItem>, order: seq<nat>)
    requires Sound(o) && Inv(o, w) && w.valid && Fits(w.live.config, items) && items != []
    requires (forall t | 0 <= t < |order| :: order[t] < |Gather(o, w.live, items).live.locations|)
    requires Orders(order, Gather(o, w.live, items).touched)
    ensures Kept(o, w, WriteDocuments(items), true, WroteTogether(w, Gather(o, w.live, items), order))
  {
    hide LiveOK, DiskOK, InStep, PostingsRight, Docs, WroteTogether, InTurn, Gather, Sound;
    BatchIsSequence(o, w, items, order);
    InTurnKeeps(o, w, items);
    VersionDoesNotMatter(o, InTurn(o, w, items), w.version + 1);
  }

  lemma VersionDoesNotMatter(o: Oracles, w: World, version: nat)
    ensures Inv(o, w) ==> Inv(o, w.(version := version))
    ensures InStep(w) ==> InStep(w.(version := version))
  {
    hide LiveOK, DiskOK, Mirrors, Aligned, RefsAgree;
  }

  lemma MergeKept(o: Oracles, w: World)
    requires Inv(o, w) && w.valid
    ensures Kept(o, w, MergeAll, true, MergedWorld(o, w))
  {
    hide LiveOK, DiskOK, InStep, PostingsRight, Docs, MergedWorld, Merge.Merged, ClosePair, Written;
    MergedKeeps(o, w);
    MergesByGuard(o, w.live.config, w.live.locations);
    if InStep(w) && Written(w.live.locations) {
      MergeStaysInStep(o, w);
    }
    if PostingsRight(w.disk) {
      MergedIndex(o, w);
    }
  }

  lemma SnapshotKept(o: Oracles, w: World, locs: seq<HardLocation>, c: Config, expected: Option<nat>)
    requires Inv(o, w) && w.valid && Sized(locs, c.d) && Distinct(Ids(locs))
    ensures Kept(o, w, LoadSnapshot(locs, c, expected), true, SnapshotLoaded(o, w, locs, c))
  {
    hide LiveOK, DiskOK, InStep, PostingsRight, Docs, SnapshotLoaded;
    SnapshotKeeps(o, w, locs, c);
    if PostingsRight(w.disk) {
      SnapshotIndex(o, w, locs, c);
    }
  }

  lemma UpkeepKept(o: Oracles, w: World, op: Operation, n: World)
    requires Sound(o) && Inv(o, w) && w.valid && Admitted(w.live.config, op) && Succeeds(o, w, op, n)
    requires op.MergeAll? || op.CompressAll? || op.Flush? || op.Delete? || op.LoadSnapshot? || op.Reopen?
    ensures Kept(o, w, op, true, n)
  {
    hide LiveOK, DiskOK, InStep, PostingsRight, Docs, MergedWorld, CompressedWorld, SnapshotLoaded, Reloaded, Flushed, Deleted;
    match op
    case MergeAll =>
      MergeKept(o, w);
    case CompressAll(kappa, costWeight) =>
      CompressedKeeps(o, w, kappa, costWeight);
      if PostingsRight(w.disk) {
        CompressedIndex(o, w, kappa, costWeight);
      }
    case Flush =>
      FlushedKeeps(o, w);
      if PostingsRight(w.disk) {
        FlushedIndex(w);
      }
    case Delete(doc) =>
      DeletedKeeps(o, w, doc);
      if PostingsRight(w.disk) {
        DeletedIndex(w, doc);
      }
    case LoadSnapshot(locs, c, expected) =>
      SnapshotKept(o, w, locs, c, expected);
    case Reopen =>
      ReloadKeeps(o, w.live.config, w.disk, n.live, n.version);
  }

  /** Every operation, succeeding or failing at any call, keeps the invariant; changes
      the documents as a plain map would; keeps the index of documents right, exactly
      unless it loads a snapshot without a location that has a list; and leaves live
      what a reload would rebuild, unless it merges what is close (which, of locations
      written to, never does) or writes a batch of several. A failure that changed
      anything, a flush, a snapshot and a reopening restore that whatever came before. */
  lemma StepKeeps(o: Oracles, w: World, op: Operation, ok: bool, n: World)
    requires Sound(o) && Inv(o, w) && Step(o, w, op, ok, n)
    ensures Kept(o, w, op, ok, n)
  {
    hide LiveOK, Kept, Sound, Succeeds, Fails;
    if w.valid {
      if !ok {
        FailureKept(o, w, op, n);
      } else if op.Write? || op.WriteDocument? {
        WritesKept(o, w, op, n);
      } else if op.WriteMany? || op.WriteDocuments? {
        BatchesKept(o, w, op, n);
      } else {
        UpkeepKept(o, w, op, n);
      }
    } else {
      OutOfUseKept(o, w, op, ok, n);
    }
  }

  lemma OutOfUseKept(o: Oracles, w: World, op: Operation, ok: bool, n: World)
    requires Sound(o) && Inv(o, w) && !w.valid && Step(o, w, op, ok, n)
    ensures Kept(o, w, op, ok, n)
  {
    hide LiveOK, DiskOK, InStep, PostingsRight, Docs, Reloaded;
    if op.Reopen? && ok {
      ReloadKeeps(o, w.live.config, w.disk, n.live, n.version);
    }
  }

  // ----- whole histories

  datatype Event = Event(op: Operation, ok: bool)

  /** worlds[t + 1] follows worlds[t] by event t. */
  ghost predicate History(o: Oracles, events: seq<Event>, worlds: seq<World>)
    requires Sound(o)
  {
    && |worlds| == |events| + 1
    && Inv(o, worlds[0])
    && (forall t | 0 <= t < |events| ::
          Inv(o, worlds[t]) ==> Step(o, worlds[t], events[t].op, events[t].ok, worlds[t + 1]))
  }

  lemma {:induction false} HistoriesKeep(o: Oracles, events: seq<Event>, worlds: seq<World>, n: nat)
    requires Sound(o) && History(o, events, worlds) && n <= |events|
    ensures Inv(o, worlds[n])
  {
    hide Inv, Step, Kept, Sound;
    if n > 0 {
      HistoriesKeep(o, events, worlds, n - 1);
      StepKeeps(o, worlds[n - 1], events[n - 1].op, events[n - 1].ok, worlds[n]);
      KeptInv(o, worlds[n - 1], events[n - 1].op, events[n - 1].ok, worlds[n]);
    }
  }

  lemma KeptInv(o: Oracles, w: World, op: Operation, ok: bool, n: World)
    requires Kept(o, w, op, ok, n)
    ensures Inv(o, n) && Docs(n.disk) == DocsAfter(w, op, ok)
    ensures PostingsRight(w.disk) ==> (PostingsRight(n.disk) <==> HoldsLists(w, op, ok))
    ensures n.valid && w.valid && InStep(w) && !(ok && MayGoStale(o, w.live, op)) ==> InStep(n)
    ensures n.valid && !w.valid && ok && op.Reopen? ==> InStep(n)
  {
    hide Inv, Docs, DocsAfter, PostingsRight, InStep, MayGoStale, HoldsLists;
  }

  lemma {:induction false} AddingAbove(docs: map<nat, (Vec, Metadata)>, first: nat, items: seq<DocumentItem>, doc: nat)
    requires doc in docs && doc < first
    ensures doc in Adding(docs, first, items) && Adding(docs, first, items)[doc] == docs[doc]
  {
    if items != [] {
      AddingAbove(docs, first, items[..|items| - 1], doc);
    }
  }

  /** A stored document's id is below the next one. */
  lemma IdsAreGivenOut(o: Oracles, w: World, doc: nat)
    requires Inv(o, w) && w.valid && doc in Docs(w.disk)
    ensures doc < w.live.docNextId
  {
    hide LiveOK, Aligned, RefsAgree;
  }

  lemma OthersStay(o: Oracles, w: World, op: Operation, ok: bool, doc: nat)
    requires Inv(o, w) && doc in Docs(w.disk) && op != Delete(doc)
    ensures doc in DocsAfter(w, op, ok) && DocsAfter(w, op, ok)[doc] == Docs(w.disk)[doc]
  {
    hide Inv, Docs;
    if w.valid && ok {
      IdsAreGivenOut(o, w, doc);
      if op.WriteDocuments? {
        AddingAbove(Docs(w.disk), w.live.docNextId, op.documents, doc);
      }
    }
  }

  /** A document stays what it was: over every history of writes, batches, merges,
      compressions, snapshot loads, flushes, deletions of other documents, failures
      and reopenings, its id gives the vector and the metadata it had. */
  lemma {:induction false} DocumentsAreStable(o: Oracles, events: seq<Event>, worlds: seq<World>, doc: nat, from: nat, n: nat)
    requires Sound(o) && History(o, events, worlds) && from <= n <= |events|
    requires doc in Docs(worlds[from].disk)
    requires forall t | from <= t < n :: events[t].op != Delete(doc)
    ensures doc in Docs(worlds[n].disk) && Docs(worlds[n].disk)[doc] == Docs(worlds[from].disk)[doc]
  {
    hide Inv, Step, Kept, Sound, Docs, DocsAfter;
    if n > from {
      DocumentsAreStable(o, events, worlds, doc, from, n - 1);
      HistoriesKeep(o, events, worlds, n - 1);
      var (w, e) := (worlds[n - 1], events[n - 1]);
      StepKeeps(o, w, e.op, e.ok, worlds[n]);
      KeptInv(o, w, e.op, e.ok, worlds[n]);
      OthersStay(o, w, e.op, e.ok, doc);
    }
  }

  /** So `get_document` of a document once written answers with what was written. */
  lemma WrittenDocumentIsRead(o: Oracles, events: seq<Event>, worlds: seq<World>, from: nat, n: nat)
    requires Sound(o) && History(o, events, worlds) && from < n <= |events|
    requires events[from].op.WriteDocument? && events[from].ok && worlds[from].valid && worlds[n].valid
    requires forall t | from < t < n :: events[t].op != Delete(worlds[from].live.docNextId)
    ensures var (doc, it) := (worlds[from].live.docNextId, events[from].op.document);
      doc in worlds[n].disk.documents
      && ResolvedDocument(worlds[n].live, worlds[n].disk.documents[doc]) == Some((it.input, it.metadata))
  {
    hide Inv, Step, Kept, Sound, ResolvedDocument;
    var doc := worlds[from].live.docNextId;
    HistoriesKeep(o, events, worlds, from);
    StepKeeps(o, worlds[from], events[from].op, events[from].ok, worlds[from + 1]);
    KeptInv(o, worlds[from], events[from].op, events[from].ok, worlds[from + 1]);
    DocumentsAreStable(o, events, worlds, doc, from + 1, n);
    HistoriesKeep(o, events, worlds, n);
    EveryDocumentResolves(o, worlds[n], doc);
  }

  /** Over every history in which each snapshot loaded holds the locations that have a
      list, the documents named in the posting lists are exactly the stored ones, and no
      list stays on a location removed. */
  lemma {:induction false} IndexStaysRight(o: Oracles, events: seq<Event>, worlds: seq<World>, n: nat)
    requires Sound(o) && History(o, events, worlds) && n <= |events| && PostingsRight(worlds[0].disk)
    requires forall t | 0 <= t < n :: HoldsLists(worlds[t], events[t].op, events[t].ok)
    ensures PostingsRight(worlds[n].disk)
  {
    hide Inv, Step, Kept, Sound, PostingsRight, HoldsLists;
    if n > 0 {
      IndexStaysRight(o, events, worlds, n - 1);
      HistoriesKeep(o, events, worlds, n - 1);
      StepKeeps(o, worlds[n - 1], events[n - 1].op, events[n - 1].ok, worlds[n]);
      KeptInv(o, worlds[n - 1], events[n - 1].op, events[n - 1].ok, worlds[n]);
    }
  }

  /** The first snapshot that leaves out a location with a list makes the index wrong. */
  lemma IndexGoesWrong(o: Oracles, events: seq<Event>, worlds: seq<World>, n: nat)
    requires Sound(o) && History(o, events, worlds) && n < |events| && PostingsRight(worlds[0].disk)
    requires forall t | 0 <= t < n :: HoldsLists(worlds[t], events[t].op, events[t].ok)
    ensures PostingsRight(worlds[n + 1].disk) <==> HoldsLists(worlds[n], events[n].op, events[n].ok)
  {
    hide Inv, Step, Kept, Sound, PostingsRight, HoldsLists;
    IndexStaysRight(o, events, worlds, n);
    HistoriesKeep(o, events, worlds, n);
    StepKeeps(o, worlds[n], events[n].op, events[n].ok, worlds[n + 1]);
    KeptInv(o, worlds[n], events[n].op, events[n].ok, worlds[n + 1]);
  }

  /** Event t may leave the store behind. */
  ghost predicate Straying(o: Oracles, events: seq<Event>, worlds: seq<World>, t: nat)
    requires t < |events| && t < |worlds|
  {
    worlds[t].valid && events[t].ok && MayGoStale(o, worlds[t].live, events[t].op)
  }

  /** Once in step with the store a collection stays so, over every history in which
      nothing close is merged and no batch of several patterns moves locations: whatever
      fails, and however often it is reopened. */
  lemma {:induction false} StaysInStep(o: Oracles, events: seq<Event>, worlds: seq<World>, from: nat, n: nat)
    requires Sound(o) && History(o, events, worlds) && from <= n <= |events|
    requires worlds[from].valid ==> InStep(worlds[from])
    requires forall t | from <= t < n :: !Straying(o, events, worlds, t)
    ensures worlds[n].valid ==> InStep(worlds[n])
  {
    hide Inv, Step, Kept, Sound, InStep, MayGoStale;
    if n > from {
      StaysInStep(o, events, worlds, from, n - 1);
      HistoriesKeep(o, events, worlds, n - 1);
      var (w, e) := (worlds[n - 1], events[n - 1]);
      assert !Straying(o, events, worlds, n - 1);
      StepKeeps(o, w, e.op, e.ok, worlds[n]);
      KeptInv(o, w, e.op, e.ok, worlds[n]);
      if !w.valid && worlds[n].valid {
        StaysOut(o, w, e.op, e.ok, worlds[n]);
      }
    }
  }

  /** Out of use, a collection stays out of use until it is reopened. */
  lemma StaysOut(o: Oracles, w: World, op: Operation, ok: bool, n: World)
    requires Sound(o) && Inv(o, w) && Step(o, w, op, ok, n) && !w.valid && n.valid
    ensures ok && op.Reopen?
  {
    hide Inv, Reloaded;
  }

  /** Over every history the caches are what a rebuild would make them, and serve the
      search of a write: the f32 rows are the addresses rounded, none longer than the
      bound kept. */
  lemma CachesStayRight(o: Oracles, events: seq<Event>, worlds: seq<World>, n: nat)
    requires Sound(o) && History(o, events, worlds) && n <= |events| && worlds[n].valid
    requires NormsCover(o, worlds[n].live.config.d)
    ensures CachesRight(o, worlds[n].live)
    ensures Scan.Copies(worlds[n].live.rows32, worlds[n].live.maxNorm, RowsOf(worlds[n].live.locations), o.to32)
  {
    hide Step, Sound, CachesRight, DiskOK;
    HistoriesKeep(o, events, worlds, n);
    CachesServeScans(o, worlds[n].live);
  }

  /** Being in step with the store is holding exactly the locations and the counters
      that a reload would bring back. */
  lemma InStepIsReload(o: Oracles, w: World, v: Live)
    requires Inv(o, w) && w.valid && Reloaded(o, w.live.config, w.disk, v)
    ensures InStep(w) <==>
      (forall loc :: loc in v.locations <==> loc in w.live.locations)
      && v.nextId == w.live.nextId && v.eta == w.live.eta && v.docNextId == w.live.docNextId
  {
    hide LiveOK, DiskOK, Reloaded, Docs;
    ReloadKeeps(o, w.live.config, w.disk, v, 0);
    SameContentMirrors(v.locations, w.live.locations, w.disk.locations);
  }

  lemma SameContentMirrors(a: seq<HardLocation>, b: seq<HardLocation>, m: map<nat, HardLocation>)
    requires Mirrors(a, m) && Aligned(b, m)
    ensures Mirrors(b, m) <==> forall loc :: loc in a <==> loc in b
  {
    if Mirrors(b, m) {
      forall loc ensures loc in a <==> loc in b {
        MirrorsHold(a, m, loc);
        MirrorsHold(b, m, loc);
      }
    }
    if forall loc :: loc in a <==> loc in b {
      forall x | 0 <= x < |b| ensures m[b[x].id] == b[x] {
        assert b[x] in b;
        MirrorsHold(a, m, b[x]);
      }
    }
  }

  lemma MirrorsHold(locs: seq<HardLocation>, m: map<nat, HardLocation>, loc: HardLocation)
    requires Mirrors(locs, m)
    ensures loc in locs <==> loc.id in m && m[loc.id] == loc
  {
    if loc.id in m && m[loc.id] == loc {
      assert loc.id in Ids(locs);
      var x :| 0 <= x < |locs| && Ids(locs)[x] == loc.id;
      assert m[locs[x].id] == locs[x];
    }
  }

  // ----- the beginning

  /** The random locations a collection starts with. */
  function Seeded(addresses: seq<Vec>): seq<HardLocation> {
    seq(|addresses|, x requires 0 <= x < |addresses| =>
      HardLocation(x, addresses[x], Zero(|addresses[x]|), 0.0, [], 0.0))
  }

  /** `new`: the collection just created, empty of documents. */
  ghost predicate Created(o: Oracles, c: Config, addresses: seq<Vec>, w: World) {
    var locs := Seeded(addresses);
    && w.live == Rebuilt(o, Live(c, locs, |locs|, c.eta0, 0, [], 0, [], [], [], 0.0))
    && w.disk == WithCounters(WithLocations(EMPTY, locs), |locs|, Some(c.eta0), None)
    && w.valid && w.version == 0
  }

  /** A new collection starts every history well. */
  lemma CreatedIsRight(o: Oracles, c: Config, addresses: seq<Vec>, w: World)
    requires Created(o, c, addresses, w) && forall x | 0 <= x < |addresses| :: |addresses[x]| == c.d
    ensures Inv(o, w) && InStep(w) && PostingsRight(w.disk) && Docs(w.disk) == map[]
  {
    hide Rebuilt, LiveOK, PutAll, Mirrors;
    var locs := Seeded(addresses);
    var v := Live(c, locs, |locs|, c.eta0, 0, [], 0, [], [], [], 0.0);
    assert forall x | 0 <= x < |locs| :: Ids(locs)[x] == x;
    RebuildKeepsLive(o, v);
    RebuildLeavesTheRest(o, v);
    PutAllMirrors(map[], locs);
    MirrorsAligned(locs, PutAll(map[], locs));
    PutAllKeyed(map[], locs, c.d, |locs|);
  }
}
