/** What the version of a collection tells its callers: whether a mutation came between. */
module Versions {
  import opened Wrappers
  import opened Locations
  import opened Live
  import opened LiveLaws
  import opened Store
  import opened Steps
  import opened Consistency
  import opened Documents
  import opened Upkeep
  import opened Postings
  import opened Batches
  import opened PlainBatches
  import opened Histories

  /** The operations that count. */
  predicate Counts(op: Operation) {
    op.Write? || op.WriteMany? || op.WriteDocument? || (op.WriteDocuments? && op.documents != []) || op.MergeAll? || op.LoadSnapshot?
  }

  /** Event t loaded the collection from its store. */
  predicate Reopening(e: Event) {
    e.op.Reopen? && e.ok
  }

  lemma FailureVersion(o: Oracles, w: World, n: World)
    requires Fails(o, w, n)
    ensures n.version == w.version || n.version == w.version + 1
  {
    hide Materialized, Reloaded;
  }

  lemma WriteVersion(o: Oracles, w: World, op: Operation, n: World)
    requires Sound(o) && Inv(o, w) && w.valid && Admitted(w.live.config, op) && Succeeds(o, w, op, n)
    requires op.Write? || op.WriteMany? || op.WriteDocument? || op.WriteDocuments?
    ensures n.version == w.version + if Counts(op) then 1 else 0
  {
    hide OutcomeAt, TakenOver, StoredBy, LiveOK, DiskOK, Docs, Sound, BatchOf, Gather, DocumentFor, Indexing, StoredBatch,
      Orders, InStep, IndexedUnder, WithDocuments, JoinedPostings;
    match op
    case Write(it) =>
      WroteKeeps(o, w, it);
    case WriteDocument(it) =>
      WroteDocumentKeeps(o, w, it);
    case _ =>
  }

  /** Every step but a reopening keeps the version or adds one, and adds one for every
      counted operation that succeeds. */
  lemma StepVersion(o: Oracles, w: World, op: Operation, ok: bool, n: World)
    requires Sound(o) && Inv(o, w) && Step(o, w, op, ok, n) && !(op.Reopen? && ok)
    ensures w.version <= n.version <= w.version + 1
    ensures w.valid && ok ==> n.version == w.version + if Counts(op) then 1 else 0
  {
    hide Inv, Fails, Admitted, Materialized, Rebuilt, Reloaded, Sound;
    if w.valid {
      if !ok {
        FailureVersion(o, w, n);
      } else if op.Write? || op.WriteMany? || op.WriteDocument? || op.WriteDocuments? {
        WriteVersion(o, w, op, n);
      }
    }
  }

  // ----- over a history

  /** The version never falls while the collection stays open, and when it is the same
      again no counted operation has succeeded in between. */
  lemma {:induction false} VersionTells(o: Oracles, events: seq<Event>, worlds: seq<World>, from: nat, n: nat)
    requires Sound(o) && History(o, events, worlds) && from <= n <= |events|
    requires forall t | from <= t < n :: !Reopening(events[t])
    ensures worlds[from].version <= worlds[n].version
    ensures worlds[from].version == worlds[n].version ==>
              forall t | from <= t < n :: worlds[t].valid && events[t].ok ==> !Counts(events[t].op)
  {
    hide Inv, Step, Sound, Counts;
    if n > from {
      VersionTells(o, events, worlds, from, n - 1);
      HistoriesKeep(o, events, worlds, n - 1);
      assert !Reopening(events[n - 1]);
      StepVersion(o, worlds[n - 1], events[n - 1].op, events[n - 1].ok, worlds[n]);
    }
  }

  /** So a snapshot load that expects the version read at `from` goes through only when no
      write, batch, merge or snapshot load has succeeded since: none is ever discarded. */
  lemma SnapshotDiscardsNothing(o: Oracles, events: seq<Event>, worlds: seq<World>, from: nat, n: nat)
    requires Sound(o) && History(o, events, worlds) && from <= n < |events|
    requires forall t | from <= t < n :: !Reopening(events[t])
    requires events[n].op.LoadSnapshot? && events[n].ok && worlds[n].valid
    requires events[n].op.expected == Some(worlds[from].version)
    ensures forall t | from <= t < n :: worlds[t].valid && events[t].ok ==> !Counts(events[t].op)
  {
    hide Inv, Sound, Counts, SnapshotLoaded;
    HistoriesKeep(o, events, worlds, n);
    VersionTells(o, events, worlds, from, n);
    assert Step(o, worlds[n], events[n].op, events[n].ok, worlds[n + 1]);
  }

  lemma {:induction false} PutAllSame(m: map<nat, HardLocation>, locs: seq<HardLocation>)
    requires forall x | 0 <= x < |locs| :: locs[x].id in m && m[locs[x].id] == locs[x]
    ensures PutAll(m, locs) == m
  {
    if locs != [] {
      PutAllSame(m, locs[..|locs| - 1]);
    }
  }

  /** A step that counts nothing and compresses nothing leaves the stored locations, when
      they agree with the memory that a flush would store. */
  lemma StepLocations(o: Oracles, w: World, op: Operation, ok: bool, n: World)
    requires Sound(o) && Inv(o, w) && Step(o, w, op, ok, n) && (w.valid ==> InStep(w))
    requires w.valid && ok ==> !Counts(op) && !op.CompressAll?
    ensures n.disk.locations == w.disk.locations
  {
    hide Inv, Materialized, Rebuilt, Reloaded, Sound, PutAll, Scrubbed;
    if w.valid && ok && op.Flush? {
      PutAllSame(w.disk.locations, w.live.locations);
    }
    if w.valid && !ok {
      FailureLocations(o, w, n);
    }
  }

  lemma FailureLocations(o: Oracles, w: World, n: World)
    requires Fails(o, w, n)
    ensures n.disk.locations == w.disk.locations
  {
    hide Reloaded, Inlined;
  }

  /** Between two readings of the same version the stored locations are changed by
      compressions alone. */
  lemma {:induction false} SameVersionSameLocations(o: Oracles, events: seq<Event>, worlds: seq<World>, from: nat, n: nat)
    requires Sound(o) && History(o, events, worlds) && from <= n <= |events| && worlds[from].version == worlds[n].version
    requires forall t | from <= t < n :: !Reopening(events[t]) && (worlds[t].valid && events[t].ok ==> !events[t].op.CompressAll?)
    requires worlds[from].valid ==> InStep(worlds[from])
    ensures worlds[n].disk.locations == worlds[from].disk.locations
    ensures worlds[n].valid ==> InStep(worlds[n])
  {
    hide Inv, Step, Sound, InStep;
    if n > from {
      assert !Reopening(events[n - 1]);
      VersionTells(o, events, worlds, from, n - 1);
      HistoriesKeep(o, events, worlds, n - 1);
      StepVersion(o, worlds[n - 1], events[n - 1].op, events[n - 1].ok, worlds[n]);
      VersionTells(o, events, worlds, from, n);
      SameVersionSameLocations(o, events, worlds, from, n - 1);
      forall t | from <= t < n ensures !Straying(o, events, worlds, t) {
        assert worlds[t].valid && events[t].ok ==> !Counts(events[t].op);
      }
      StaysInStep(o, events, worlds, from, n);
      StaysInStep(o, events, worlds, from, n - 1);
      StepLocations(o, worlds[n - 1], events[n - 1].op, events[n - 1].ok, worlds[n]);
    }
  }
}
