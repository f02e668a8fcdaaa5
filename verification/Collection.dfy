/** collection.rs as it runs: each operation changes the memory, then the store in one
    transaction; any call of the store may fail, and an abandoned mutation reloads. */
module Collection {
  import opened Wrappers
  import opened Vectors
  import opened Locations
  import opened Live
  import opened Steps
  import opened Consistency
  import opened Documents
  import opened Histories
  import opened Gathering
  import opened Rehoming
  import opened Opening
  import LiveLaws
  import Batches
  import Compress
  import CompressLaws
  import Merge
  import MergeLaws
  import Nearest
  import PlainBatches
  import Store
  import Upkeep
  import Write
  import WriteLaws

  datatype Error = OutOfUse | Invalid | DimensionMismatch(expected: nat, got: nat) | Storage | Conflict | Corrupt

  class Collection {
    const o: Oracles
    const sqrt: real -> real
    const store: Store.Store
    var inner: Inner

    ghost function View(): World
      reads this, inner, store
    {
      World(inner.Contents(), store.disk, inner.valid, inner.version)
    }

    ghost predicate Ready()
      reads this, inner, store
    {
      Sound(o) && Merge.NormIsRoot(o) && SquareRoot(sqrt) && Inv(o, View())
    }

    constructor (o: Oracles, sqrt: real -> real, store: Store.Store, inner: Inner)
      ensures this.o == o && this.sqrt == sqrt && this.store == store && this.inner == inner
    {
      this.o, this.sqrt, this.store, this.inner := o, sqrt, store, inner;
    }

    /** Who is to blame: an operation that succeeds met no fault of the store; one that
        fails on storage met one; and the collection goes out of use only when the
        reload met another. */
    twostate predicate Blamed(ok: bool, storage: bool)
      reads this, inner, store
    {
      && (ok ==> store.faults == old(store.faults))
      && (storage ==> store.faults > old(store.faults))
      && (old(inner.valid) && !inner.valid ==> store.faults >= old(store.faults) + 2)
    }

    // ----- loading and recovery

    /** The drop of an abandoned mutation: reload what was last committed, or put the
        collection out of use. */
    method Recover()
      requires DiskOK(inner.config, store.disk)
      modifies this, inner, store`faults
      ensures inner == old(inner) || fresh(inner)
      ensures store.Answered(inner.valid)
      ensures inner.config == old(inner.config) && inner.version == old(inner.version)
      ensures inner.valid ==> Reloaded(o, old(inner.config), store.disk, inner.Contents())
    {
      var version := inner.version;
      var loaded := LoadInner(o, store, inner.config);
      if loaded.Some? {
        inner := loaded.value;
        inner.version := version;
      } else {
        inner.valid := false;
        StoredFit(inner.config, store.disk);
      }
    }

    // ----- writing

    /** The locations a write created join the others, and the caches follow. */
    method Append(created: seq<HardLocation>)
      modifies inner
      ensures var v := old(inner.Contents());
        inner.Contents() == if created == [] then v
                            else Appended(o, v.(locations := v.locations + created), |v.locations|)
      ensures inner.valid == old(inner.valid) && inner.version == old(inner.version)
    {
      if created != [] {
        var start := |inner.locations|;
        inner.locations := inner.locations + created;
        inner.ExtendIdLookup(start);
        inner.AppendAddresses(o, start);
      }
    }

    /** The adaptive write of one item, up to what the caches are told of. */
    method Adapt(it: Item) returns (out: Write.Outcome)
      requires Sound(o)
      modifies inner
      ensures out == OutcomeAt(o, old(inner.Contents()), it)
      ensures inner.Contents() == old(inner.Contents()).(locations := out.locations, nextId := out.nextId, eta := out.eta)
      ensures inner.valid == old(inner.valid) && inner.version == old(inner.version)
    {
      hide Write.Adaptive;
      out := Write.AdaptiveWriteTwo(o, InputAt(inner.Contents(), it));
      inner.locations, inner.nextId, inner.eta := out.locations, out.nextId, out.eta;
    }

    /** What `write_two` does once it holds the lock. */
    method WriteLocked(it: Item) returns (ok: bool)
      requires Sound(o) && LiveLaws.LiveOK(o, inner.Contents())
      requires |it.address| == |it.counter| == inner.config.d
      modifies inner, store
      ensures HasRows(old(inner.Contents())) && InBounds(old(inner.Contents()), OutcomeAt(o, old(inner.Contents()), it))
      ensures inner.valid == old(inner.valid)
      ensures ok ==> View() == Wrote(o, old(View()), it)
      ensures store.Answered(ok)
      ensures !ok ==> store.disk == old(store.disk) && inner.config == old(inner.config)
                      && inner.version == old(inner.version) + 1
    {
      hide Sound, LiveLaws.LiveOK, OutcomeAt, Synced, Appended;
      ghost var v := inner.Contents();
      LiveLaws.WriteKeepsLive(o, v, it);
      LiveHasRows(o, v);
      inner.version := inner.version + 1;
      var out := Adapt(it);
      ok := StoreWrite(out, inner.nextId, inner.eta);
      if ok {
        inner.SyncAddresses(o, out.modified);
        Append(out.created);
      }
    }

    /** The transaction of a write. */
    method StoreWrite(out: Write.Outcome, nextId: nat, eta: real) returns (ok: bool)
      requires forall t | 0 <= t < |out.modified| :: out.modified[t] < |out.locations|
      modifies store
      ensures store.Answered(ok)
      ensures store.disk == if ok then Store.WithCounters(StoredBy(old(store.disk), out), nextId, Some(eta), None)
                            else old(store.disk)
    {
      hide Store.PutAll;
      var txn := store.Begin();
      if txn.None? {
        return false;
      }
      ok := txn.value.PutLocations(Picked(out.locations, out.modified));
      if ok {
        ok := txn.value.PutLocations(out.created);
      }
      if ok {
        ok := txn.value.PutCounters(nextId, Some(eta), None);
      }
      if ok {
        ok := store.Commit(txn.value);
      }
    }

    /** `write_two`; `write` is the case of equal vectors and default options. */
    method WriteTwo(address: Vec, counter: Vec, opts: Write.Opts, direction: Vec) returns (r: Result<(), Error>)
      requires Ready()
      modifies this, inner, store
      ensures Ready() && (inner == old(inner) || fresh(inner))
      ensures Step(o, old(View()), Operation.Write(Item(address, counter, opts, direction)), r.Success?, View())
      ensures !old(inner.valid) ==> r == Failure(OutOfUse)
      ensures old(inner.valid) && (|address| != old(inner.config.d) || |counter| != old(inner.config.d)) ==>
                r.Failure? && r.error.DimensionMismatch? && View() == old(View())
      ensures Blamed(r.Success?, r == Failure(Storage))
      ensures old(inner.valid) && |address| == |counter| == old(inner.config.d) ==> r.Success? || r == Failure(Storage)
    {
      hide Inv, Sound, LiveLaws.LiveOK, DiskOK, Wrote, Reloaded;
      ghost var w := View();
      var it := Item(address, counter, opts, direction);
      if !inner.valid {
        return Failure(OutOfUse);
      }
      if |address| != inner.config.d || |counter| != inner.config.d {
        return Failure(DimensionMismatch(inner.config.d, if |address| != inner.config.d then |address| else |counter|));
      }
      InvGives(o, w);
      var ok := WriteLocked(it);
      if ok {
        r := Success(());
      } else {
        Recover();
        r := Failure(Storage);
        assert Failed(o, w, w.disk, true, w.version + 1, View());
      }
      Settles(o, w, Operation.Write(it), ok, View());
    }

    /** What `write_with_metadata` does once it holds the lock. */
    method WriteDocumentLocked(it: DocumentItem) returns (ok: bool)
      requires Sound(o) && LiveLaws.LiveOK(o, inner.Contents()) && |it.input| == inner.config.d
      modifies inner, store
      ensures HasRows(old(inner.Contents()))
      ensures InBounds(old(inner.Contents()), OutcomeAt(o, old(inner.Contents()), PlainItem(it)))
      ensures inner.valid == old(inner.valid)
      ensures ok ==> View() == WroteDocument(o, old(View()), it)
      ensures store.Answered(ok)
      ensures !ok ==> store.disk == old(store.disk) && inner.config == old(inner.config)
                      && inner.version == old(inner.version) + 1
    {
      hide Sound, LiveLaws.LiveOK, OutcomeAt, Synced, Appended, DocumentFor, IndexedUnder, Store.Indexing;
      ghost var v := inner.Contents();
      LiveLaws.WriteKeepsLive(o, v, PlainItem(it));
      LiveHasRows(o, v);
      inner.version := inner.version + 1;
      var out := Adapt(PlainItem(it));
      var doc := inner.docNextId;
      inner.docNextId := doc + 1;
      ok := StoreDocument(out, doc, DocumentFor(inner.config, out, it.input, it.metadata), inner.nextId, inner.eta);
      if ok {
        inner.SyncAddresses(o, out.modified);
        Append(out.created);
        CountLast(o, v, out, doc + 1);
      }
    }

    /** The transaction of a document write. */
    method StoreDocument(out: Write.Outcome, doc: nat, data: Store.Document, nextId: nat, eta: real) returns (ok: bool)
      requires forall t | 0 <= t < |out.modified| :: out.modified[t] < |out.locations|
      modifies store
      ensures store.Answered(ok)
      ensures store.disk ==
        if ok then
          Store.WithCounters(Store.Indexing(WithDocument(StoredBy(old(store.disk), out), doc, data), IndexedUnder(out), doc),
                             nextId, Some(eta), Some(doc + 1))
        else old(store.disk)
    {
      hide Store.PutAll, Store.Indexing;
      var txn := store.Begin();
      if txn.None? {
        return false;
      }
      ok := txn.value.PutLocations(Picked(out.locations, out.modified));
      if ok {
        ok := txn.value.PutLocations(out.created);
      }
      if ok {
        ok := txn.value.PutDocument(doc, data);
      }
      if ok {
        ok := txn.value.AppendDoc(IndexedUnder(out), doc);
      }
      if ok {
        ok := txn.value.PutCounters(nextId, Some(eta), Some(doc + 1));
      }
      if ok {
        ok := store.Commit(txn.value);
      }
    }

    /** `write_with_metadata`: the id of the document. */
    method WriteWithMetadata(it: DocumentItem) returns (r: Result<nat, Error>)
      requires Ready()
      modifies this, inner, store
      ensures Ready() && (inner == old(inner) || fresh(inner))
      ensures Step(o, old(View()), WriteDocument(it), r.Success?, View())
      ensures r.Success? ==> r.value == old(inner.docNextId)
      ensures !old(inner.valid) ==> r == Failure(OutOfUse)
      ensures old(inner.valid) && |it.input| != old(inner.config.d) ==>
                r.Failure? && r.error.DimensionMismatch? && View() == old(View())
      ensures Blamed(r.Success?, r == Failure(Storage))
      ensures old(inner.valid) && |it.input| == old(inner.config.d) ==> r.Success? || r == Failure(Storage)
    {
      hide Inv, Sound, LiveLaws.LiveOK, DiskOK, WroteDocument, Reloaded;
      ghost var w := View();
      if !inner.valid {
        return Failure(OutOfUse);
      }
      if |it.input| != inner.config.d {
        return Failure(DimensionMismatch(inner.config.d, |it.input|));
      }
      InvGives(o, w);
      var doc := inner.docNextId;
      var ok := WriteDocumentLocked(it);
      if ok {
        r := Success(doc);
      } else {
        Recover();
        r := Failure(Storage);
        assert Failed(o, w, w.disk, true, w.version + 1, View());
      }
      Settles(o, w, WriteDocument(it), ok, View());
    }

    // ----- batches

    /** One write of a batch: the caches follow at once. */
    method WriteInBatch(it: Item) returns (out: Write.Outcome)
      requires Sound(o) && LiveLaws.LiveOK(o, inner.Contents()) && |it.address| == |it.counter| == inner.config.d
      modifies inner
      ensures HasRows(old(inner.Contents())) && InBounds(old(inner.Contents()), OutcomeAt(o, old(inner.Contents()), it))
      ensures out == OutcomeAt(o, old(inner.Contents()), it)
      ensures inner.Contents() == TakenOver(o, old(inner.Contents()), out)
      ensures LiveLaws.LiveOK(o, inner.Contents()) && inner.docNextId == old(inner.docNextId)
      ensures inner.valid == old(inner.valid) && inner.version == old(inner.version) && inner.config == old(inner.config)
    {
      hide Sound, LiveLaws.LiveOK, OutcomeAt, Synced, Appended;
      LiveLaws.WriteKeepsLive(o, inner.Contents(), it);
      LiveHasRows(o, inner.Contents());
      out := Adapt(it);
      inner.SyncAddresses(o, out.modified);
      Append(out.created);
    }

    /** The writes of a `write_batch`, and what it gathers to store. */
    method GatherBatch(items: seq<Item>) returns (modified: set<nat>, clones: seq<HardLocation>)
      requires Sound(o) && LiveLaws.LiveOK(o, inner.Contents()) && PlainBatches.ItemsFit(inner.config, items)
      modifies inner
      ensures PlainBatches.Batch(inner.Contents(), modified, clones) == PlainBatches.BatchOf(o, old(inner.Contents()), items)
      ensures inner.valid == old(inner.valid) && inner.version == old(inner.version) && inner.config == old(inner.config)
    {
      hide Sound, LiveLaws.LiveOK, OutcomeAt, TakenOver, PlainBatches.BatchOf;
      ghost var v := inner.Contents();
      modified, clones := {}, [];
      NoBatch(o, v, items[..0]);
      for t := 0 to |items|
        invariant LiveLaws.LiveOK(o, inner.Contents()) && inner.config == v.config
        invariant PlainBatches.Batch(inner.Contents(), modified, clones) == PlainBatches.BatchOf(o, v, items[..t])
        invariant inner.valid == old(inner.valid) && inner.version == old(inner.version)
      {
        assert items[..t + 1][..t] == items[..t];
        PlainBatches.BatchNext(o, v, items[..t + 1]);
        var out := WriteInBatch(items[t]);
        modified := modified + (set k | 0 <= k < |out.modified| :: out.modified[k]);
        clones := clones + out.created;
      }
      assert items[..|items|] == items;
    }

    method StoreBatch(modified: set<nat>, clones: seq<HardLocation>) returns (ok: bool, ghost order: seq<nat>)
      requires forall x | x in modified :: x < |inner.locations|
      modifies store
      ensures store.Answered(ok)
      ensures Batches.Orders(order, modified) && forall t | 0 <= t < |order| :: order[t] < |inner.locations|
      ensures store.disk ==
        if ok then
          Store.WithCounters(PlainBatches.StoredBatch(old(store.disk), inner.locations, order, clones), inner.nextId,
                             Some(inner.eta), None)
        else old(store.disk)
    {
      hide Store.PutAll;
      var listed := Elements(modified);
      order := listed;
      assert forall t | 0 <= t < |order| :: order[t] in order;
      var txn := store.Begin();
      if txn.None? {
        return false, order;
      }
      ok := txn.value.PutLocations(Picked(inner.locations, listed));
      if ok {
        ok := txn.value.PutLocations(clones);
      }
      if ok {
        ok := txn.value.PutCounters(inner.nextId, Some(inner.eta), None);
      }
      if ok {
        ok := store.Commit(txn.value);
      }
    }

    /** `write_batch`, each input as its own address and counter. */
    method WriteBatch(inputs: seq<Vec>, directions: seq<Vec>) returns (r: Result<(), Error>)
      requires Ready() && |directions| == |inputs|
      modifies this, inner, store
      ensures Ready() && (inner == old(inner) || fresh(inner))
      ensures Step(o, old(View()), WriteMany(ItemsOf(inputs, directions)), r.Success?, View())
      ensures !old(inner.valid) ==> r == Failure(OutOfUse)
      ensures Blamed(r.Success?, r == Failure(Storage))
      ensures old(inner.valid) && (forall t | 0 <= t < |inputs| :: |inputs[t]| == old(inner.config.d)) ==> r.Success? || r == Failure(Storage)
    {
      hide Inv, Sound, LiveLaws.LiveOK, DiskOK, PlainBatches.BatchOf, Reloaded, ItemsOf;
      ghost var w := View();
      var items := ItemsOf(inputs, directions);
      if !inner.valid {
        return Failure(OutOfUse);
      }
      var misfit := FirstMisfit(inputs, inner.config.d);
      if misfit.Some? {
        return Failure(DimensionMismatch(inner.config.d, misfit.value));
      }
      InvGives(o, w);
      ItemsOfFit(inputs, directions, inner.config);
      inner.version := inner.version + 1;
      var modified, clones := GatherBatch(items);
      BatchInRange(o, w.live, items);
      var ok, order := StoreBatch(modified, clones);
      if ok {
        r := Success(());
        assert View() == PlainBatches.WroteBatch(w, PlainBatches.BatchOf(o, w.live, items), order);
      } else {
        Recover();
        r := Failure(Storage);
        assert Failed(o, w, w.disk, true, w.version + 1, View());
      }
      Settles(o, w, WriteMany(items), ok, View());
    }

    /** The writes of a `write_batch_with_metadata`, and what it gathers to store. */
    method GatherDocuments(items: seq<DocumentItem>)
      returns (touched: set<nat>, postings: map<nat, seq<nat>>, documents: seq<(nat, Store.Document)>)
      requires Sound(o) && LiveLaws.LiveOK(o, inner.Contents()) && Batches.Fits(inner.config, items)
      modifies inner
      ensures Batches.Gathered(inner.Contents(), touched, postings, documents) == Batches.Gather(o, old(inner.Contents()), items)
      ensures inner.valid == old(inner.valid) && inner.version == old(inner.version) && inner.config == old(inner.config)
    {
      hide Sound, LiveLaws.LiveOK, OutcomeAt, TakenOver, Batches.Gather, Batches.Pushed, DocumentFor, IndexedUnder,
        Batches.NowTouched;
      ghost var v := inner.Contents();
      touched, postings, documents := {}, map[], [];
      NoDocuments(o, v, items[..0]);
      for t := 0 to |items|
        invariant LiveLaws.LiveOK(o, inner.Contents()) && inner.config == v.config
        invariant Batches.Gathered(inner.Contents(), touched, postings, documents) == Batches.Gather(o, v, items[..t])
        invariant inner.valid == old(inner.valid) && inner.version == old(inner.version)
      {
        assert items[..t + 1][..t] == items[..t];
        GatherNext(o, v, items[..t + 1]);
        var out := WriteInBatch(PlainItem(items[t]));
        var doc := inner.docNextId;
        CountIsLive(o, inner.Contents(), doc + 1);
        inner.docNextId := doc + 1;
        documents := documents + [(doc, DocumentFor(inner.config, out, items[t].input, items[t].metadata))];
        touched := Touch(touched, out);
        postings := Push(postings, IndexedUnder(out), doc);
      }
      assert items[..|items|] == items;
    }

    method StoreDocuments(touched: set<nat>, postings: map<nat, seq<nat>>, documents: seq<(nat, Store.Document)>)
      returns (ok: bool, ghost order: seq<nat>)
      requires forall x | x in touched :: x < |inner.locations|
      requires forall l | l in postings :: postings[l] != []
      modifies store
      ensures store.Answered(ok)
      ensures Batches.Orders(order, touched) && forall t | 0 <= t < |order| :: order[t] < |inner.locations|
      ensures store.disk ==
        if ok then
          var d := Batches.WithDocuments(Store.WithLocations(old(store.disk), Picked(inner.locations, order)), documents);
          Store.WithCounters(d.(postings := Batches.JoinedPostings(d.postings, postings)), inner.nextId, Some(inner.eta),
                             Some(inner.docNextId))
        else old(store.disk)
    {
      hide Store.PutAll, Batches.JoinedPostings, Batches.WithDocuments;
      var listed := Elements(touched);
      order := listed;
      assert forall t | 0 <= t < |order| :: order[t] in order;
      var txn := store.Begin();
      if txn.None? {
        return false, order;
      }
      ok := txn.value.PutLocations(Picked(inner.locations, listed));
      if ok {
        ok := PutDocuments(txn.value, documents);
      }
      if ok {
        ok := AppendAll(txn.value, postings);
      }
      if ok {
        ok := txn.value.PutCounters(inner.nextId, Some(inner.eta), Some(inner.docNextId));
      }
      if ok {
        ok := store.Commit(txn.value);
      }
    }

    /** `write_batch_with_metadata`: the ids of the documents, in order. */
    method WriteBatchWithMetadata(items: seq<DocumentItem>) returns (r: Result<seq<nat>, Error>)
      requires Ready()
      modifies this, inner, store
      ensures Ready() && (inner == old(inner) || fresh(inner))
      ensures Step(o, old(View()), WriteDocuments(items), r.Success?, View())
      ensures r.Success? ==> |r.value| == |items| && forall t | 0 <= t < |items| :: r.value[t] == old(inner.docNextId) + t
      ensures !old(inner.valid) ==> r == Failure(OutOfUse)
      ensures Blamed(r.Success?, r == Failure(Storage))
      ensures old(inner.valid) && Batches.Fits(old(inner.config), items) ==> r.Success? || r == Failure(Storage)
    {
      hide Inv, Sound, LiveLaws.LiveOK, DiskOK, Batches.Gather, Reloaded;
      ghost var w := View();
      if !inner.valid {
        return Failure(OutOfUse);
      }
      var misfit := FirstMisfit(InputsOf(items), inner.config.d);
      if misfit.Some? {
        return Failure(DimensionMismatch(inner.config.d, misfit.value));
      }
      if items == [] {
        return Success([]);
      }
      InvGives(o, w);
      InputsFit(items, inner.config);
      inner.version := inner.version + 1;
      var touched, postings, documents := GatherDocuments(items);
      GatheredWell(o, w.live, items);
      Batches.BatchIds(o, w.live, items);
      var ok, order := StoreDocuments(touched, postings, documents);
      if ok {
        r := Success(seq(|documents|, t requires 0 <= t < |documents| => documents[t].0));
        assert View() == Batches.WroteTogether(w, Batches.Gather(o, w.live, items), order);
      } else {
        Recover();
        r := Failure(Storage);
        assert Failed(o, w, w.disk, true, w.version + 1, View());
      }
      Settles(o, w, WriteDocuments(items), ok, View());
    }

    // ----- documents

    /** `get_document`: what the id stands for, or that there is no such document. */
    method GetDocument(doc: nat) returns (r: Result<Option<(Vec, Store.Metadata)>, Error>)
      requires Ready()
      modifies store`faults
      ensures store.Answered(r != Failure(Storage)) && (r.Success? || r == Failure(Storage) || (!inner.valid && r == Failure(OutOfUse)))
      ensures r.Success? ==> r.value == if doc in Docs(store.disk) then Some(Docs(store.disk)[doc]) else None
      ensures r != Failure(Corrupt)
    {
      hide Sound, LiveLaws.LiveOK, DiskOK, ResolvedDocument;
      var found := store.GetDocument(doc);
      if found.Failure? {
        return Failure(Storage);
      }
      if found.value.None? {
        return Success(None);
      }
      if !inner.valid {
        return Failure(OutOfUse);
      }
      Upkeep.EveryDocumentResolves(o, View(), doc);
      var resolved := ResolvedDocument(inner.Contents(), found.value.value);
      r := if resolved.Some? then Success(resolved) else Failure(Corrupt);
    }

    /** `delete_document`: whether it existed. */
    method DeleteDocument(doc: nat) returns (r: Result<bool, Error>)
      requires Ready()
      modifies store
      ensures Ready() && Step(o, old(View()), Delete(doc), r.Success?, View())
      ensures r.Success? ==> r.value == (doc in Docs(old(store.disk)))
      ensures !inner.valid ==> r == Failure(OutOfUse)
      ensures Blamed(r.Success?, r == Failure(Storage))
      ensures old(inner.valid) ==> r.Success? || r == Failure(Storage)
    {
      hide Inv, Sound, Store.Deleting;
      ghost var w := View();
      if !inner.valid {
        return Failure(OutOfUse);
      }
      var txn := store.Begin();
      if txn.None? {
        return Failure(Storage);
      }
      var ok, existed := Store.DeleteDocument(txn.value, doc);
      if ok {
        ok := store.Commit(txn.value);
      }
      r := if ok then Success(existed) else Failure(Storage);
      Settles(o, w, Delete(doc), ok, View());
    }

    /** `flush`. */
    method FlushAll() returns (r: Result<(), Error>)
      requires Ready()
      modifies store
      ensures Ready() && Step(o, old(View()), Flush, r.Success?, View())
      ensures !inner.valid ==> r == Failure(OutOfUse)
      ensures Blamed(r.Success?, r == Failure(Storage))
      ensures old(inner.valid) ==> r.Success? || r == Failure(Storage)
    {
      hide Inv, Sound, Store.PutAll;
      ghost var w := View();
      if !inner.valid {
        return Failure(OutOfUse);
      }
      var txn := store.Begin();
      if txn.None? {
        return Failure(Storage);
      }
      var ok := txn.value.PutLocations(inner.locations);
      if ok {
        ok := txn.value.PutCounters(inner.nextId, Some(inner.eta), None);
      }
      if ok {
        ok := store.Commit(txn.value);
      }
      r := if ok then Success(()) else Failure(Storage);
      Settles(o, w, Flush, ok, View());
    }

    /** `materialize_document_refs`, in a transaction of its own. */
    method MaterializeRefs() returns (ok: bool)
      modifies store
      ensures store.Answered(ok)
      ensures store.disk == if ok then Materialized(inner.Contents(), old(store.disk)) else old(store.disk)
    {
      hide ResolvedDocument;
      var listed := store.ListDocuments();
      if listed.None? {
        return false;
      }
      var rewritten := Rewrites(inner.Contents(), listed.value);
      if rewritten == map[] {
        NothingRewritten(inner.Contents(), store.disk, rewritten);
        return true;
      }
      var txn := store.Begin();
      if txn.None? {
        return false;
      }
      ok := PutRewritten(txn.value, inner.Contents(), rewritten);
      if ok {
        ok := store.Commit(txn.value);
      }
    }

    // ----- merging

    /** What `merge` does once documents have their own vectors. */
    method MergeLocked(start: seq<Vec>) returns (ok: bool, merges: nat)
      requires Sound(o) && Merge.NormIsRoot(o) && SquareRoot(sqrt)
      requires LiveLaws.Sized(inner.locations, inner.config.d) && Nearest.Rows(start, inner.config.d)
      modifies inner, store
      ensures ok ==> Merging(o, old(View()), View())
      ensures ok ==> merges == |Merge.Merged(o, old(inner.config), old(inner.locations)).removed|
      ensures store.Answered(ok)
      ensures !ok ==> store.disk == old(store.disk) && inner.config == old(inner.config)
                      && inner.version == old(inner.version) + 1
    {
      hide Sound, Merge.Merged, Rebuilt;
      inner.version := inner.version + 1;
      var r := Merge.KnnMerge(o, inner.config, inner.locations, start, sqrt);
      inner.locations := r.locations;
      merges := |r.removed|;
      ok := true;
      if r.removed != [] {
        ok := StoreMerge(r.chain, r.removed);
        if ok {
          inner.RebuildGraphCache(o);
        }
      }
    }

    /** The transaction of a merge. */
    method StoreMerge(chain: seq<(nat, nat)>, removed: seq<nat>) returns (ok: bool)
      modifies store
      ensures store.Answered(ok)
      ensures store.disk == if ok then Store.WithoutLocations(MovedAlong(old(store.disk), chain), removed) else old(store.disk)
    {
      hide Store.DropAll;
      var txn := store.Begin();
      if txn.None? {
        return false;
      }
      ok := MovePostings(txn.value, chain);
      if ok {
        ok := txn.value.DeleteLocations(removed);
      }
      if ok {
        ok := store.Commit(txn.value);
      }
    }

    /** `merge`: how many locations were merged away. `start` is the random start of
        the neighbour search. */
    method MergeSimilar(start: seq<Vec>) returns (r: Result<nat, Error>)
      requires Ready() && Nearest.Rows(start, inner.config.d)
      modifies this, inner, store
      ensures Ready() && (inner == old(inner) || fresh(inner))
      ensures Step(o, old(View()), MergeAll, r.Success?, View())
      ensures r.Success? ==> r.value == |Merge.Merged(o, old(inner.config), old(inner.locations)).removed|
      ensures !old(inner.valid) ==> r == Failure(OutOfUse)
      ensures Blamed(r.Success?, r == Failure(Storage))
      ensures old(inner.valid) ==> r.Success? || r == Failure(Storage)
    {
      hide Inv, Sound, DiskOK, Reloaded, Materialized, Merge.Merged, Rebuilt, CachesRight;
      ghost var w := View();
      if !inner.valid {
        return Failure(OutOfUse);
      }
      InvGives(o, w);
      var ok := MaterializeRefs();
      if !ok {
        return Failure(Storage);
      }
      var merges;
      ok, merges := MergeLocked(start);
      if ok {
        r := Success(merges);
      } else {
        Upkeep.MaterializedOK(o, w);
        Recover();
        r := Failure(Storage);
        assert Failed(o, w, Materialized(w.live, w.disk), true, w.version + 1, View());
      }
      Settles(o, w, MergeAll, ok, View());
    }

    // ----- compressing

    /** What `compress` does once documents have their own vectors; `dirty` tells
        whether it changed the memory. */
    method CompressLocked(kappa: real, costWeight: real) returns (ok: bool, dirty: bool)
      requires LiveLaws.LiveOK(o, inner.Contents())
      modifies inner, store
      ensures ok ==> Compressing(o, old(View()), kappa, costWeight, View())
      ensures store.Answered(ok)
      ensures !ok ==> store.disk == old(store.disk) && inner.config == old(inner.config) && inner.version == old(inner.version)
      ensures !ok ==> dirty
    {
      hide Compress.Compressed, Rebuilt, CachesRight, Store.PutAll;
      var total := TotalWrites(inner.locations);
      var locations, chain := Compress.CompressLoop(o, kappa, costWeight, total, inner.locations);
      CompressLaws.CompressIsChained(o, kappa, costWeight, total, inner.locations);
      dirty := chain != [];
      ok := true;
      if dirty {
        inner.locations := locations;
        ok := StoreCompressed(chain, locations);
        if ok {
          inner.RebuildGraphCache(o);
        }
      }
    }

    /** The transaction of a compression. */
    method StoreCompressed(chain: seq<(nat, nat)>, locations: seq<HardLocation>) returns (ok: bool)
      requires MergeLaws.Chained(chain)
      modifies store
      ensures store.Answered(ok)
      ensures store.disk == if ok then Store.WithLocations(Retired(old(store.disk), chain, |chain|), locations)
                            else old(store.disk)
    {
      hide Store.PutAll, Retired;
      var txn := store.Begin();
      if txn.None? {
        return false;
      }
      ok := RetireAll(txn.value, chain);
      if ok {
        ok := txn.value.PutLocations(locations);
      }
      if ok {
        ok := store.Commit(txn.value);
      }
    }

    /** `compress`: the locations before and after, and how many merges it made. */
    method CompressAllLocations(kappa: real, costWeight: real) returns (r: Result<(nat, nat), Error>)
      requires Ready()
      modifies this, inner, store
      ensures Ready() && (inner == old(inner) || fresh(inner))
      ensures Step(o, old(View()), CompressAll(kappa, costWeight), r.Success?, View())
      ensures r.Success? ==> r.value == (|old(inner.locations)|, |inner.locations|)
      ensures !old(inner.valid) ==> r == Failure(OutOfUse)
      ensures Blamed(r.Success?, r == Failure(Storage))
      ensures old(inner.valid) ==> r.Success? || r == Failure(Storage)
    {
      hide Inv, Sound, DiskOK, Reloaded, Materialized, Compress.Compressed, Rebuilt, CachesRight, LiveLaws.LiveOK, TotalWrites;
      ghost var w := View();
      if !inner.valid {
        return Failure(OutOfUse);
      }
      InvGives(o, w);
      var before := |inner.locations|;
      var ok := MaterializeRefs();
      if !ok {
        return Failure(Storage);
      }
      var dirty;
      ok, dirty := CompressLocked(kappa, costWeight);
      if ok {
        r := Success((before, |inner.locations|));
      } else {
        Upkeep.MaterializedOK(o, w);
        Recover();
        r := Failure(Storage);
        assert Failed(o, w, Materialized(w.live, w.disk), true, w.version, View());
      }
      Settles(o, w, CompressAll(kappa, costWeight), ok, View());
    }

    // ----- snapshots

    /** The transaction of a snapshot load. */
    method StoreSnapshot(locs: seq<HardLocation>, nextId: nat) returns (ok: bool)
      modifies store
      ensures store.Answered(ok)
      ensures store.disk ==
        if ok then
          Store.WithCounters(Store.WithLocations(Store.WithoutLocations(old(store.disk), Ids(inner.locations)), locs), nextId,
                             None, None)
        else old(store.disk)
    {
      hide Store.PutAll, Store.DropAll;
      var txn := store.Begin();
      if txn.None? {
        return false;
      }
      ok := txn.value.DeleteLocations(Ids(inner.locations));
      if ok {
        ok := txn.value.PutLocations(locs);
      }
      if ok {
        ok := txn.value.PutCounters(nextId, None, None);
      }
      if ok {
        ok := store.Commit(txn.value);
      }
    }

    /** What `load_snapshot_checked` does once documents have their own vectors. */
    method SnapshotLocked(locs: seq<HardLocation>, c: Config) returns (ok: bool)
      modifies inner, store
      ensures ok ==> Loading(o, old(View()), locs, c, View())
      ensures store.Answered(ok)
      ensures !ok ==> store.disk == old(store.disk) && inner.config == old(inner.config)
                      && inner.version == old(inner.version) + 1
    {
      hide Rebuilt, Store.PutAll, Store.DropAll;
      var nextId := if locs == [] then 0 else MaxId(locs) + 1;
      inner.version := inner.version + 1;
      ok := StoreSnapshot(locs, nextId);
      if ok {
        inner.locations, inner.config, inner.nextId := locs, c, nextId;
        inner.RebuildGraphCache(o);
      }
    }

    /** `load_snapshot_checked`. The collection stays in order when the load fails, and
        when it does not, exactly when the snapshot's ids are distinct and its counters of
        the right size. */
    method LoadSnapshotChecked(locs: seq<HardLocation>, c: Config, expected: Option<nat>) returns (r: Result<(), Error>)
      requires Ready()
      modifies this, inner, store
      ensures r.Success? ==> (Ready() <==> Distinct(Ids(locs)) && LiveLaws.Sized(locs, c.d))
      ensures r.Failure? ==> Ready()
      ensures inner == old(inner) || fresh(inner)
      ensures r.Success? ==> old(inner.valid) && View() == SnapshotLoaded(o, old(View()), locs, c)
                             && ValidConfig(c) && forall x | 0 <= x < |locs| :: |locs[x].address| == c.d
      ensures r.Failure? ==> Fails(o, old(View()), View())
      ensures old(inner.valid) && expected.Some? && expected.value != old(inner.version) ==>
                r.Failure? && View() == old(View())
      ensures Blamed(r.Success?, r == Failure(Storage))
      ensures (old(inner.valid) && ValidConfig(c) && (forall x | 0 <= x < |locs| :: |locs[x].address| == c.d)
               && (expected.Some? ==> expected.value == old(inner.version))) ==> r.Success? || r == Failure(Storage)
    {
      hide Inv, Sound, Reloaded, Materialized, ValidConfig, Distinct, SnapshotLoaded, LiveLaws.Sized;
      ghost var w := View();
      if !ValidConfig(c) {
        return Failure(Invalid);
      }
      var misfit := FirstMisfit(RowsOf(locs), c.d);
      if misfit.Some? {
        return Failure(DimensionMismatch(c.d, misfit.value));
      }
      AddressesFit(locs, c.d);
      if !inner.valid {
        return Failure(OutOfUse);
      }
      if expected.Some? && inner.version != expected.value {
        return Failure(Conflict);
      }
      var ok := MaterializeRefs();
      if !ok {
        return Failure(Storage);
      }
      ok := SnapshotLocked(locs, c);
      if ok {
        r := Success(());
        LoadingIsLoaded(o, w, locs, c, View());
      } else {
        Upkeep.MaterializedOK(o, w);
        Recover();
        r := Failure(Storage);
        assert Failed(o, w, Materialized(w.live, w.disk), true, w.version + 1, View());
        Settles(o, w, LoadSnapshot(locs, c, expected), ok, View());
      }
    }
  }

  /** Taking a document id before the caches follow, or after, is the same. */
  lemma CountLast(o: Oracles, v: Live, out: Write.Outcome, n: nat)
    requires HasRows(v) && InBounds(v, out)
    ensures var joined := v.(locations := out.locations, nextId := out.nextId, eta := out.eta, docNextId := n);
      var synced := Synced(o, joined, out.modified, |out.modified|);
      (if out.created == [] then synced
       else Appended(o, synced.(locations := out.locations + out.created), |out.locations|))
      == TakenOver(o, v, out).(docNextId := n)
  {
    hide Entered, MaxNormOf, Landmarks;
    CountLastSynced(o, v.(locations := out.locations, nextId := out.nextId, eta := out.eta), out.modified, |out.modified|, n);
  }

  lemma {:induction false} CountLastSynced(o: Oracles, v: Live, indices: seq<nat>, k: nat, n: nat)
    requires k <= |indices| && HasRows(v) && forall t | 0 <= t < |indices| :: indices[t] < |v.locations|
    ensures Synced(o, v.(docNextId := n), indices, k) == Synced(o, v, indices, k).(docNextId := n)
  {
    if k > 0 {
      CountLastSynced(o, v, indices, k - 1, n);
    }
  }

  /** `new`, over an empty store: the collection, or nothing stored. */
  method Create(o: Oracles, sqrt: real -> real, store: Store.Store, c: Config, addresses: seq<Vec>)
    returns (r: Option<Collection>)
    requires Sound(o) && Merge.NormIsRoot(o) && SquareRoot(sqrt)
    requires store.disk == Store.EMPTY && forall x | 0 <= x < |addresses| :: |addresses[x]| == c.d
    modifies store
    ensures store.Answered(r.Some?)
    ensures r.None? ==> store.disk == Store.EMPTY
    ensures r.Some? ==> fresh(r.value) && fresh(r.value.inner) && r.value.store == store && r.value.Ready()
    ensures r.Some? ==> Created(o, c, addresses, r.value.View())
  {
    hide Sound, Rebuilt, Store.PutAll, Inv;
    var locs := Seeded(addresses);
    var txn := store.Begin();
    if txn.None? {
      return None;
    }
    var ok := txn.value.PutLocations(locs);
    if ok {
      ok := txn.value.PutCounters(|locs|, Some(c.eta0), None);
    }
    if ok {
      ok := store.Commit(txn.value);
    }
    if !ok {
      return None;
    }
    var inner := new Inner(c, locs, |locs|, c.eta0, 0, o);
    var collection := new Collection(o, sqrt, store, inner);
    CreatedIsRight(o, c, addresses, collection.View());
    r := Some(collection);
  }

  /** `load`, over what another collection of the same configuration left. */
  method Open(before: Collection) returns (r: Option<Collection>)
    requires before.Ready()
    modifies before.store`faults
    ensures before.store.Answered(r.Some?)
    ensures r.Some? ==> fresh(r.value) && fresh(r.value.inner) && r.value.store == before.store && r.value.Ready()
    ensures r.Some? ==> Step(before.o, before.View(), Reopen, true, r.value.View()) && r.value.inner.version == 0
  {
    hide Sound, Rebuilt, Reloaded, Inv, DiskOK;
    InvStored(before.o, before.View());
    var loaded := LoadInner(before.o, before.store, before.inner.config);
    if loaded.None? {
      StoredFit(before.inner.config, before.store.disk);
      return None;
    }
    var collection := new Collection(before.o, before.sqrt, before.store, loaded.value);
    Settles(before.o, before.View(), Reopen, true, collection.View());
    r := Some(collection);
  }
}
