/** `write_batch`: it stores the locations it created as they were when created, after
    the final states of those it modified. */
module PlainBatches {
  import opened Wrappers
  import opened Vectors
  import opened Locations
  import opened Live
  import opened LiveLaws
  import opened Store
  import opened Write
  import opened WriteLaws
  import opened Steps
  import opened Consistency
  import opened Documents
  import opened Postings
  import opened Batches

  ghost predicate ItemsFit(c: Config, items: seq<Item>) {
    forall t | 0 <= t < |items| :: |items[t].address| == |items[t].counter| == c.d
  }

  /** What the batch keeps while it goes through its items. */
  datatype Batch = Batch(live: Live, modified: set<nat>, clones: seq<HardLocation>)

  ghost function BatchOf(o: Oracles, v: Live, items: seq<Item>): (r: Batch)
    requires Sound(o) && LiveOK(o, v) && ItemsFit(v.config, items)
    ensures LiveOK(o, r.live) && r.live.config == v.config
  {
    if items == [] then Batch(v, {}, [])
    else
      var b := BatchOf(o, v, items[..|items| - 1]);
      var it := items[|items| - 1];
      LiveHasRows(o, b.live);
      WriteKeepsLive(o, b.live, it);
      Batching(o, b, it)
  }

  ghost function Batching(o: Oracles, b: Batch, it: Item): Batch
    requires Sound(o) && HasRows(b.live) && InBounds(b.live, OutcomeAt(o, b.live, it))
  {
    var out := OutcomeAt(o, b.live, it);
    Batch(TakenOver(o, b.live, out), b.modified + (set t | 0 <= t < |out.modified| :: out.modified[t]), b.clones + out.created)
  }

  /** The stored half after the batch, the modified locations stored in the given order. */
  function StoredBatch(d: Disk, locs: seq<HardLocation>, order: seq<nat>, clones: seq<HardLocation>): Disk
    requires forall t | 0 <= t < |order| :: order[t] < |locs|
  {
    WithLocations(WithLocations(d, Picked(locs, order)), clones)
  }

  /** `write_batch`: what was gathered is taken over and stored. */
  function WroteBatch(w: World, b: Batch, order: seq<nat>): World
    requires forall t | 0 <= t < |order| :: order[t] < |b.live.locations|
  {
    w.(live := b.live,
       disk := WithCounters(StoredBatch(w.disk, b.live.locations, order, b.clones), b.live.nextId, Some(b.live.eta), None),
       version := w.version + 1)
  }

  // ----- what the batch accumulates

  /** The locations there were come first; then those created, each with its clone. */
  ghost predicate Accumulated(v: Live, b: Batch) {
    var (n, locs) := (|v.locations|, b.live.locations);
    && |locs| == n + |b.clones|
    && (forall x | 0 <= x < n :: locs[x].id == v.locations[x].id && (x !in b.modified ==> locs[x] == v.locations[x]))
    && (forall t | 0 <= t < |b.clones| :: b.clones[t].id == locs[n + t].id)
    && (forall t | 0 <= t < |b.clones| && n + t !in b.modified :: b.clones[t] == locs[n + t])
    && (forall x | x in b.modified :: x < |locs|)
    && Sized(b.clones, v.config.d)
    && b.live.nextId >= v.nextId && (forall t | 0 <= t < |b.clones| :: v.nextId <= b.clones[t].id < b.live.nextId)
    && b.live.docNextId == v.docNextId
    && (!v.config.competitive ==> b.modified == {})
  }

  lemma AccumulatedStep(o: Oracles, v: Live, b: Batch, it: Item)
    requires Sound(o) && LiveOK(o, b.live) && b.live.config == v.config && |it.address| == |it.counter| == v.config.d
    requires Accumulated(v, b)
    ensures HasRows(b.live) && InBounds(b.live, OutcomeAt(o, b.live, it)) && Accumulated(v, Batching(o, b, it))
  {
    hide OutcomeAt, LiveOK, Sound, TakenOver, Distinct, Sized;
    var out := OutcomeAt(o, b.live, it);
    LiveHasRows(o, b.live);
    OutcomeShape(o, b.live, it);
    WriteKeepsLive(o, b.live, it);
    CreatedSized(b.live, out);
    if !v.config.competitive {
      PlainOutcome(o, b.live, it);
    }
    AccumulatedAfter(v, b, out, Batching(o, b, it));
  }

  lemma CreatedSized(v: Live, out: Outcome)
    requires WriteShape(v, out)
    ensures Sized(out.created, v.config.d)
  {
    assert forall x | 0 <= x < |out.created| :: After(out)[|out.locations| + x] == out.created[x];
  }

  lemma AccumulatedAfter(v: Live, b: Batch, out: Outcome, c: Batch)
    requires Accumulated(v, b) && WriteShape(b.live, out) && Sized(out.created, v.config.d)
    requires c.live.locations == After(out) && c.live.nextId == out.nextId && c.live.docNextId == b.live.docNextId
    requires c.modified == b.modified + (set t | 0 <= t < |out.modified| :: out.modified[t]) && c.clones == b.clones + out.created
    requires !v.config.competitive ==> out.modified == []
    ensures Accumulated(v, c)
  {
    hide Distinct, Sized, Below;
    var (n, k, all) := (|v.locations|, |b.clones|, After(out));
    OldStay(b, out, c);
    SizedAppend(b.clones, out.created, v.config.d);
    forall t | 0 <= t < |c.clones|
      ensures c.clones[t].id == all[n + t].id && v.nextId <= c.clones[t].id < out.nextId
      ensures n + t !in c.modified ==> c.clones[t] == all[n + t]
    {
      if t < k {
        assert c.clones[t] == b.clones[t];
      } else {
        assert c.clones[t] == out.created[t - k] == all[n + t];
      }
    }
  }

  lemma SizedAppend(a: seq<HardLocation>, b: seq<HardLocation>, d: nat)
    requires Sized(a, d) && Sized(b, d)
    ensures Sized(a + b, d)
  {
  }

  lemma OldStay(b: Batch, out: Outcome, c: Batch)
    requires WriteShape(b.live, out)
    requires c.modified == b.modified + (set t | 0 <= t < |out.modified| :: out.modified[t])
    ensures forall x | 0 <= x < |b.live.locations| :: After(out)[x].id == b.live.locations[x].id
    ensures forall x | 0 <= x < |b.live.locations| && x !in c.modified ::
              x !in b.modified && After(out)[x] == b.live.locations[x]
    ensures forall x | x in c.modified :: x in b.modified || x < |b.live.locations|
  {
    hide Sized, Distinct, Below;
    assert forall t | 0 <= t < |out.modified| :: out.modified[t] in c.modified;
  }

  lemma {:induction false} BatchAccumulates(o: Oracles, v: Live, items: seq<Item>)
    requires Sound(o) && LiveOK(o, v) && ItemsFit(v.config, items)
    ensures Accumulated(v, BatchOf(o, v, items))
  {
    hide OutcomeAt, LiveOK, Sound, TakenOver;
    if items == [] {
      LiveSized(o, v);
    } else {
      BatchAccumulates(o, v, items[..|items| - 1]);
      AccumulatedStep(o, v, BatchOf(o, v, items[..|items| - 1]), items[|items| - 1]);
    }
  }

  lemma LiveSized(o: Oracles, v: Live)
    requires LiveOK(o, v)
    ensures Sized(v.locations, v.config.d) && Distinct(Ids(v.locations)) && Below(v.locations, v.nextId)
  {
  }

  // ----- what the batch stores

  /** A location that was there is stored in its final state, or untouched; one that
      was created, as its clone. */
  lemma BatchStoredAt(v: Live, d: Disk, b: Batch, order: seq<nat>, x: nat)
    requires Accumulated(v, b) && Distinct(Ids(b.live.locations)) && Below(v.locations, v.nextId)
    requires Orders(order, b.modified) && (forall t | 0 <= t < |order| :: order[t] < |b.live.locations|)
    requires x < |b.live.locations|
    ensures var m := StoredBatch(d, b.live.locations, order, b.clones).locations;
      var (id, n) := (b.live.locations[x].id, |v.locations|);
      if x >= n then id in m && m[id] == b.clones[x - n]
      else if x in b.modified then id in m && m[id] == b.live.locations[x]
      else (id in m <==> id in d.locations) && (id in m ==> m[id] == d.locations[id])
  {
    hide PutAll, Distinct, Sized;
    var (locs, n) := (b.live.locations, |v.locations|);
    var picked := PutAll(d.locations, Picked(locs, order));
    if x >= n {
      forall t | 0 <= t < |b.clones| && b.clones[t].id == locs[x].id ensures t == x - n {
        SameIdSameIndex(locs, n + t, x);
      }
      PutAllAt(picked, b.clones, b.clones[x - n]);
    } else {
      PickedAt(d.locations, locs, order, x);
      PutAllElsewhere(picked, b.clones, locs[x].id);
    }
  }

  lemma SameIdSameIndex(locs: seq<HardLocation>, x: nat, y: nat)
    requires Distinct(Ids(locs)) && x < |locs| && y < |locs| && locs[x].id == locs[y].id
    ensures x == y
  {
    assert Ids(locs)[x] == Ids(locs)[y];
  }

  lemma BatchElsewhere(v: Live, d: Disk, b: Batch, order: seq<nat>, id: nat)
    requires Accumulated(v, b) && (forall t | 0 <= t < |order| :: order[t] < |b.live.locations|)
    requires id !in Ids(b.live.locations)
    ensures var m := StoredBatch(d, b.live.locations, order, b.clones).locations;
      (id in m <==> id in d.locations) && (id in m ==> m[id] == d.locations[id])
  {
    hide PutAll, Sized;
    var (locs, n) := (b.live.locations, |v.locations|);
    PickedElsewhere(d.locations, locs, order, id);
    forall t | 0 <= t < |b.clones| ensures b.clones[t].id != id {
      assert Ids(locs)[n + t] == b.clones[t].id;
    }
    PutAllElsewhere(PutAll(d.locations, Picked(locs, order)), b.clones, id);
  }

  /** The same locations stay live and stored; the same content exactly when no
      location was changed after its creation. */
  lemma BatchStays(v: Live, d: Disk, b: Batch, order: seq<nat>)
    requires Accumulated(v, b) && Distinct(Ids(b.live.locations)) && Below(v.locations, v.nextId)
    requires Orders(order, b.modified) && (forall t | 0 <= t < |order| :: order[t] < |b.live.locations|)
    requires Aligned(v.locations, d.locations)
    ensures var m := StoredBatch(d, b.live.locations, order, b.clones).locations;
      && Aligned(b.live.locations, m)
      && (Mirrors(v.locations, d.locations) ==>
           (Mirrors(b.live.locations, m) <==> b.clones == b.live.locations[|v.locations|..]))
  {
    hide StoredBatch, Distinct, Sized, Orders;
    var (locs, n, m) := (b.live.locations, |v.locations|, StoredBatch(d, b.live.locations, order, b.clones).locations);
    forall x | 0 <= x < |locs|
      ensures locs[x].id in m
      ensures x >= n ==> m[locs[x].id] == b.clones[x - n]
      ensures x < n && Mirrors(v.locations, d.locations) ==> m[locs[x].id] == locs[x]
    {
      BatchStoredAt(v, d, b, order, x);
    }
    assert Ids(locs)[..n] == Ids(v.locations);
    forall id | id in m && id !in Ids(locs) ensures id in d.locations {
      BatchElsewhere(v, d, b, order, id);
    }
    if Mirrors(v.locations, d.locations) {
      ClonesOrStale(locs, n, m, b.clones);
    }
  }

  lemma ClonesOrStale(locs: seq<HardLocation>, n: nat, m: map<nat, HardLocation>, clones: seq<HardLocation>)
    requires n <= |locs| && |clones| == |locs| - n
    requires forall x | 0 <= x < |locs| :: locs[x].id in m && m[locs[x].id] == if x < n then locs[x] else clones[x - n]
    requires forall id | id in m :: id in Ids(locs)
    ensures Mirrors(locs, m) <==> clones == locs[n..]
  {
    if Mirrors(locs, m) {
      assert forall t | 0 <= t < |clones| :: clones[t] == m[locs[n + t].id];
    }
    if clones == locs[n..] {
      assert forall x | n <= x < |locs| :: locs[x] == clones[x - n];
    }
  }

  /** In a memory that never moves its locations, references stay where they were. */
  lemma BatchRefs(v: Live, d: Disk, b: Batch, order: seq<nat>)
    requires Accumulated(v, b) && Distinct(Ids(b.live.locations)) && Below(v.locations, v.nextId)
    requires Orders(order, b.modified) && (forall t | 0 <= t < |order| :: order[t] < |b.live.locations|)
    requires RefsStored(v.config, d) && RefsAgree(v.locations, d) && Keyed(d.locations, v.config.d, v.nextId)
    requires Aligned(v.locations, d.locations)
    ensures var e := StoredBatch(d, b.live.locations, order, b.clones);
      RefsKept(d, e.locations) && RefsStored(v.config, e) && RefsAgree(b.live.locations, e)
  {
    hide StoredBatch, Distinct, Sized, Orders, Keyed;
    var (locs, n) := (b.live.locations, |v.locations|);
    var e := StoredBatch(d, locs, order, b.clones);
    assert e.documents == d.documents by { BatchLocationsOnly(d, locs, order, b.clones); }
    forall doc | doc in d.documents && d.documents[doc].ByLocation?
      ensures var l := d.documents[doc].location; l in e.locations && e.locations[l].address == d.locations[l].address
      ensures forall x | 0 <= x < |locs| && locs[x].id == d.documents[doc].location ::
                locs[x].address == d.locations[d.documents[doc].location].address
    {
      var l := d.documents[doc].location;
      var y :| 0 <= y < n && Ids(v.locations)[y] == l;
      BatchStoredAt(v, d, b, order, y);
      forall x | 0 <= x < |locs| && locs[x].id == l ensures locs[x].address == d.locations[l].address {
        SameIdSameIndex(locs, x, y);
      }
    }
  }

  lemma BatchLocationsOnly(d: Disk, locs: seq<HardLocation>, order: seq<nat>, clones: seq<HardLocation>)
    requires forall t | 0 <= t < |order| :: order[t] < |locs|
    ensures StoredBatch(d, locs, order, clones) == d.(locations := StoredBatch(d, locs, order, clones).locations)
  {
  }

  lemma BatchKeyed(v: Live, d: Disk, b: Batch, order: seq<nat>)
    requires Accumulated(v, b) && Sized(b.live.locations, v.config.d) && Below(b.live.locations, b.live.nextId)
    requires (forall t | 0 <= t < |order| :: order[t] < |b.live.locations|) && Keyed(d.locations, v.config.d, v.nextId)
    ensures Keyed(StoredBatch(d, b.live.locations, order, b.clones).locations, v.config.d, b.live.nextId)
  {
    hide PutAll;
    var picked := Picked(b.live.locations, order);
    PutAllKeyed(d.locations, picked, v.config.d, b.live.nextId);
    PutAllKeyed(PutAll(d.locations, picked), b.clones, v.config.d, b.live.nextId);
  }

  lemma BatchIndex(d: Disk, locs: seq<HardLocation>, order: seq<nat>, clones: seq<HardLocation>)
    requires (forall t | 0 <= t < |order| :: order[t] < |locs|) && PostingsRight(d)
    ensures PostingsRight(StoredBatch(d, locs, order, clones))
  {
    hide PutAll, SameDocuments;
    PutAllGrows(d.locations, Picked(locs, order));
    PutAllGrows(PutAll(d.locations, Picked(locs, order)), clones);
  }

  /** A batch keeps the invariant, every document and the index. It leaves what a
      reload would rebuild exactly when every location it created is, at the end, as
      it was created. */
  lemma BatchKeeps(o: Oracles, w: World, items: seq<Item>, order: seq<nat>)
    requires Sound(o) && Inv(o, w) && w.valid && ItemsFit(w.live.config, items)
    requires (forall t | 0 <= t < |order| :: order[t] < |BatchOf(o, w.live, items).live.locations|)
    requires Orders(order, BatchOf(o, w.live, items).modified)
    ensures var (n, b) := (WroteBatch(w, BatchOf(o, w.live, items), order), BatchOf(o, w.live, items));
      && Inv(o, n) && Docs(n.disk) == Docs(w.disk)
      && (PostingsRight(w.disk) ==> PostingsRight(n.disk))
      && |w.live.locations| <= |b.live.locations|
      && (InStep(w) ==> (InStep(n) <==> b.clones == b.live.locations[|w.live.locations|..]))
  {
    hide LiveOK, Sound, BatchOf, StoredBatch, Distinct, Sized, Orders, Keyed, Mirrors, Aligned, RefsAgree, Docs, RefsKept,
      RefsStored, PostingsRight;
    var (v, d, b) := (w.live, w.disk, BatchOf(o, w.live, items));
    BatchAccumulates(o, v, items);
    LiveSized(o, v);
    LiveSized(o, b.live);
    BatchLocationsOnly(d, b.live.locations, order, b.clones);
    BatchStays(v, d, b, order);
    BatchRefs(v, d, b, order);
    BatchKeyed(v, d, b, order);
    var e := StoredBatch(d, b.live.locations, order, b.clones);
    DocsKeptStored(v.config, d, e);
    PostingsDoNotMatter(b.live.locations, e, WroteBatch(w, BatchOf(o, w.live, items), order).disk, v.config);
    if PostingsRight(d) {
      BatchIndex(d, b.live.locations, order, b.clones);
      CountersLeaveIndex(e, b.live.nextId, Some(b.live.eta));
    }
  }

  lemma DocsKeptStored(c: Config, d: Disk, e: Disk)
    requires RefsStored(c, d) && e.documents == d.documents && RefsKept(d, e.locations)
    ensures Docs(e) == Docs(d)
  {
    DocsKept(d, e);
  }

  lemma CountersLeaveIndex(d: Disk, nextId: nat, eta: Option<real>)
    requires PostingsRight(d)
    ensures PostingsRight(WithCounters(d, nextId, eta, None))
  {
  }

  /** A memory that never moves its locations is never left stale by a batch. */
  lemma PlainBatchInStep(o: Oracles, v: Live, items: seq<Item>)
    requires Sound(o) && LiveOK(o, v) && ItemsFit(v.config, items) && !v.config.competitive
    ensures var b := BatchOf(o, v, items);
      |v.locations| <= |b.live.locations| && b.clones == b.live.locations[|v.locations|..]
  {
    hide LiveOK, Sound, BatchOf, Sized;
    BatchAccumulates(o, v, items);
    var b := BatchOf(o, v, items);
    assert forall t | 0 <= t < |b.clones| :: b.clones[t] == b.live.locations[|v.locations| + t];
  }

  lemma BatchNext(o: Oracles, v: Live, items: seq<Item>)
    requires Sound(o) && LiveOK(o, v) && ItemsFit(v.config, items) && items != []
    ensures var (before, it) := (BatchOf(o, v, items[..|items| - 1]), items[|items| - 1]);
      HasRows(before.live) && InBounds(before.live, OutcomeAt(o, before.live, it))
      && BatchOf(o, v, items) == Batching(o, before, it)
  {
    hide LiveOK, Sound, OutcomeAt, TakenOver;
    var (before, it) := (BatchOf(o, v, items[..|items| - 1]), items[|items| - 1]);
    LiveHasRows(o, before.live);
    WriteKeepsLive(o, before.live, it);
  }
}
