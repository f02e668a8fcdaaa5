/** What loading a store or a snapshot leaves, and what a step keeps for its caller. */
module Opening {
  import opened Wrappers
  import opened Vectors
  import opened Locations
  import opened Live
  import opened Steps
  import opened Consistency
  import opened Histories
  import LiveLaws
  import Store

  lemma Settles(o: Oracles, w: World, op: Operation, ok: bool, n: World)
    requires Sound(o) && Inv(o, w) && Step(o, w, op, ok, n)
    ensures Inv(o, n)
  {
    hide Inv, Sound, Step, Kept;
    StepKeeps(o, w, op, ok, n);
    KeptInv(o, w, op, ok, n);
  }

  lemma InvGives(o: Oracles, w: World)
    requires Inv(o, w) && w.valid
    ensures LiveLaws.LiveOK(o, w.live) && CountersMatch(w.live, w.disk) && DiskOK(w.live.config, w.disk)
  {
  }

  /** n is w after a snapshot load over materialized documents. */
  ghost predicate Loading(o: Oracles, w: World, locs: seq<HardLocation>, c: Config, n: World) {
    var nextId := if locs == [] then 0 else MaxId(locs) + 1;
    n == w.(live := Rebuilt(o, w.live.(locations := locs, config := c, nextId := nextId)),
            disk := Store.WithCounters(Store.WithLocations(Store.WithoutLocations(w.disk, Ids(w.live.locations)), locs), nextId,
                                       None, None),
            version := w.version + 1)
  }

  /** The invariant holds of a loaded snapshot exactly when its ids are distinct and its
      vectors of the right size. */
  lemma LoadingIsLoaded(o: Oracles, w: World, locs: seq<HardLocation>, c: Config, n: World)
    requires Loading(o, w.(disk := Materialized(w.live, w.disk)), locs, c, n)
    ensures n == SnapshotLoaded(o, w, locs, c)
    ensures Sound(o) && Inv(o, w) && w.valid ==> (Inv(o, n) <==> Distinct(Ids(locs)) && LiveLaws.Sized(locs, c.d))
  {
    hide Rebuilt, Store.PutAll, Store.DropAll, Materialized, Inv, Sound, Distinct, LiveLaws.Sized;
    if Sound(o) && Inv(o, w) && w.valid {
      if Inv(o, n) {
        LoadedInOrder(o, w, locs, c);
      }
      if Distinct(Ids(locs)) && LiveLaws.Sized(locs, c.d) {
        Settles(o, w, LoadSnapshot(locs, c, None), true, n);
      }
    }
  }

  lemma LoadedInOrder(o: Oracles, w: World, locs: seq<HardLocation>, c: Config)
    requires w.valid && Inv(o, SnapshotLoaded(o, w, locs, c))
    ensures Distinct(Ids(locs)) && LiveLaws.Sized(locs, c.d)
  {
    hide CachesRight, DiskOK, Store.PutAll, Store.DropAll, Materialized, BuiltLookup, Landmarks;
  }

  lemma AddressesFit(locs: seq<HardLocation>, d: nat)
    requires forall t | 0 <= t < |RowsOf(locs)| :: |RowsOf(locs)[t]| == d
    ensures forall x | 0 <= x < |locs| :: |locs[x].address| == d
  {
    assert forall x | 0 <= x < |locs| :: RowsOf(locs)[x] == locs[x].address;
  }

  lemma InvStored(o: Oracles, w: World)
    requires Inv(o, w)
    ensures DiskOK(w.live.config, w.disk)
  {
  }

  lemma StoredFit(c: Config, d: Store.Disk)
    requires DiskOK(c, d)
    ensures forall id | id in d.locations :: |d.locations[id].address| == c.d
  {
  }

  /** `load`, up to the collection that holds it. */
  method LoadInner(o: Oracles, store: Store.Store, c: Config) returns (loaded: Option<Inner>)
    modifies store`faults
    ensures loaded.Some? ==> store.Answered(true)
    ensures loaded.None? ==> store.Answered(false)
                             || exists id :: id in store.disk.locations && |store.disk.locations[id].address| != c.d
    ensures loaded.Some? ==>
      fresh(loaded.value) && loaded.value.valid && loaded.value.version == 0
      && Reloaded(o, c, store.disk, loaded.value.Contents())
  {
    hide Rebuilt;
    var found, keys := store.LoadAllLocations();
    if found.None? {
      return None;
    }
    var locs := found.value;
    var counters := store.LoadCounters();
    if counters.None? {
      return None;
    }
    if locs != [] && |locs[0].address| != c.d {
      assert keys[0] in store.disk.locations && locs[0] == store.disk.locations[keys[0]];
      return None;
    }
    var (nextId, eta, docNextId) := counters.value;
    var inner := new Inner(c, locs, if nextId.Some? then nextId.value else |locs|, if eta.Some? then eta.value else c.eta0,
                           if docNextId.Some? then docNextId.value else 0, o);
    assert Store.Listed(store.disk.locations, keys, locs) && inner.Contents() == LoadedFrom(o, c, store.disk, locs);
    loaded := Some(inner);
  }
}
