/** collection.rs: what each operation of a collection does to its live half and to
    its stored half when every call succeeds, and what a failure leaves. */
module Steps {
  import opened Wrappers
  import opened Vectors
  import opened Locations
  import opened Live
  import opened Store
  import opened Write
  import Merge
  import Compress
  import CompressLaws

  /** A collection between two operations. */
  datatype World = World(live: Live, disk: Disk, valid: bool, version: nat)

  /** One pattern to write, and the direction drawn in case it splits a location. */
  datatype Item = Item(address: Vec, counter: Vec, opts: Opts, direction: Vec)

  datatype DocumentItem = DocumentItem(input: Vec, metadata: Metadata, direction: Vec)

  // ----- the adaptive write

  function InputAt(v: Live, it: Item): Input {
    Input(v.config, v.locations, v.rows32, v.maxNorm, v.nextId, v.eta, it.address, it.counter, it.opts, it.direction)
  }

  ghost function OutcomeAt(o: Oracles, v: Live, it: Item): Outcome
    requires Sound(o)
  {
    Adaptive(o, InputAt(v, it))
  }

  /** The rows there are to update. */
  predicate HasRows(v: Live) {
    |v.rows| == |v.rows32| == |v.locations|
  }

  predicate InBounds(v: Live, out: Outcome) {
    && |out.locations| == |v.locations|
    && forall t | 0 <= t < |out.modified| :: out.modified[t] < |v.locations|
  }

  /** The live half once an outcome is taken over. */
  function TakenOver(o: Oracles, v: Live, out: Outcome): Live
    requires HasRows(v) && InBounds(v, out)
  {
    var joined := v.(locations := out.locations, nextId := out.nextId, eta := out.eta);
    var synced := Synced(o, joined, out.modified, |out.modified|);
    if out.created == [] then synced
    else Appended(o, synced.(locations := out.locations + out.created), |out.locations|)
  }

  function Picked(locs: seq<HardLocation>, indices: seq<nat>): (r: seq<HardLocation>)
    requires forall t | 0 <= t < |indices| :: indices[t] < |locs|
    ensures |r| == |indices|
  {
    seq(|indices|, t requires 0 <= t < |indices| => locs[indices[t]])
  }

  /** The locations a write stores. */
  function StoredBy(d: Disk, out: Outcome): Disk
    requires forall t | 0 <= t < |out.modified| :: out.modified[t] < |out.locations|
  {
    WithLocations(WithLocations(d, Picked(out.locations, out.modified)), out.created)
  }

  // ----- documents

  /** `plain_location`. */
  function PlainLocation(c: Config, out: Outcome, input: Vec): Option<nat> {
    if |out.created| == 1 && !c.competitive && out.modified == [] && out.created[0].address == input
    then Some(out.created[0].id) else None
  }

  function DocumentFor(c: Config, out: Outcome, input: Vec, metadata: Metadata): Document {
    var plain := PlainLocation(c, out, input);
    if plain.Some? then ByLocation(plain.value, metadata) else Inline(input, metadata)
  }

  /** The locations a document is indexed under. */
  function IndexedUnder(out: Outcome): seq<nat>
    requires forall t | 0 <= t < |out.modified| :: out.modified[t] < |out.locations|
  {
    Ids(Picked(out.locations, out.modified)) + Ids(out.created)
  }

  function PlainItem(it: DocumentItem): Item {
    Item(it.input, it.input, DEFAULT_OPTS, it.direction)
  }

  function WithDocument(d: Disk, doc: nat, data: Document): Disk {
    d.(documents := d.documents[doc := data])
  }

  /** `location_address`. */
  function AddressOf(v: Live, id: nat): Option<Vec> {
    if id < |v.idLookup| && v.idLookup[id].Some? && v.idLookup[id].value < |v.locations|
       && v.locations[v.idLookup[id].value].id == id
    then Some(v.locations[v.idLookup[id].value].address) else None
  }

  /** `resolve_document`: none for a reference to a location that does not exist. */
  function ResolvedDocument(v: Live, data: Document): Option<(Vec, Metadata)> {
    match data
    case Inline(vector, metadata) => Some((vector, metadata))
    case ByLocation(id, metadata) =>
      var address := AddressOf(v, id);
      if address.Some? then Some((address.value, metadata)) else None
  }

  function Inlined(v: Live, data: Document): Document {
    var r := ResolvedDocument(v, data);
    if data.ByLocation? && r.Some? then Inline(r.value.0, r.value.1) else data
  }

  /** `materialize_document_refs`. */
  function Materialized(v: Live, d: Disk): Disk {
    d.(documents := map doc | doc in d.documents :: Inlined(v, d.documents[doc]))
  }

  // ----- the operations, when they succeed

  /** `write` and `write_two`. */
  ghost function Wrote(o: Oracles, w: World, it: Item): World
    requires Sound(o) && HasRows(w.live) && InBounds(w.live, OutcomeAt(o, w.live, it))
  {
    var out := OutcomeAt(o, w.live, it);
    w.(live := TakenOver(o, w.live, out), disk := WithCounters(StoredBy(w.disk, out), out.nextId, Some(out.eta), None),
       version := w.version + 1)
  }

  /** `write_with_metadata`. */
  ghost function WroteDocument(o: Oracles, w: World, it: DocumentItem): World
    requires Sound(o) && HasRows(w.live) && InBounds(w.live, OutcomeAt(o, w.live, PlainItem(it)))
  {
    var out := OutcomeAt(o, w.live, PlainItem(it));
    var doc := w.live.docNextId;
    var stored := WithDocument(StoredBy(w.disk, out), doc, DocumentFor(w.live.config, out, it.input, it.metadata));
    w.(live := TakenOver(o, w.live, out).(docNextId := doc + 1),
       disk := WithCounters(Indexing(stored, IndexedUnder(out), doc), out.nextId, Some(out.eta), Some(doc + 1)),
       version := w.version + 1)
  }

  /** `flush`. */
  function Flushed(w: World): World {
    w.(disk := WithCounters(WithLocations(w.disk, w.live.locations), w.live.nextId, Some(w.live.eta), None))
  }

  /** `delete_document`. */
  function Deleted(w: World, doc: nat): World {
    w.(disk := Deleting(w.disk, doc))
  }

  /** Posting lists moved along a chain of merges, in order. */
  function MovedAlong(d: Disk, chain: seq<(nat, nat)>): Disk {
    if chain == [] then d
    else Moving(MovedAlong(d, chain[..|chain| - 1]), chain[|chain| - 1].0, chain[|chain| - 1].1)
  }

  /** `merge`: documents first get their own vectors back; the survivors are changed
      in memory and not stored. */
  function MergedWorld(o: Oracles, w: World): World {
    var r := Merge.Merged(o, w.live.config, w.live.locations);
    var d := Materialized(w.live, w.disk);
    var live := w.live.(locations := r.locations);
    if r.removed == [] then w.(live := live, disk := d, version := w.version + 1)
    else w.(live := Rebuilt(o, live), disk := WithoutLocations(MovedAlong(d, r.chain), r.removed), version := w.version + 1)
  }

  /** One removed location of a compression: its documents go to its final survivor. */
  function Retiring(d: Disk, removed: nat, survivor: nat): Disk {
    WithoutLocations(Moving(d, removed, survivor), [removed])
  }

  /** The first n removals of a compression. */
  function Retired(d: Disk, chain: seq<(nat, nat)>, n: nat): Disk
    requires n <= |chain|
  {
    if n == 0 then d
    else Retiring(Retired(d, chain, n - 1), chain[n - 1].0, CompressLaws.Resolve(chain, chain[n - 1].0))
  }

  /** `compress`. */
  function CompressedWorld(o: Oracles, w: World, kappa: real, costWeight: real): World {
    var r := Compress.Compressed(o, kappa, costWeight, TotalWrites(w.live.locations), w.live.locations);
    var d := Materialized(w.live, w.disk);
    if r.chain == [] then w.(disk := d)
    else w.(live := Rebuilt(o, w.live.(locations := r.locations)),
            disk := WithLocations(Retired(d, r.chain, |r.chain|), r.locations))
  }

  /** The total write count, at least 1. */
  function TotalWrites(locs: seq<HardLocation>): real {
    Max(WriteSum(locs), 1.0)
  }

  /** `load_snapshot_checked`, its version check passed. */
  function SnapshotLoaded(o: Oracles, w: World, locs: seq<HardLocation>, c: Config): World {
    var d := Materialized(w.live, w.disk);
    var nextId := if locs == [] then 0 else MaxId(locs) + 1;
    w.(live := Rebuilt(o, w.live.(locations := locs, config := c, nextId := nextId)),
       disk := WithCounters(WithLocations(WithoutLocations(d, Ids(w.live.locations)), locs), nextId, None, None),
       version := w.version + 1)
  }

  // ----- loading

  /** What `load` builds from the records found. */
  function LoadedFrom(o: Oracles, c: Config, d: Disk, locs: seq<HardLocation>): Live {
    Rebuilt(o, Live(c, locs, if d.nextId.Some? then d.nextId.value else |locs|, if d.eta.Some? then d.eta.value else c.eta0,
                    if d.docNextId.Some? then d.docNextId.value else 0, [], 0, [], [], [], 0.0))
  }

  /** v is what `load` rebuilds from the store. */
  ghost predicate Reloaded(o: Oracles, c: Config, d: Disk, v: Live) {
    exists keys: seq<nat>, locs: seq<HardLocation> :: Listed(d.locations, keys, locs) && v == LoadedFrom(o, c, d, locs)
  }

  /** A failed mutation: the store as last committed; the live half untouched, or
      reloaded, or out of use. */
  ghost predicate Failed(o: Oracles, w: World, d: Disk, dirty: bool, version: nat, w': World) {
    && w'.disk == d
    && (!dirty ==> w' == w.(disk := d))
    && (dirty ==> w'.live.config == w.live.config && w'.version == version
                  && (w'.valid ==> Reloaded(o, w.live.config, d, w'.live)))
  }
}
