/** The adaptive write of write.rs: select, join or spawn, accumulate, link the
    activated locations, split an overloaded winner. */
module Write {
  import opened Wrappers
  import opened Vectors
  import opened Locations
  import Scan

  datatype Opts = Opts(gate: bool, tauCohere: real, tauSplit: real)

  /** `WriteOpts::default()`, which one-field writes use. */
  const DEFAULT_OPTS := Opts(false, 0.1, 0.3)

  /** Everything a write reads: the memory, the f32 copy it searches, the input,
      and the random direction of a split. */
  datatype Input = Input(config: Config, locations: seq<HardLocation>, matrix32: seq<Vec>, maxNorm: real,
                         nextId: nat, eta: real, address: Vec, counter: Vec, opts: Opts, direction: Vec)

  /** What it leaves: the locations it was given, updated, and those it created. */
  datatype Outcome = Outcome(locations: seq<HardLocation>, modified: seq<nat>, created: seq<HardLocation>,
                             nextId: nat, eta: real)

  // ----- select

  /** `max_by`: the last of the greatest scores. */
  function LastGreatest(scores: seq<real>): (m: nat)
    requires scores != []
    ensures m < |scores|
    ensures forall i | 0 <= i < |scores| :: scores[i] <= scores[m]
    ensures forall i | m < i < |scores| :: scores[i] < scores[m]
  {
    if |scores| == 1 then 0
    else
      var m := LastGreatest(scores[..|scores| - 1]);
      if scores[|scores| - 1] >= scores[m] then |scores| - 1 else m
  }

  function SumWrites(locs: seq<HardLocation>, near: seq<Scan.Scored>): real
    requires forall i | 0 <= i < |near| :: near[i].index < |locs|
  {
    if near == [] then 0.0
    else SumWrites(locs, near[..|near| - 1]) + locs[near[|near| - 1].index].writeCount
  }

  /** The conscience score of each activated location. */
  function Conscience(i: Input, near: seq<Scan.Scored>, total: real): (r: seq<real>)
    requires forall t | 0 <= t < |near| :: near[t].index < |i.locations|
    ensures |r| == |near|
  {
    seq(|near|, t requires 0 <= t < |near| => Handicapped(near[t].sim, i.config.gamma, i.locations[near[t].index], total))
  }

  /** A similarity less the location's share of what was taken in. */
  function Handicapped(sim: real, gamma: real, loc: HardLocation, total: real): real {
    sim - Quotient(gamma * loc.writeCount, total)
  }

  /** The activated locations close enough in address to share a context. */
  function Strong(near: seq<Scan.Scored>, tau: real): (r: seq<nat>)
    ensures forall t | 0 <= t < |r| :: r[t] < |near| && near[r[t]].sim >= tau
  {
    if near == [] then []
    else Strong(near[..|near| - 1], tau) + if near[|near| - 1].sim >= tau then [|near| - 1] else []
  }

  function Coherences(o: Oracles, i: Input, near: seq<Scan.Scored>, strong: seq<nat>): (r: seq<real>)
    requires forall t | 0 <= t < |near| :: near[t].index < |i.locations|
    requires forall t | 0 <= t < |strong| :: strong[t] < |near|
    ensures |r| == |strong|
  {
    var cn := Normalized(o, i.counter);
    seq(|strong|, t requires 0 <= t < |strong| => Cosine(o, i.locations[near[strong[t]].index].counter, cn))
  }

  /** The winner's place among the activated, and whether the gate forces a spawn. */
  function Winner(o: Oracles, i: Input, near: seq<Scan.Scored>): (r: (nat, bool))
    requires near != [] && forall t | 0 <= t < |near| :: near[t].index < |i.locations|
    ensures r.0 < |near|
  {
    if i.opts.gate then
      var strong := Strong(near, i.opts.tauSplit);
      if strong == [] then (0, true)
      else
        var scores := Coherences(o, i, near, strong);
        var best := LastGreatest(scores);
        (strong[best], scores[best] < i.opts.tauCohere)
    else
      var total := SumWrites(i.locations, near);
      if total > 0.000000000001 then (LastGreatest(Conscience(i, near, total)), false) else (0, false)
  }

  function Spawns(o: Oracles, i: Input, near: seq<Scan.Scored>, forced: bool): bool
    requires near != []
  {
    if i.opts.gate then forced
    else if i.config.mdlGate then o.surpriseBits(near[0].sim) > o.engramBits(|i.locations|, i.config.d)
    else near[0].sim < i.config.tauSplit
  }

  // ----- update

  /** `weights[t]`. */
  function Weight(near: seq<Scan.Scored>, t: nat, k: nat): real
    requires t < |near|
  {
    if near[0].sim > 0.000000000001 then Max(near[t].sim, 0.0) / near[0].sim
    else Quotient(1.0, k as real)
  }

  function EtaWinner(i: Input, winner: nat): real
    requires winner < |i.locations|
  {
    Quotient(i.eta, 1.0 + Quotient(i.locations[winner].writeCount, i.config.tauDamp))
  }

  /** One activated location takes the input at weight w. */
  function Absorb(o: Oracles, i: Input, loc: HardLocation, w: real, rate: real): HardLocation {
    var counted := loc.(counter := AddScaled(loc.counter, i.counter, w), writeCount := loc.writeCount + w);
    var lr := if i.opts.gate then Quotient(1.0, counted.writeCount) else rate;
    counted.(address := Normalized(o, AddScaled(loc.address, Difference(i.address, loc.address), lr)))
  }

  /** The weight and rate activated location t absorbs with; none when the gate
      leaves it out. */
  function Share(i: Input, near: seq<Scan.Scored>, winner: nat, t: nat): Option<(real, real)>
    requires t < |near| && winner < |near| && forall t | 0 <= t < |near| :: near[t].index < |i.locations|
  {
    if i.opts.gate then (if t == winner then Some((1.0, 0.0)) else None)
    else
      var k := if i.config.k < |i.locations| then i.config.k else |i.locations|;
      var eta := EtaWinner(i, near[winner].index);
      Some((Weight(near, t, k), if t == winner then eta else eta * 0.1))
  }

  /** The locations after the first n activated ones have joined. */
  function Joined(o: Oracles, i: Input, near: seq<Scan.Scored>, winner: nat, n: nat): (r: seq<HardLocation>)
    requires n <= |near| && winner < |near| && forall t | 0 <= t < |near| :: near[t].index < |i.locations|
    ensures |r| == |i.locations|
  {
    if n == 0 then i.locations
    else
      var r := Joined(o, i, near, winner, n - 1);
      var share := Share(i, near, winner, n - 1);
      if share.None? then r
      else r[near[n - 1].index := Absorb(o, i, r[near[n - 1].index], share.value.0, share.value.1)]
  }

  /** The MDL gate charges the winner with how poorly it matched. */
  function Charged(o: Oracles, i: Input, near: seq<Scan.Scored>, winner: nat, locs: seq<HardLocation>): (r: seq<HardLocation>)
    requires winner < |near| && near[winner].index < |locs|
    ensures |r| == |locs|
  {
    if !i.config.mdlGate then locs
    else
      var w := locs[near[winner].index];
      locs[near[winner].index := w.(surprise := w.surprise + o.surpriseBits(near[winner].sim))]
  }

  // ----- link

  /** One location's neighbour list gains the peers it lacks. */
  function AddPeers(list: seq<nat>, peers: seq<nat>, own: nat): seq<nat> {
    if peers == [] then list
    else
      var before := AddPeers(list, peers[..|peers| - 1], own);
      var peer := peers[|peers| - 1];
      if peer == own || peer in before then before else before + [peer]
  }

  /** Over capacity, the most recently added are kept. */
  function KeepNewest(list: seq<nat>, cap: nat): (r: seq<nat>)
  {
    if |list| > cap then list[|list| - cap..] else list
  }

  /** Over capacity, the oldest are kept. */
  function KeepOldest(list: seq<nat>, cap: nat): (r: seq<nat>)
  {
    if |list| > cap then list[..cap] else list
  }

  function ActivatedIds(locs: seq<HardLocation>, near: seq<Scan.Scored>): (r: seq<nat>)
    requires forall t | 0 <= t < |near| :: near[t].index < |locs|
    ensures |r| == |near|
  {
    seq(|near|, t requires 0 <= t < |near| => locs[near[t].index].id)
  }

  /** The locations after the first n activated ones have linked to their peers. */
  function Linked(locs: seq<HardLocation>, near: seq<Scan.Scored>, peers: seq<nat>, cap: nat, n: nat): (r: seq<HardLocation>)
    requires n <= |near| == |peers| && forall t | 0 <= t < |near| :: near[t].index < |locs|
    ensures |r| == |locs|
  {
    if n == 0 then locs
    else
      var r := Linked(locs, near, peers, cap, n - 1);
      var loc := r[near[n - 1].index];
      r[near[n - 1].index := loc.(neighbors := KeepNewest(AddPeers(loc.neighbors, peers, peers[n - 1]), cap))]
  }

  // ----- regulate

  function NewLocation(id: nat, address: Vec, counter: Vec, neighbors: seq<nat>): HardLocation {
    HardLocation(id, address, counter, 1.0, neighbors, 0.0)
  }

  predicate Overloaded(o: Oracles, c: Config, locs: seq<HardLocation>, winner: nat)
    requires winner < |locs|
  {
    if c.mdlGate then locs[winner].surprise > o.engramBits(|locs|, c.d)
    else locs[winner].writeCount > c.tauOverload
  }

  /** The winner's half of an overload split. */
  function SplitParent(parent: HardLocation, child: nat, cap: nat): HardLocation {
    var halved := parent.(counter := Scale(parent.counter, 0.5), writeCount := parent.writeCount * 0.5,
                          surprise := parent.surprise * 0.5);
    if cap == 0 || child in parent.neighbors then halved
    else
      var grown := parent.neighbors + [child];
      halved.(neighbors := if |grown| > cap then grown[1..] else grown)
  }

  /** The other half: beside the winner, with its neighbours and the winner. */
  function SplitChild(o: Oracles, parent: HardLocation, child: nat, direction: Vec, cap: nat): HardLocation {
    var inherited :=
      if cap == 0 then []
      else KeepOldest(if parent.id in parent.neighbors then parent.neighbors else parent.neighbors + [parent.id], cap);
    HardLocation(child, Normalized(o, AddScaled(parent.address, direction, 0.1)), Scale(parent.counter, 0.5),
                 parent.writeCount * 0.5, inherited, 0.0)
  }

  function EtaAfter(c: Config, eta: real): real {
    Max(eta * c.lambda, c.etaMin)
  }

  /** The locations after the update phase; a write that spawns updates none. */
  function Updated(o: Oracles, i: Input, near: seq<Scan.Scored>): (r: seq<HardLocation>)
    requires near != [] && forall t | 0 <= t < |near| :: near[t].index < |i.locations|
    ensures |r| == |i.locations|
  {
    var (winner, forced) := Winner(o, i, near);
    if Spawns(o, i, near, forced) then i.locations
    else Charged(o, i, near, winner, Joined(o, i, near, winner, |near|))
  }

  /** The locations after the neighbour graph update. */
  function Connected(o: Oracles, i: Input, near: seq<Scan.Scored>): (r: seq<HardLocation>)
    requires near != [] && forall t | 0 <= t < |near| :: near[t].index < |i.locations|
    ensures |r| == |i.locations|
  {
    var locs := Updated(o, i, near);
    var cap := NeighborCap(o, i.config, |i.locations|);
    if cap == 0 then locs else Linked(locs, near, ActivatedIds(locs, near), cap, |near|)
  }

  function Indices(near: seq<Scan.Scored>): (r: seq<nat>)
    ensures |r| == |near|
  {
    seq(|near|, t requires 0 <= t < |near| => near[t].index)
  }

  /** A write that finds something to activate. */
  function Activated(o: Oracles, i: Input, near: seq<Scan.Scored>): Outcome
    requires near != [] && forall t | 0 <= t < |near| :: near[t].index < |i.locations|
  {
    var (winner, forced) := Winner(o, i, near);
    var locs := Connected(o, i, near);
    var cap := NeighborCap(o, i.config, |i.locations|);
    var eta := EtaAfter(i.config, i.eta);
    if Spawns(o, i, near, forced) then
      var child := NewLocation(i.nextId, Normalized(o, i.address), i.counter,
                               if cap == 0 then [] else KeepOldest(ActivatedIds(locs, near), cap));
      Outcome(locs, Indices(near), [child], i.nextId + 1, eta)
    else if Overloaded(o, i.config, locs, near[winner].index) then
      var parent := locs[near[winner].index];
      Outcome(locs[near[winner].index := SplitParent(parent, i.nextId, cap)], Indices(near),
              [SplitChild(o, parent, i.nextId, i.direction, cap)], i.nextId + 1, eta)
    else Outcome(locs, Indices(near), [], i.nextId, eta)
  }

  /** The search of a write. */
  function Near(o: Oracles, i: Input): seq<Scan.Scored> {
    o.near(i.address, i.locations, if i.config.k < |i.locations| then i.config.k else |i.locations|, i.matrix32, i.maxNorm)
  }

  lemma NearIndices(o: Oracles, i: Input)
    requires Sound(o)
    ensures forall t | 0 <= t < |Near(o, i)| :: Near(o, i)[t].index < |i.locations|
  {
  }

  /** `adaptive_write_two`. */
  ghost function Adaptive(o: Oracles, i: Input): Outcome
    requires Sound(o)
  {
    if !i.config.competitive then
      Outcome(i.locations, [], [NewLocation(i.nextId, i.address, i.counter, [])], i.nextId + 1, i.eta)
    else if Near(o, i) == [] then
      Outcome(i.locations, [], [NewLocation(i.nextId, Normalized(o, i.address), i.counter, [])], i.nextId + 1, i.eta)
    else
      NearIndices(o, i);
      Activated(o, i, Near(o, i))
  }

  // ----- the loops

  /** The activated locations take the input, one after the other. */
  method Join(o: Oracles, i: Input, near: seq<Scan.Scored>, winner: nat) returns (locations: seq<HardLocation>)
    requires winner < |near| && forall t | 0 <= t < |near| :: near[t].index < |i.locations|
    ensures locations == Joined(o, i, near, winner, |near|)
  {
    hide Normalized, Difference, AddScaled, Weight, Quotient, EtaWinner;
    locations := i.locations;
    var k := if i.config.k < |i.locations| then i.config.k else |i.locations|;
    var rate := EtaWinner(i, near[winner].index);
    for t := 0 to |near|
      invariant locations == Joined(o, i, near, winner, t)
    {
      var index := near[t].index;
      if !i.opts.gate || t == winner {
        var w := if i.opts.gate then 1.0 else Weight(near, t, k);
        var loc := locations[index];
        loc := loc.(counter := AddScaled(loc.counter, i.counter, w), writeCount := loc.writeCount + w);
        var lr := if i.opts.gate then Quotient(1.0, loc.writeCount) else if t == winner then rate else rate * 0.1;
        loc := loc.(address := Normalized(o, AddScaled(loc.address, Difference(i.address, loc.address), lr)));
        locations := locations[index := loc];
      }
    }
  }

  /** A neighbour list gains the peers it lacks, one by one. */
  method Union(list: seq<nat>, peers: seq<nat>, own: nat) returns (r: seq<nat>)
    ensures r == AddPeers(list, peers, own)
  {
    r := list;
    for t := 0 to |peers|
      invariant r == AddPeers(list, peers[..t], own)
    {
      assert peers[..t + 1][..t] == peers[..t];
      if peers[t] != own && peers[t] !in r {
        r := r + [peers[t]];
      }
    }
    assert peers[..|peers|] == peers;
  }

  /** Every activated location learns of its co-activated peers. */
  method Link(before: seq<HardLocation>, near: seq<Scan.Scored>, cap: nat) returns (locations: seq<HardLocation>)
    requires forall t | 0 <= t < |near| :: near[t].index < |before|
    ensures locations == Linked(before, near, ActivatedIds(before, near), cap, |near|)
  {
    hide AddPeers, KeepNewest;
    locations := before;
    var peers := ActivatedIds(before, near);
    for t := 0 to |near|
      invariant locations == Linked(before, near, peers, cap, t)
    {
      var loc := locations[near[t].index];
      var list := Union(loc.neighbors, peers, peers[t]);
      locations := locations[near[t].index := loc.(neighbors := KeepNewest(list, cap))];
    }
  }

  /** The winner's debt: the MDL gate charges it with how poorly it matched. */
  method Update(o: Oracles, i: Input, near: seq<Scan.Scored>, winner: nat) returns (locations: seq<HardLocation>)
    requires winner < |near| && forall t | 0 <= t < |near| :: near[t].index < |i.locations|
    ensures locations == Charged(o, i, near, winner, Joined(o, i, near, winner, |near|))
  {
    locations := Join(o, i, near, winner);
    if i.config.mdlGate {
      var loc := locations[near[winner].index];
      locations := locations[near[winner].index := loc.(surprise := loc.surprise + o.surpriseBits(near[winner].sim))];
    }
  }

  /** Select, update, link, regulate. */
  method WriteActivated(o: Oracles, i: Input, near: seq<Scan.Scored>) returns (out: Outcome)
    requires near != [] && forall t | 0 <= t < |near| :: near[t].index < |i.locations|
    ensures out == Activated(o, i, near)
  {
    hide Joined, Charged, Linked, Winner, Spawns, Overloaded, SplitParent, SplitChild, NewLocation, NeighborCap,
      KeepOldest, Normalized, EtaAfter;
    var locations, nextId, created: seq<HardLocation> := i.locations, i.nextId, [];
    var (winner, forced) := Winner(o, i, near);
    var index := near[winner].index;
    var spawns := Spawns(o, i, near, forced);
    if !spawns {
      locations := Update(o, i, near, winner);
    }
    var cap := NeighborCap(o, i.config, |locations|);
    if cap > 0 {
      locations := Link(locations, near, cap);
    }
    if spawns {
      created := [NewLocation(nextId, Normalized(o, i.address), i.counter,
                              if cap == 0 then [] else KeepOldest(ActivatedIds(locations, near), cap))];
      nextId := nextId + 1;
    } else if Overloaded(o, i.config, locations, index) {
      var parent := locations[index];
      locations := locations[index := SplitParent(parent, nextId, cap)];
      created := [SplitChild(o, parent, nextId, i.direction, cap)];
      nextId := nextId + 1;
    }
    out := Outcome(locations, Indices(near), created, nextId, EtaAfter(i.config, i.eta));
  }

  /** `adaptive_write_two`, as it runs. */
  method AdaptiveWriteTwo(o: Oracles, i: Input) returns (out: Outcome)
    requires Sound(o)
    ensures out == Adaptive(o, i)
  {
    hide Activated, Near, Normalized;
    if !i.config.competitive {
      return Outcome(i.locations, [], [NewLocation(i.nextId, i.address, i.counter, [])], i.nextId + 1, i.eta);
    }
    var near := Near(o, i);
    if near == [] {
      return Outcome(i.locations, [], [NewLocation(i.nextId, Normalized(o, i.address), i.counter, [])], i.nextId + 1, i.eta);
    }
    NearIndices(o, i);
    out := WriteActivated(o, i, near);
  }
}
