/** What every adaptive write keeps: the frame, conservation of counters, the
    neighbour graph and the learning rate. */
module WriteLaws {
  import opened Wrappers
  import opened Vectors
  import opened Locations
  import opened Write
  import Scan
  import Sorting

  ghost predicate InRange(near: seq<Scan.Scored>, n: nat) {
    forall t | 0 <= t < |near| :: near[t].index < n
  }

  ghost predicate Untouched(near: seq<Scan.Scored>, n: nat, x: nat)
    requires n <= |near|
  {
    forall t | 0 <= t < n :: near[t].index != x
  }

  // ----- the frame

  /** Same identity and same links. */
  ghost predicate SameLinks(a: HardLocation, b: HardLocation) {
    a.id == b.id && a.neighbors == b.neighbors && |a.counter| == |b.counter| && |a.address| == |b.address|
  }

  /** Same content, links aside. */
  ghost predicate SameContent(a: HardLocation, b: HardLocation) {
    b.(neighbors := a.neighbors) == a
  }

  lemma {:induction false} JoinedKeeps(o: Oracles, i: Input, near: seq<Scan.Scored>, winner: nat, n: nat, x: nat)
    requires n <= |near| && winner < |near| && InRange(near, |i.locations|) && x < |i.locations|
    ensures SameLinks(Joined(o, i, near, winner, n)[x], i.locations[x])
    ensures Untouched(near, n, x) ==> Joined(o, i, near, winner, n)[x] == i.locations[x]
  {
    hide Normalized, AddScaled, Share, Quotient, Difference;
    if n > 0 {
      JoinedKeeps(o, i, near, winner, n - 1, x);
      var r := Joined(o, i, near, winner, n - 1);
      var share := Share(i, near, winner, n - 1);
      if share.Some? && near[n - 1].index == x {
        AbsorbKeeps(o, i, r[x], share.value.0, share.value.1);
      }
    }
  }

  lemma AbsorbKeeps(o: Oracles, i: Input, loc: HardLocation, w: real, rate: real)
    ensures SameLinks(Absorb(o, i, loc, w, rate), loc)
  {
    hide Normalized, Difference, AddScaled, Quotient;
  }

  lemma {:induction false} LinkedKeeps(locs: seq<HardLocation>, near: seq<Scan.Scored>, peers: seq<nat>, cap: nat, n: nat, x: nat)
    requires n <= |near| == |peers| && InRange(near, |locs|) && x < |locs|
    ensures SameContent(Linked(locs, near, peers, cap, n)[x], locs[x])
    ensures Untouched(near, n, x) ==> Linked(locs, near, peers, cap, n)[x] == locs[x]
  {
    hide AddPeers, KeepNewest;
    if n > 0 {
      LinkedKeeps(locs, near, peers, cap, n - 1, x);
    }
  }

  // ----- the neighbour graph

  /** A neighbour list without repeats, without its owner, naming only ids given out. */
  ghost predicate GoodList(list: seq<nat>, own: nat, nextId: nat) {
    && Distinct(list)
    && own !in list
    && forall t | 0 <= t < |list| :: list[t] < nextId
  }

  /** What the engine keeps of a memory that never held more than `largest` locations. */
  ghost predicate Tidy(o: Oracles, c: Config, locs: seq<HardLocation>, nextId: nat, largest: nat) {
    && |locs| <= largest
    && Distinct(Ids(locs))
    && (forall x | 0 <= x < |locs| :: locs[x].id < nextId)
    && (forall x | 0 <= x < |locs| :: GoodList(locs[x].neighbors, locs[x].id, nextId))
    && (forall x | 0 <= x < |locs| :: |locs[x].neighbors| <= NeighborCap(o, c, largest))
  }

  lemma CapGrows(o: Oracles, c: Config, a: nat, b: nat)
    requires Sound(o) && a <= b
    ensures NeighborCap(o, c, a) <= NeighborCap(o, c, b)
  {
    var (x, y) := (if a == 0 then 1 else a, if b == 0 then 1 else b);
    assert o.lnCeil(x) <= o.lnCeil(y);
    ProductGrows(if c.k == 0 then 0 else c.k - 1, o.lnCeil(x), o.lnCeil(y));
  }

  lemma ProductGrows(k: nat, a: nat, b: nat)
    requires a <= b
    ensures k * a <= k * b
  {
  }

  lemma {:induction false} AddPeersGood(list: seq<nat>, peers: seq<nat>, own: nat, nextId: nat)
    requires GoodList(list, own, nextId) && forall t | 0 <= t < |peers| :: peers[t] < nextId
    ensures GoodList(AddPeers(list, peers, own), own, nextId)
  {
    if peers != [] {
      AddPeersGood(list, peers[..|peers| - 1], own, nextId);
    }
  }

  lemma KeepGood(list: seq<nat>, cap: nat, own: nat, nextId: nat)
    requires GoodList(list, own, nextId)
    ensures GoodList(KeepNewest(list, cap), own, nextId) && |KeepNewest(list, cap)| <= cap
    ensures GoodList(KeepOldest(list, cap), own, nextId) && |KeepOldest(list, cap)| <= cap
  {
  }

  /** Linking keeps every list good, and those it visits within the cap. */
  lemma {:induction false} LinkedGood(locs: seq<HardLocation>, near: seq<Scan.Scored>, cap: nat, n: nat, x: nat, nextId: nat)
    requires n <= |near| && InRange(near, |locs|) && x < |locs|
    requires forall y | 0 <= y < |locs| :: locs[y].id < nextId
    requires GoodList(locs[x].neighbors, locs[x].id, nextId)
    ensures GoodList(Linked(locs, near, ActivatedIds(locs, near), cap, n)[x].neighbors, locs[x].id, nextId)
    ensures !Untouched(near, n, x) ==> |Linked(locs, near, ActivatedIds(locs, near), cap, n)[x].neighbors| <= cap
  {
    hide AddPeers, KeepNewest, GoodList;
    var peers := ActivatedIds(locs, near);
    if n > 0 {
      LinkedGood(locs, near, cap, n - 1, x, nextId);
      var list := Linked(locs, near, peers, cap, n - 1)[x].neighbors;
      if near[n - 1].index == x {
        PeersGood(list, peers, locs[x].id, nextId, cap);
      }
    }
  }

  lemma PeersGood(list: seq<nat>, peers: seq<nat>, own: nat, nextId: nat, cap: nat)
    requires GoodList(list, own, nextId) && forall t | 0 <= t < |peers| :: peers[t] < nextId
    ensures GoodList(KeepNewest(AddPeers(list, peers, own), cap), own, nextId)
    ensures |KeepNewest(AddPeers(list, peers, own), cap)| <= cap
  {
    AddPeersGood(list, peers, own, nextId);
    KeepGood(AddPeers(list, peers, own), cap, own, nextId);
  }

  // ----- the phases of a write

  lemma UpdatedKeeps(o: Oracles, i: Input, near: seq<Scan.Scored>, x: nat)
    requires near != [] && InRange(near, |i.locations|) && x < |i.locations|
    ensures SameLinks(Updated(o, i, near)[x], i.locations[x])
    ensures Untouched(near, |near|, x) ==> Updated(o, i, near)[x] == i.locations[x]
  {
    hide Winner, Spawns, Joined;
    JoinedKeeps(o, i, near, Winner(o, i, near).0, |near|, x);
  }

  lemma ConnectedKeeps(o: Oracles, i: Input, near: seq<Scan.Scored>, x: nat)
    requires near != [] && InRange(near, |i.locations|) && x < |i.locations|
    ensures SameContent(Connected(o, i, near)[x], Updated(o, i, near)[x])
    ensures Connected(o, i, near)[x].id == i.locations[x].id
    ensures Untouched(near, |near|, x) ==> Connected(o, i, near)[x] == i.locations[x]
  {
    hide Updated, Linked, NeighborCap;
    UpdatedKeeps(o, i, near, x);
    var locs := Updated(o, i, near);
    LinkedKeeps(locs, near, ActivatedIds(locs, near), NeighborCap(o, i.config, |i.locations|), |near|, x);
  }

  /** The neighbour graph stays tidy through the first three phases, and every
      activated list is within the current cap. */
  lemma ConnectedGood(o: Oracles, i: Input, near: seq<Scan.Scored>, largest: nat, x: nat)
    requires Sound(o) && near != [] && InRange(near, |i.locations|) && x < |i.locations|
    requires Tidy(o, i.config, i.locations, i.nextId, largest)
    ensures GoodList(Connected(o, i, near)[x].neighbors, i.locations[x].id, i.nextId)
    ensures |Connected(o, i, near)[x].neighbors| <= NeighborCap(o, i.config, largest)
    ensures var cap := NeighborCap(o, i.config, |i.locations|);
      cap > 0 && !Untouched(near, |near|, x) ==> |Connected(o, i, near)[x].neighbors| <= cap
  {
    hide Updated, Linked, NeighborCap, GoodList, Distinct;
    var locs := Updated(o, i, near);
    forall y | 0 <= y < |locs| ensures SameLinks(locs[y], i.locations[y]) {
      UpdatedKeeps(o, i, near, y);
    }
    var cap := NeighborCap(o, i.config, |i.locations|);
    CapGrows(o, i.config, |i.locations|, largest);
    LinkedGood(locs, near, cap, |near|, x, i.nextId);
    ConnectedKeeps(o, i, near, x);
  }

  // ----- what a write leaves

  /** Nothing but links differs, or nothing at all, where the write did not go. */
  ghost predicate Framed(i: Input, out: Outcome) {
    && |out.locations| == |i.locations|
    && (forall t | 0 <= t < |out.modified| :: out.modified[t] < |i.locations|)
    && Distinct(out.modified)
    && (forall x | 0 <= x < |i.locations| :: out.locations[x].id == i.locations[x].id)
    && (forall x | 0 <= x < |i.locations| && x !in out.modified :: out.locations[x] == i.locations[x])
  }

  /** At most one location is created, with the next id. */
  ghost predicate CreatesNext(i: Input, out: Outcome) {
    && |out.created| <= 1
    && out.nextId == i.nextId + |out.created|
    && (out.created != [] ==> out.created[0].id == i.nextId)
  }

  lemma ActivatedFramed(o: Oracles, i: Input, near: seq<Scan.Scored>)
    requires near != [] && Nearest(near, |i.locations|, |near|)
    ensures Framed(i, Activated(o, i, near)) && CreatesNext(i, Activated(o, i, near))
  {
    hide Winner, Spawns, Connected, Overloaded, Normalized, NeighborCap, KeepOldest, Scale, AddScaled;
    var out := Activated(o, i, near);
    forall x | 0 <= x < |i.locations|
      ensures out.locations[x].id == i.locations[x].id
      ensures x !in out.modified ==> out.locations[x] == i.locations[x]
    {
      ConnectedKeeps(o, i, near, x);
      assert forall t | 0 <= t < |near| :: out.modified[t] == near[t].index;
    }
  }

  /** Every write, whatever its mode: it changes only the locations it reports
      modified, never an id, creates at most one location under the next id, and
      always joins or creates something. */
  lemma WriteFrame(o: Oracles, i: Input)
    requires Sound(o)
    ensures Framed(i, Adaptive(o, i)) && CreatesNext(i, Adaptive(o, i))
    ensures Adaptive(o, i).modified != [] || Adaptive(o, i).created != []
  {
    hide Activated, Normalized;
    if i.config.competitive && Near(o, i) != [] {
      NearIndices(o, i);
      ActivatedFramed(o, i, Near(o, i));
      ReportsActivated(o, i, Near(o, i));
    }
  }

  lemma ReportsActivated(o: Oracles, i: Input, near: seq<Scan.Scored>)
    requires near != [] && InRange(near, |i.locations|)
    ensures Activated(o, i, near).modified == Indices(near)
    ensures Activated(o, i, near).eta == EtaAfter(i.config, i.eta)
  {
    hide Winner, Spawns, Connected, SplitParent, SplitChild, Overloaded, Normalized, NeighborCap, KeepOldest;
  }

  /** A write that spawns changes nothing about an existing location but its links. */
  lemma SpawnLeavesContent(o: Oracles, i: Input, x: nat)
    requires Sound(o) && x < |i.locations| && i.config.competitive && Near(o, i) != []
    requires InRange(Near(o, i), |i.locations|)
    requires Spawns(o, i, Near(o, i), Winner(o, i, Near(o, i)).1)
    ensures SameContent(Adaptive(o, i).locations[x], i.locations[x])
    ensures |Adaptive(o, i).created| == 1
  {
    hide Winner, Spawns, Linked, Normalized, NeighborCap, KeepOldest;
    ConnectedKeeps(o, i, Near(o, i), x);
  }

  // ----- the learning rate

  /** The rate never rises and never leaves [eta_min, eta_0]. */
  lemma EtaStays(o: Oracles, i: Input)
    requires Sound(o) && ValidConfig(i.config) && i.config.etaMin <= i.eta <= i.config.eta0
    ensures i.config.etaMin <= Adaptive(o, i).eta <= i.eta
  {
    hide Activated, Normalized, EtaAfter;
    EtaAfterBounds(i.config, i.eta);
    if i.config.competitive && Near(o, i) != [] {
      NearIndices(o, i);
      ReportsActivated(o, i, Near(o, i));
    }
  }

  lemma EtaAfterBounds(c: Config, eta: real)
    requires ValidConfig(c) && c.etaMin <= eta <= c.eta0
    ensures c.etaMin <= EtaAfter(c, eta) <= eta
  {
    Shrinks(eta, c.lambda, eta * c.lambda);
  }

  lemma Shrinks(eta: real, decay: real, product: real)
    requires 0.0 <= eta && decay <= 1.0 && product == eta * decay
    ensures product <= eta
  {
  }

  // ----- the graph after a write

  lemma SplitGood(o: Oracles, parent: HardLocation, child: nat, direction: Vec, cap: nat)
    requires GoodList(parent.neighbors, parent.id, child) && parent.id < child && (cap > 0 ==> |parent.neighbors| <= cap)
    ensures var p := SplitParent(parent, child, cap);
      GoodList(p.neighbors, parent.id, child + 1) && p.id == parent.id && (cap > 0 ==> |p.neighbors| <= cap)
        && (cap == 0 ==> p.neighbors == parent.neighbors)
    ensures var c := SplitChild(o, parent, child, direction, cap);
      GoodList(c.neighbors, child, child + 1) && c.id == child && |c.neighbors| <= cap
  {
    hide Normalized, AddScaled, Scale;
  }

  lemma SpawnGood(o: Oracles, i: Input, near: seq<Scan.Scored>, cap: nat)
    requires near != [] && Nearest(near, |i.locations|, |near|)
    requires Distinct(Ids(i.locations)) && forall x | 0 <= x < |i.locations| :: i.locations[x].id < i.nextId
    ensures GoodList(KeepOldest(ActivatedIds(Connected(o, i, near), near), cap), i.nextId, i.nextId + 1)
    ensures |KeepOldest(ActivatedIds(Connected(o, i, near), near), cap)| <= cap
  {
    hide Connected;
    var ids := ActivatedIds(Connected(o, i, near), near);
    forall t | 0 <= t < |near| ensures ids[t] == Ids(i.locations)[near[t].index] {
      ConnectedKeeps(o, i, near, near[t].index);
    }
    assert GoodList(ids, i.nextId, i.nextId);
    KeepGood(ids, cap, i.nextId, i.nextId);
  }

  ghost function Larger(a: nat, b: nat): nat {
    if a < b then b else a
  }

  /** A list that was within the cap of a smaller memory is within a larger one's. */
  lemma TidyGrows(o: Oracles, c: Config, locs: seq<HardLocation>, nextId: nat, largest: nat, nextId': nat, largest': nat)
    requires Sound(o) && Tidy(o, c, locs, nextId, largest) && nextId <= nextId' && largest <= largest'
    ensures Tidy(o, c, locs, nextId', largest')
  {
    hide NeighborCap, Distinct;
    CapGrows(o, c, largest, largest');
  }

  lemma TidyUpdate(o: Oracles, c: Config, locs: seq<HardLocation>, nextId: nat, largest: nat, x: nat, loc: HardLocation)
    requires Tidy(o, c, locs, nextId, largest) && x < |locs|
    requires loc.id == locs[x].id && GoodList(loc.neighbors, loc.id, nextId) && |loc.neighbors| <= NeighborCap(o, c, largest)
    ensures Tidy(o, c, locs[x := loc], nextId, largest)
  {
    hide NeighborCap, GoodList;
    assert Ids(locs[x := loc]) == Ids(locs);
  }

  lemma TidyAppend(o: Oracles, c: Config, locs: seq<HardLocation>, nextId: nat, largest: nat, loc: HardLocation)
    requires Tidy(o, c, locs, nextId, largest) && |locs| < largest
    requires forall x | 0 <= x < |locs| :: locs[x].id != loc.id
    requires loc.id < nextId && GoodList(loc.neighbors, loc.id, nextId) && |loc.neighbors| <= NeighborCap(o, c, largest)
    ensures Tidy(o, c, locs + [loc], nextId, largest)
  {
    hide NeighborCap, GoodList;
    var ids := Ids(locs + [loc]);
    assert ids == Ids(locs) + [loc.id];
    assert forall x | 0 <= x < |locs| :: Ids(locs)[x] == locs[x].id;
  }

  lemma ConnectedTidy(o: Oracles, i: Input, near: seq<Scan.Scored>, largest: nat)
    requires Sound(o) && near != [] && InRange(near, |i.locations|)
    requires Tidy(o, i.config, i.locations, i.nextId, largest)
    ensures Tidy(o, i.config, Connected(o, i, near), i.nextId, largest)
  {
    hide Connected, NeighborCap, GoodList, Distinct;
    var locs := Connected(o, i, near);
    forall x | 0 <= x < |locs|
      ensures locs[x].id == i.locations[x].id && GoodList(locs[x].neighbors, locs[x].id, i.nextId)
      ensures |locs[x].neighbors| <= NeighborCap(o, i.config, largest)
    {
      ConnectedKeeps(o, i, near, x);
      ConnectedGood(o, i, near, largest, x);
    }
    assert Ids(locs) == Ids(i.locations);
  }

  ghost function After(out: Outcome): seq<HardLocation> {
    out.locations + out.created
  }

  lemma SpawnTidy(o: Oracles, c: Config, locs: seq<HardLocation>, nextId: nat, largest: nat, child: HardLocation)
    requires Sound(o) && Tidy(o, c, locs, nextId, largest)
    requires child.id == nextId && GoodList(child.neighbors, nextId, nextId + 1)
    requires |child.neighbors| <= NeighborCap(o, c, |locs|)
    ensures Tidy(o, c, locs + [child], nextId + 1, Larger(largest, |locs| + 1))
  {
    hide NeighborCap, GoodList, Distinct;
    var more := Larger(largest, |locs| + 1);
    TidyGrows(o, c, locs, nextId, largest, nextId + 1, more);
    CapGrows(o, c, |locs|, more);
    TidyAppend(o, c, locs, nextId + 1, more, child);
  }

  lemma SplitTidy(o: Oracles, c: Config, locs: seq<HardLocation>, nextId: nat, largest: nat, x: nat,
                  parent: HardLocation, child: HardLocation)
    requires Sound(o) && Tidy(o, c, locs, nextId, largest) && x < |locs|
    requires parent.id == locs[x].id && GoodList(parent.neighbors, parent.id, nextId + 1)
    requires child.id == nextId && GoodList(child.neighbors, nextId, nextId + 1)
    requires |child.neighbors| <= NeighborCap(o, c, |locs|) && |parent.neighbors| <= NeighborCap(o, c, largest)
    ensures Tidy(o, c, locs[x := parent] + [child], nextId + 1, Larger(largest, |locs| + 1))
  {
    hide NeighborCap, GoodList, Distinct;
    var more := Larger(largest, |locs| + 1);
    TidyGrows(o, c, locs, nextId, largest, nextId + 1, more);
    CapGrows(o, c, |locs|, more);
    CapGrows(o, c, largest, more);
    TidyUpdate(o, c, locs, nextId + 1, more, x, parent);
    TidyAppend(o, c, locs[x := parent], nextId + 1, more, child);
  }

  lemma OverloadTidy(o: Oracles, i: Input, near: seq<Scan.Scored>, largest: nat, winner: nat)
    requires Sound(o) && winner < |near| && InRange(near, |i.locations|)
    requires Tidy(o, i.config, i.locations, i.nextId, largest)
    ensures var (x, locs, cap) := (near[winner].index, Connected(o, i, near), NeighborCap(o, i.config, |i.locations|));
      Tidy(o, i.config, locs[x := SplitParent(locs[x], i.nextId, cap)]
                        + [SplitChild(o, locs[x], i.nextId, i.direction, cap)],
           i.nextId + 1, Larger(largest, |locs| + 1))
  {
    hide NeighborCap, Connected, GoodList, Distinct, SplitParent, SplitChild;
    var (x, locs, cap) := (near[winner].index, Connected(o, i, near), NeighborCap(o, i.config, |i.locations|));
    ConnectedTidy(o, i, near, largest);
    ConnectedGood(o, i, near, largest, x);
    ConnectedKeeps(o, i, near, x);
    SplitGood(o, locs[x], i.nextId, i.direction, cap);
    CapGrows(o, i.config, |i.locations|, largest);
    SplitTidy(o, i.config, locs, i.nextId, largest, x, SplitParent(locs[x], i.nextId, cap),
              SplitChild(o, locs[x], i.nextId, i.direction, cap));
  }

  lemma ActivatedTidy(o: Oracles, i: Input, near: seq<Scan.Scored>, largest: nat)
    requires Sound(o) && near != [] && Nearest(near, |i.locations|, |near|)
    requires Tidy(o, i.config, i.locations, i.nextId, largest)
    ensures var out := Activated(o, i, near);
      Tidy(o, i.config, After(out), out.nextId, Larger(largest, |After(out)|))
  {
    hide Winner, Spawns, Overloaded, NeighborCap, Connected, Normalized, SplitParent, SplitChild, KeepOldest, EtaAfter,
      GoodList, Distinct, Sound;
    var (winner, forced) := Winner(o, i, near);
    var locs := Connected(o, i, near);
    var cap := NeighborCap(o, i.config, |i.locations|);
    ConnectedTidy(o, i, near, largest);
    if Spawns(o, i, near, forced) {
      SpawnGood(o, i, near, cap);
      NoneGood(i.nextId);
      SpawnTidy(o, i.config, locs, i.nextId, largest, Activated(o, i, near).created[0]);
    } else if Overloaded(o, i.config, locs, near[winner].index) {
      OverloadTidy(o, i, near, largest, winner);
    } else {
      assert After(Activated(o, i, near)) == locs;
    }
  }

  lemma NoneGood(nextId: nat)
    ensures GoodList([], nextId, nextId + 1)
  {
  }

  /** Every write keeps ids unique and below the next id, and every neighbour
      list free of repeats, of its owner, and within the cap at the largest size
      the memory has had. */
  lemma WriteKeepsTidy(o: Oracles, i: Input, largest: nat)
    requires Sound(o) && Tidy(o, i.config, i.locations, i.nextId, largest)
    ensures var out := Adaptive(o, i);
      Tidy(o, i.config, After(out), out.nextId, Larger(largest, |After(out)|))
  {
    hide Activated, Normalized, NeighborCap, GoodList, Distinct;
    if i.config.competitive && Near(o, i) != [] {
      NearIndices(o, i);
      ActivatedTidy(o, i, Near(o, i), largest);
    } else {
      NoneGood(i.nextId);
      SpawnTidy(o, i.config, i.locations, i.nextId, largest, Adaptive(o, i).created[0]);
    }
  }

  // ----- the search a write relies on

  /** The scan's reference answer is what a write expects of its search: k
      different locations, the most similar first. */
  lemma TopKIsNearest(sims: seq<real>, k: nat)
    requires k <= |sims|
    ensures Nearest(Scan.TopK(sims, k), |sims|, k)
  {
    hide Sorting.Sort, Scan.SimsOf, Scan.AllScored;
    var s := Sorting.Sort(Scan.AllScored(sims), Scan.Before);
    Scan.RankedFacts(sims);
    Scan.TopAreScores(sims, k);
    assert Scan.TopK(sims, k) == s[..k];
    forall a | 0 < a < k ensures s[a].sim <= s[0].sim {
      assert Scan.Before(s[0], s[a]);
    }
  }
}
