/** How the stored half follows the live half. */
module Consistency {
  import opened Wrappers
  import opened Vectors
  import opened Locations
  import opened Live
  import opened LiveLaws
  import opened Store
  import opened Write
  import opened WriteLaws
  import opened Steps

  // ----- the invariant

  /** Every stored location is under its own id, one that was given out, with
      vectors of the right size. */
  ghost predicate Keyed(m: map<nat, HardLocation>, d: nat, nextId: nat) {
    forall id | id in m :: m[id].id == id && id < nextId && |m[id].address| == d && |m[id].counter| == d
  }

  function DocNext(d: Disk): nat {
    if d.docNextId.Some? then d.docNextId.value else 0
  }

  /** References are to stored locations, of memories that never move them. */
  ghost predicate RefsStored(c: Config, d: Disk) {
    forall doc | doc in d.documents && d.documents[doc].ByLocation? ::
      !c.competitive && d.documents[doc].location in d.locations
  }

  ghost predicate DiskOK(c: Config, d: Disk) {
    && d.nextId.Some? && d.eta.Some?
    && Keyed(d.locations, c.d, d.nextId.value)
    && (forall doc | doc in d.documents :: doc < DocNext(d))
    && RefsStored(c, d)
  }

  ghost predicate CountersMatch(v: Live, d: Disk) {
    d.nextId == Some(v.nextId) && d.eta == Some(v.eta) && DocNext(d) == v.docNextId
  }

  /** The same locations, live and stored. */
  ghost predicate Aligned(locs: seq<HardLocation>, m: map<nat, HardLocation>) {
    && (forall x | 0 <= x < |locs| :: locs[x].id in m)
    && (forall id | id in m :: id in Ids(locs))
  }

  /** The same locations with the same content. */
  ghost predicate Mirrors(locs: seq<HardLocation>, m: map<nat, HardLocation>) {
    && (forall x | 0 <= x < |locs| :: locs[x].id in m && m[locs[x].id] == locs[x])
    && (forall id | id in m :: id in Ids(locs))
  }

  /** A location a document refers to has its stored address. */
  ghost predicate RefsAgree(locs: seq<HardLocation>, d: Disk) {
    forall doc, x | doc in d.documents && d.documents[doc].ByLocation? && 0 <= x < |locs|
                    && locs[x].id == d.documents[doc].location && locs[x].id in d.locations ::
      locs[x].address == d.locations[locs[x].id].address
  }

  /** What every operation of a collection keeps. */
  ghost predicate Inv(o: Oracles, w: World) {
    && DiskOK(w.live.config, w.disk)
    && (w.valid ==> LiveOK(o, w.live) && CountersMatch(w.live, w.disk) && Aligned(w.live.locations, w.disk.locations)
                    && RefsAgree(w.live.locations, w.disk))
  }

  /** The live half is what a reload would rebuild, locations by id. */
  ghost predicate InStep(w: World) {
    CountersMatch(w.live, w.disk) && Mirrors(w.live.locations, w.disk.locations)
  }

  // ----- storing locations

  lemma {:induction false} PutAllKeyed(m: map<nat, HardLocation>, locs: seq<HardLocation>, d: nat, nextId: nat)
    requires Keyed(m, d, nextId) && Sized(locs, d) && Below(locs, nextId)
    ensures Keyed(PutAll(m, locs), d, nextId)
  {
    if locs != [] {
      PutAllKeyed(m, locs[..|locs| - 1], d, nextId);
    }
  }

  /** Locations not stored stay as they were. */
  lemma {:induction false} PutAllElsewhere(m: map<nat, HardLocation>, locs: seq<HardLocation>, id: nat)
    requires forall x | 0 <= x < |locs| :: locs[x].id != id
    ensures (id in PutAll(m, locs) <==> id in m) && (id in m ==> PutAll(m, locs)[id] == m[id])
  {
    if locs != [] {
      PutAllElsewhere(m, locs[..|locs| - 1], id);
    }
  }

  /** Storing locations that agree wherever they share an id stores each of them. */
  lemma {:induction false} PutAllAt(m: map<nat, HardLocation>, locs: seq<HardLocation>, loc: HardLocation)
    requires exists x :: 0 <= x < |locs| && locs[x].id == loc.id
    requires forall x | 0 <= x < |locs| && locs[x].id == loc.id :: locs[x] == loc
    ensures loc.id in PutAll(m, locs) && PutAll(m, locs)[loc.id] == loc
  {
    var n := |locs| - 1;
    if locs[n].id != loc.id {
      PutAllAt(m, locs[..n], loc);
    }
  }

  lemma PickedAt(m: map<nat, HardLocation>, locs: seq<HardLocation>, picks: seq<nat>, x: nat)
    requires Distinct(Ids(locs)) && x < |locs| && forall t | 0 <= t < |picks| :: picks[t] < |locs|
    ensures var after := PutAll(m, Picked(locs, picks));
      if x in picks then locs[x].id in after && after[locs[x].id] == locs[x]
      else (locs[x].id in after <==> locs[x].id in m) && (locs[x].id in m ==> after[locs[x].id] == m[locs[x].id])
  {
    var picked := Picked(locs, picks);
    forall t | 0 <= t < |picked| ensures picked[t].id == locs[x].id <==> picks[t] == x {
      assert Ids(locs)[picks[t]] == locs[picks[t]].id && Ids(locs)[x] == locs[x].id;
    }
    if x in picks {
      var t :| 0 <= t < |picks| && picks[t] == x;
      assert picked[t].id == locs[x].id;
      PutAllAt(m, picked, locs[x]);
    } else {
      PutAllElsewhere(m, picked, locs[x].id);
    }
  }

  lemma PickedElsewhere(m: map<nat, HardLocation>, locs: seq<HardLocation>, picks: seq<nat>, id: nat)
    requires id !in Ids(locs) && forall t | 0 <= t < |picks| :: picks[t] < |locs|
    ensures var after := PutAll(m, Picked(locs, picks)); (id in after <==> id in m) && (id in m ==> after[id] == m[id])
  {
    var picked := Picked(locs, picks);
    forall t | 0 <= t < |picked| ensures picked[t].id != id {
      assert Ids(locs)[picks[t]] == locs[picks[t]].id;
    }
    PutAllElsewhere(m, picked, id);
  }

  // ----- a write

  ghost predicate WriteShape(v: Live, out: Outcome) {
    && InBounds(v, out)
    && (forall x | 0 <= x < |v.locations| :: out.locations[x].id == v.locations[x].id)
    && (forall x | 0 <= x < |v.locations| && x !in out.modified :: out.locations[x] == v.locations[x])
    && |out.created| <= 1 && out.nextId == v.nextId + |out.created|
    && (out.created != [] ==> out.created[0].id == v.nextId)
    && Distinct(Ids(out.locations)) && Below(out.locations, v.nextId)
    && Sized(After(out), v.config.d)
  }

  lemma OutcomeShape(o: Oracles, v: Live, it: Item)
    requires Sound(o) && LiveOK(o, v) && |it.address| == |it.counter| == v.config.d
    ensures WriteShape(v, OutcomeAt(o, v, it))
  {
    hide Adaptive, CachesRight, Distinct, Sound;
    var out := OutcomeAt(o, v, it);
    TakenFacts(o, v, it);
    CreatedDistinct(v.locations, out, v.nextId, InputAt(v, it));
    forall x | 0 <= x < |out.locations| ensures out.locations[x].id < v.nextId {
      assert out.locations[x].id == v.locations[x].id;
    }
  }

  /** Each location a write leaves is stored as it is, or not touched by the write. */
  lemma StoredAt(v: Live, d: Disk, out: Outcome, x: nat)
    requires WriteShape(v, out) && x < |After(out)|
    ensures var (m, id) := (StoredBy(d, out).locations, After(out)[x].id);
      if x < |v.locations| && x !in out.modified then
        (id in m <==> id in d.locations) && (id in m ==> m[id] == d.locations[id]) && After(out)[x] == v.locations[x]
      else id in m && m[id] == After(out)[x]
  {
    hide PutAll;
    var picked := PutAll(d.locations, Picked(out.locations, out.modified));
    if x < |v.locations| {
      PickedAt(d.locations, out.locations, out.modified, x);
      PutAllElsewhere(picked, out.created, out.locations[x].id);
    } else {
      PutAllAt(picked, out.created, out.created[0]);
    }
  }

  lemma StoredElsewhere(v: Live, d: Disk, out: Outcome, id: nat)
    requires WriteShape(v, out) && id !in Ids(After(out))
    ensures var m := StoredBy(d, out).locations; (id in m <==> id in d.locations) && (id in m ==> m[id] == d.locations[id])
  {
    hide PutAll;
    assert Ids(After(out)) == Ids(out.locations) + Ids(out.created);
    PickedElsewhere(d.locations, out.locations, out.modified, id);
    forall x | 0 <= x < |out.created| ensures out.created[x].id != id {
      assert Ids(out.created)[x] == out.created[x].id;
    }
    PutAllElsewhere(PutAll(d.locations, Picked(out.locations, out.modified)), out.created, id);
  }

  /** A write stores what it changed: the same locations live and stored before, the
      same after; the same content before, the same after. */
  lemma WriteStays(v: Live, d: Disk, out: Outcome)
    requires WriteShape(v, out)
    ensures Aligned(v.locations, d.locations) ==> Aligned(After(out), StoredBy(d, out).locations)
    ensures Mirrors(v.locations, d.locations) ==> Mirrors(After(out), StoredBy(d, out).locations)
  {
    hide StoredBy, Distinct;
    var (all, m) := (After(out), StoredBy(d, out).locations);
    assert Ids(all)[..|v.locations|] == Ids(v.locations);
    forall x | 0 <= x < |all|
      ensures Aligned(v.locations, d.locations) ==> all[x].id in m
      ensures Mirrors(v.locations, d.locations) ==> all[x].id in m && m[all[x].id] == all[x]
    {
      StoredAt(v, d, out, x);
    }
    forall id | id in m && id !in Ids(all) ensures id in d.locations && id !in Ids(v.locations) {
      StoredElsewhere(v, d, out, id);
    }
  }

  lemma WriteKeyed(v: Live, d: Disk, out: Outcome)
    requires WriteShape(v, out) && Keyed(d.locations, v.config.d, v.nextId)
    ensures Keyed(StoredBy(d, out).locations, v.config.d, out.nextId)
  {
    hide PutAll;
    assert Sized(out.locations, v.config.d) by {
      assert forall x | 0 <= x < |out.locations| :: After(out)[x] == out.locations[x];
    }
    assert Sized(out.created, v.config.d) by {
      assert forall x | 0 <= x < |out.created| :: After(out)[|out.locations| + x] == out.created[x];
    }
    PutAllKeyed(d.locations, Picked(out.locations, out.modified), v.config.d, out.nextId);
    PutAllKeyed(PutAll(d.locations, Picked(out.locations, out.modified)), out.created, v.config.d, out.nextId);
  }
}
