/** The in-memory half of a collection: `EAMInner`, its locations and the caches it
    updates incrementally. */
module Live {
  import opened Wrappers
  import opened Vectors
  import opened Locations
  import Rounding
  import Sorting

  /** What an `EAMInner` holds, apart from its validity flag and version. */
  datatype Live = Live(config: Config, locations: seq<HardLocation>, nextId: nat, eta: real, docNextId: nat,
                       landmarks: seq<nat>, landmarksAt: nat, idLookup: seq<Option<nat>>,
                       rows: seq<Vec>, rows32: seq<Vec>, maxNorm: real)

  // ----- what the caches are rebuilt to

  function MaxId(locs: seq<HardLocation>): (m: nat)
    ensures forall x | 0 <= x < |locs| :: locs[x].id <= m
  {
    if locs == [] then 0
    else
      var m := MaxId(locs[..|locs| - 1]);
      if m < locs[|locs| - 1].id then locs[|locs| - 1].id else m
  }

  /** The lookup after locations start..n have been entered, growing it to fit. */
  function Entered(lookup: seq<Option<nat>>, locs: seq<HardLocation>, start: nat, n: nat): seq<Option<nat>>
    requires start <= n <= |locs|
  {
    if n == start then lookup
    else
      var before := Entered(lookup, locs, start, n - 1);
      var id := locs[n - 1].id;
      var fit := if id < |before| then before else before + seq(id + 1 - |before|, _ => None);
      fit[id := Some(n - 1)]
  }

  /** `build_id_lookup`. */
  function BuiltLookup(locs: seq<HardLocation>): seq<Option<nat>> {
    Entered(seq(MaxId(locs) + 1, _ => None), locs, 0, |locs|)
  }

  datatype Counted = Counted(index: nat, writes: real)

  predicate MoreWritten(a: Counted, b: Counted) {
    a.writes >= b.writes
  }

  function CountedOf(locs: seq<HardLocation>): (r: seq<Counted>)
    ensures |r| == |locs|
  {
    seq(|locs|, i requires 0 <= i < |locs| => Counted(i, locs[i].writeCount))
  }

  /** `select_landmarks`: the most written locations, or all of a few. */
  function Landmarks(locs: seq<HardLocation>, wanted: nat): seq<nat> {
    if |locs| <= wanted then seq<nat>(|locs|, i requires 0 <= i < |locs| => i)
    else
      Sorting.SortIsPermutation(CountedOf(locs), MoreWritten);
      var ranked := Sorting.Sort(CountedOf(locs), MoreWritten);
      seq(wanted, i requires 0 <= i < wanted => ranked[i].index)
  }

  function RowsOf(locs: seq<HardLocation>): (r: seq<Vec>)
    ensures |r| == |locs|
  {
    seq(|locs|, i requires 0 <= i < |locs| => locs[i].address)
  }

  function Rows32Of(o: Oracles, locs: seq<HardLocation>): (r: seq<Vec>)
    ensures |r| == |locs|
  {
    seq(|locs|, i requires 0 <= i < |locs| => Rounding.ToF32(locs[i].address, o.to32))
  }

  function MaxNormOf(o: Oracles, locs: seq<HardLocation>, from: real): real {
    if locs == [] then from
    else Max(MaxNormOf(o, locs[..|locs| - 1], from), o.norm(locs[|locs| - 1].address))
  }

  /** `rebuild_graph_cache`. */
  function Rebuilt(o: Oracles, v: Live): Live {
    v.(landmarks := Landmarks(v.locations, v.config.numLandmarks), landmarksAt := |v.locations|,
       idLookup := BuiltLookup(v.locations), rows := RowsOf(v.locations), rows32 := Rows32Of(o, v.locations),
       maxNorm := MaxNormOf(o, v.locations, 0.0))
  }

  // ----- what the caches should be

  /** The lookup gives each location's index under its id, and nothing else. */
  ghost predicate LookupRight(lookup: seq<Option<nat>>, locs: seq<HardLocation>, n: nat)
    requires n <= |locs|
  {
    && (forall x | 0 <= x < n :: locs[x].id < |lookup| && lookup[locs[x].id] == Some(x))
    && (forall id | 0 <= id < |lookup| && lookup[id].Some? :: lookup[id].value < n && locs[lookup[id].value].id == id)
  }

  ghost predicate CachesRight(o: Oracles, v: Live) {
    && v.rows == RowsOf(v.locations)
    && v.rows32 == Rows32Of(o, v.locations)
    && LookupRight(v.idLookup, v.locations, |v.locations|)
    && v.maxNorm >= 0.0
    && (forall x | 0 <= x < |v.locations| :: o.norm(v.locations[x].address) <= v.maxNorm)
    && (forall t | 0 <= t < |v.landmarks| :: v.landmarks[t] < |v.locations|)
  }

  lemma {:induction false} EnteredRight(lookup: seq<Option<nat>>, locs: seq<HardLocation>, start: nat, n: nat)
    requires start <= n <= |locs| && Distinct(Ids(locs)) && LookupRight(lookup, locs, start)
    ensures LookupRight(Entered(lookup, locs, start, n), locs, n)
  {
    hide LookupRight, Distinct;
    if n > start {
      EnteredRight(lookup, locs, start, n - 1);
      var before := Entered(lookup, locs, start, n - 1);
      EnterOne(before, locs, n - 1);
      assert Entered(before, locs, n - 1, n - 1) == before;
    }
  }

  lemma EnterOne(lookup: seq<Option<nat>>, locs: seq<HardLocation>, n: nat)
    requires n < |locs| && Distinct(Ids(locs)) && LookupRight(lookup, locs, n)
    ensures LookupRight(Entered(lookup, locs, n, n + 1), locs, n + 1)
  {
    assert forall x | 0 <= x < |locs| :: Ids(locs)[x] == locs[x].id;
    assert Entered(lookup, locs, n, n) == lookup;
  }

  lemma BuiltLookupRight(locs: seq<HardLocation>)
    requires Distinct(Ids(locs))
    ensures LookupRight(BuiltLookup(locs), locs, |locs|)
  {
    EnteredRight(seq(MaxId(locs) + 1, _ => None), locs, 0, |locs|);
  }

  lemma LandmarksInRange(locs: seq<HardLocation>, wanted: nat)
    ensures forall t | 0 <= t < |Landmarks(locs, wanted)| :: Landmarks(locs, wanted)[t] < |locs|
  {
    hide Sorting.Sort;
    var counted := CountedOf(locs);
    var ranked := Sorting.Sort(counted, MoreWritten);
    Sorting.SortIsPermutation(counted, MoreWritten);
    forall t | 0 <= t < |ranked| ensures ranked[t].index < |locs| {
      assert ranked[t] in ranked;
      Sorting.SameMembers(counted, ranked, ranked[t]);
    }
  }

  /** Landmarks are the most written locations, each once: no other is written more. */
  lemma LandmarksAreTop(locs: seq<HardLocation>, wanted: nat)
    ensures var r := Landmarks(locs, wanted);
      && |r| == (if |locs| < wanted then |locs| else wanted)
      && (forall s, t | 0 <= s < t < |r| :: r[s] != r[t])
      && (forall t | 0 <= t < |r| :: r[t] < |locs|)
      && forall x, t | 0 <= x < |locs| && x !in r && 0 <= t < |r| :: r[t] < |locs| && locs[x].writeCount <= locs[r[t]].writeCount
  {
    hide Sorting.Sort, Sorting.Sorted;
    LandmarksInRange(locs, wanted);
    if |locs| > wanted {
      var (counted, r) := (CountedOf(locs), Landmarks(locs, wanted));
      var ranked := Sorting.Sort(counted, MoreWritten);
      Sorting.SortIsPermutation(counted, MoreWritten);
      Ranked(counted);
      forall s | 0 <= s < |ranked| ensures ranked[s].index < |locs| && ranked[s] == counted[ranked[s].index] {
        assert ranked[s] in ranked;
        Sorting.SameMembers(counted, ranked, ranked[s]);
      }
      forall s, t | 0 <= s < t < |ranked| ensures ranked[s].index != ranked[t].index {
        CountedOnce(locs, ranked, s, t);
      }
      assert forall s | 0 <= s < wanted :: ranked[s].index == r[s] && r[s] in r;
      forall x, t | 0 <= x < |locs| && x !in r && 0 <= t < |r| ensures locs[x].writeCount <= locs[r[t]].writeCount {
        assert counted[x] in counted;
        Sorting.SameMembers(ranked, counted, counted[x]);
        var s :| 0 <= s < |ranked| && ranked[s] == counted[x];
        assert MoreWritten(ranked[t], ranked[s]);
      }
    }
  }

  lemma Ranked(counted: seq<Counted>)
    ensures var ranked := Sorting.Sort(counted, MoreWritten);
      |ranked| == |counted| && forall s, t | 0 <= s < t < |ranked| :: MoreWritten(ranked[s], ranked[t])
  {
    hide Sorting.Sort;
    Sorting.SortIsPermutation(counted, MoreWritten);
    assert Sorting.TotalPreorder(MoreWritten);
    Sorting.SortIsSorted(counted, MoreWritten);
  }

  /** A list that two places of the ranking share would be counted twice. */
  lemma CountedOnce(locs: seq<HardLocation>, ranked: seq<Counted>, s: nat, t: nat)
    requires multiset(ranked) == multiset(CountedOf(locs)) && s < t < |ranked|
    requires forall u | 0 <= u < |ranked| :: ranked[u].index < |locs| && ranked[u] == CountedOf(locs)[ranked[u].index]
    ensures ranked[s].index != ranked[t].index
  {
    if ranked[s].index == ranked[t].index {
      TwoPlaces(ranked, s, t);
      OnePlace(CountedOf(locs), ranked[s].index);
    }
  }

  lemma TwoPlaces(xs: seq<Counted>, s: nat, t: nat)
    requires s < t < |xs| && xs[s] == xs[t]
    ensures multiset(xs)[xs[s]] >= 2
  {
    assert xs == xs[..t] + ([xs[t]] + xs[t + 1..]);
    assert xs[..t][s] in xs[..t];
  }

  lemma OnePlace(xs: seq<Counted>, x: nat)
    requires x < |xs| && forall y | 0 <= y < |xs| && y != x :: xs[y] != xs[x]
    ensures multiset(xs)[xs[x]] == 1
  {
    assert xs == xs[..x] + ([xs[x]] + xs[x + 1..]);
    assert xs[x] !in xs[..x] && xs[x] !in xs[x + 1..];
  }

  /** The norm bound is no larger than it need be: it was there, or a location reaches it. */
  lemma {:induction false} MaxNormReached(o: Oracles, locs: seq<HardLocation>, from: real)
    ensures MaxNormOf(o, locs, from) == from
         || exists x :: 0 <= x < |locs| && o.norm(locs[x].address) == MaxNormOf(o, locs, from)
  {
    if locs != [] {
      var n := |locs| - 1;
      MaxNormReached(o, locs[..n], from);
      if MaxNormOf(o, locs, from) != MaxNormOf(o, locs[..n], from) {
        assert o.norm(locs[n].address) == MaxNormOf(o, locs, from);
      } else if MaxNormOf(o, locs, from) != from {
        var x :| 0 <= x < n && o.norm(locs[..n][x].address) == MaxNormOf(o, locs[..n], from);
        assert o.norm(locs[x].address) == MaxNormOf(o, locs, from);
      }
    }
  }

  /** After a refresh there are as many landmarks as wanted, or as there are locations; and
      the memory has grown by less than a quarter, or 256 locations, since they were chosen.
      They are chosen anew only to bring that about. */
  lemma RefreshedIsRecent(v: Live)
    requires v.config.numLandmarks > 0
    ensures var (r, n) := (Refreshed(v), |v.locations|);
      && |r.landmarks| >= (if v.config.numLandmarks < n then v.config.numLandmarks else n)
      && (n < r.landmarksAt + 256 || n < r.landmarksAt + r.landmarksAt / 4)
      && (if (|v.landmarks| < v.config.numLandmarks && |v.landmarks| < n)
             || (n >= v.landmarksAt + 256 && n >= v.landmarksAt + v.landmarksAt / 4)
          then r == v.(landmarks := Landmarks(v.locations, v.config.numLandmarks), landmarksAt := n)
          else r == v)
  {
    hide Landmarks;
    LandmarksAreTop(v.locations, v.config.numLandmarks);
  }

  lemma {:induction false} MaxNormBounds(o: Oracles, locs: seq<HardLocation>, from: real)
    ensures from <= MaxNormOf(o, locs, from)
    ensures forall x | 0 <= x < |locs| :: o.norm(locs[x].address) <= MaxNormOf(o, locs, from)
  {
    if locs != [] {
      MaxNormBounds(o, locs[..|locs| - 1], from);
    }
  }

  /** A full rebuild makes the caches right. */
  lemma RebuildIsRight(o: Oracles, v: Live)
    requires Distinct(Ids(v.locations))
    ensures CachesRight(o, Rebuilt(o, v))
  {
    hide BuiltLookup, Landmarks, MaxNormOf, LookupRight, Distinct;
    BuiltLookupRight(v.locations);
    LandmarksInRange(v.locations, v.config.numLandmarks);
    MaxNormBounds(o, v.locations, 0.0);
  }

  // ----- the incremental updates

  /** `sync_addresses`, over the first n indices. */
  function Synced(o: Oracles, v: Live, indices: seq<nat>, n: nat): (r: Live)
    requires n <= |indices| && |v.rows| == |v.rows32| == |v.locations|
    requires forall t | 0 <= t < |indices| :: indices[t] < |v.locations|
    ensures |r.rows| == |r.rows32| == |v.locations| && r.locations == v.locations
    ensures r == v.(rows := r.rows, rows32 := r.rows32, maxNorm := r.maxNorm)
  {
    if n == 0 then v
    else
      var before := Synced(o, v, indices, n - 1);
      var x := indices[n - 1];
      var address := v.locations[x].address;
      before.(rows := before.rows[x := address], rows32 := before.rows32[x := Rounding.ToF32(address, o.to32)],
              maxNorm := Max(before.maxNorm, o.norm(address)))
  }

  /** `refresh_landmarks`. */
  function Refreshed(v: Live): Live {
    var len := |v.locations|;
    var wanted := if v.config.numLandmarks < len then v.config.numLandmarks else len;
    var step := if v.landmarksAt / 4 < 256 then 256 else v.landmarksAt / 4;
    if v.config.numLandmarks > 0 && (|v.landmarks| < wanted || len >= v.landmarksAt + step) then
      v.(landmarks := Landmarks(v.locations, v.config.numLandmarks), landmarksAt := len)
    else v
  }

  /** `extend_id_lookup` and `append_addresses`, for the locations from start on. */
  function Appended(o: Oracles, v: Live, start: nat): Live
    requires start <= |v.locations|
  {
    var added := v.locations[start..];
    Refreshed(v.(idLookup := Entered(v.idLookup, v.locations, start, |v.locations|),
                 rows := v.rows + RowsOf(added), rows32 := v.rows32 + Rows32Of(o, added),
                 maxNorm := MaxNormOf(o, added, v.maxNorm)))
  }

  /** Right but for the rows of the locations just changed. */
  ghost predicate RightBut(o: Oracles, v: Live, stale: seq<nat>) {
    && |v.rows| == |v.rows32| == |v.locations|
    && (forall x | 0 <= x < |v.locations| && x !in stale ::
          v.rows[x] == v.locations[x].address && v.rows32[x] == Rounding.ToF32(v.locations[x].address, o.to32)
          && o.norm(v.locations[x].address) <= v.maxNorm)
    && LookupRight(v.idLookup, v.locations, |v.locations|)
    && v.maxNorm >= 0.0
    && (forall t | 0 <= t < |v.landmarks| :: v.landmarks[t] < |v.locations|)
  }

  lemma {:induction false} SyncedRows(o: Oracles, v: Live, indices: seq<nat>, n: nat, x: nat)
    requires n <= |indices| && |v.rows| == |v.rows32| == |v.locations| && x < |v.locations|
    requires forall t | 0 <= t < |indices| :: indices[t] < |v.locations|
    ensures var r := Synced(o, v, indices, n);
      && r.maxNorm >= v.maxNorm
      && if x in indices[..n] then
           r.rows[x] == v.locations[x].address && r.rows32[x] == Rounding.ToF32(v.locations[x].address, o.to32)
           && o.norm(v.locations[x].address) <= r.maxNorm
         else r.rows[x] == v.rows[x] && r.rows32[x] == v.rows32[x]
  {
    if n > 0 {
      SyncedRows(o, v, indices, n - 1, x);
      assert indices[..n] == indices[..n - 1] + [indices[n - 1]];
    }
  }

  /** Syncing what changed makes every row right again. */
  lemma SyncIsRight(o: Oracles, v: Live, indices: seq<nat>)
    requires RightBut(o, v, indices) && forall t | 0 <= t < |indices| :: indices[t] < |v.locations|
    ensures CachesRight(o, Synced(o, v, indices, |indices|))
  {
    hide Synced, LookupRight;
    assert indices[..|indices|] == indices;
    forall x | 0 <= x < |v.locations|
      ensures var r := Synced(o, v, indices, |indices|);
        r.rows[x] == v.locations[x].address && r.rows32[x] == Rounding.ToF32(v.locations[x].address, o.to32)
        && o.norm(v.locations[x].address) <= r.maxNorm && r.maxNorm >= v.maxNorm
    {
      SyncedRows(o, v, indices, |indices|, x);
    }
    SyncedNorm(o, v, indices, |indices|);
  }

  lemma {:induction false} SyncedNorm(o: Oracles, v: Live, indices: seq<nat>, n: nat)
    requires n <= |indices| && |v.rows| == |v.rows32| == |v.locations|
    requires forall t | 0 <= t < |indices| :: indices[t] < |v.locations|
    ensures Synced(o, v, indices, n).maxNorm >= v.maxNorm
  {
    if n > 0 {
      SyncedNorm(o, v, indices, n - 1);
    }
  }

  lemma RefreshIsRight(o: Oracles, v: Live)
    requires CachesRight(o, v)
    ensures CachesRight(o, Refreshed(v))
  {
    hide LookupRight, Landmarks;
    LandmarksInRange(v.locations, v.config.numLandmarks);
  }

  /** Appending keeps right caches right. */
  lemma AppendIsRight(o: Oracles, v: Live, more: seq<HardLocation>)
    requires CachesRight(o, v) && Distinct(Ids(v.locations + more))
    ensures CachesRight(o, Appended(o, v.(locations := v.locations + more), |v.locations|))
  {
    hide LookupRight, Landmarks, Refreshed, Entered, MaxNormOf;
    var all := v.locations + more;
    assert all[|v.locations|..] == more;
    PrefixRight(v.idLookup, v.locations, more);
    EnteredRight(v.idLookup, all, |v.locations|, |all|);
    MaxNormBounds(o, more, v.maxNorm);
    var grown := v.(locations := all, idLookup := Entered(v.idLookup, all, |v.locations|, |all|),
                    rows := v.rows + RowsOf(more), rows32 := v.rows32 + Rows32Of(o, more),
                    maxNorm := MaxNormOf(o, more, v.maxNorm));
    RefreshIsRight(o, grown);
  }

  lemma PrefixRight(lookup: seq<Option<nat>>, locs: seq<HardLocation>, more: seq<HardLocation>)
    requires LookupRight(lookup, locs, |locs|)
    ensures LookupRight(lookup, locs + more, |locs|)
  {
  }

  lemma NoRows(o: Oracles, from: real)
    ensures RowsOf([]) == [] && Rows32Of(o, []) == [] && MaxNormOf(o, [], from) == from
  {
  }

  /** The rows of one more location. */
  lemma RowsGrow(o: Oracles, locs: seq<HardLocation>, start: nat, x: nat, from: real)
    requires start <= x < |locs|
    ensures RowsOf(locs[start..x + 1]) == RowsOf(locs[start..x]) + [locs[x].address]
    ensures Rows32Of(o, locs[start..x + 1]) == Rows32Of(o, locs[start..x]) + [Rounding.ToF32(locs[x].address, o.to32)]
    ensures MaxNormOf(o, locs[start..x + 1], from) == Max(MaxNormOf(o, locs[start..x], from), o.norm(locs[x].address))
  {
    assert locs[start..x + 1][..x - start] == locs[start..x];
  }

  // ----- the caches as they are kept

  class Inner {
    var valid: bool
    var config: Config
    var locations: seq<HardLocation>
    var nextId: nat
    var eta: real
    var docNextId: nat
    var landmarks: seq<nat>
    var landmarksAt: nat
    var idLookup: seq<Option<nat>>
    var addressMatrix: seq<Vec>
    var matrix32: seq<Vec>
    var maxNorm: real
    var version: nat

    function Contents(): Live
      reads this
    {
      Live(config, locations, nextId, eta, docNextId, landmarks, landmarksAt, idLookup, addressMatrix, matrix32, maxNorm)
    }

    constructor (config: Config, locations: seq<HardLocation>, nextId: nat, eta: real, docNextId: nat, o: Oracles)
      ensures Contents() == Rebuilt(o, Live(config, locations, nextId, eta, docNextId, [], 0, [], [], [], 0.0))
      ensures valid && version == 0
    {
      valid, version := true, 0;
      this.config, this.locations, this.nextId, this.eta, this.docNextId := config, locations, nextId, eta, docNextId;
      idLookup := BuiltLookup(locations);
      landmarks := Landmarks(locations, config.numLandmarks);
      landmarksAt := |locations|;
      addressMatrix, matrix32 := RowsOf(locations), Rows32Of(o, locations);
      maxNorm := MaxNormOf(o, locations, 0.0);
    }

    /** `rebuild_graph_cache`. */
    method RebuildGraphCache(o: Oracles)
      modifies this
      ensures Contents() == Rebuilt(o, old(Contents())) && valid == old(valid) && version == old(version)
    {
      idLookup := BuildIdLookup(locations);
      landmarks := Landmarks(locations, config.numLandmarks);
      landmarksAt := |locations|;
      RebuildAddressMatrix(o);
    }

    /** `rebuild_address_matrix`. */
    method RebuildAddressMatrix(o: Oracles)
      modifies this`addressMatrix, this`matrix32, this`maxNorm
      ensures addressMatrix == RowsOf(locations) && matrix32 == Rows32Of(o, locations)
      ensures maxNorm == MaxNormOf(o, locations, 0.0)
    {
      addressMatrix, matrix32, maxNorm := [], [], 0.0;
      for x := 0 to |locations|
        invariant addressMatrix == RowsOf(locations[..x]) && matrix32 == Rows32Of(o, locations[..x])
        invariant maxNorm == MaxNormOf(o, locations[..x], 0.0)
      {
        assert locations[..x + 1][..x] == locations[..x];
        addressMatrix := addressMatrix + [locations[x].address];
        matrix32 := matrix32 + [Rounding.ToF32(locations[x].address, o.to32)];
        maxNorm := Max(maxNorm, o.norm(locations[x].address));
      }
      assert locations[..|locations|] == locations;
    }

    /** `refresh_landmarks`. */
    method RefreshLandmarks()
      modifies this`landmarks, this`landmarksAt
      ensures Contents() == Refreshed(old(Contents()))
    {
      var len := |locations|;
      var wanted := if config.numLandmarks < len then config.numLandmarks else len;
      var grown := len >= landmarksAt + if landmarksAt / 4 < 256 then 256 else landmarksAt / 4;
      if config.numLandmarks > 0 && (|landmarks| < wanted || grown) {
        landmarks := Landmarks(locations, config.numLandmarks);
        landmarksAt := len;
      }
    }

    /** `sync_addresses`. */
    method SyncAddresses(o: Oracles, indices: seq<nat>)
      requires |addressMatrix| == |matrix32| == |locations|
      requires forall t | 0 <= t < |indices| :: indices[t] < |locations|
      modifies this`addressMatrix, this`matrix32, this`maxNorm
      ensures Contents() == Synced(o, old(Contents()), indices, |indices|)
    {
      for t := 0 to |indices|
        invariant |addressMatrix| == |matrix32| == |locations|
        invariant Contents() == Synced(o, old(Contents()), indices, t)
      {
        var x := indices[t];
        var address := locations[x].address;
        addressMatrix := addressMatrix[x := address];
        matrix32 := matrix32[x := Rounding.ToF32(address, o.to32)];
        maxNorm := Max(maxNorm, o.norm(address));
      }
    }

    /** `extend_id_lookup`. */
    method ExtendIdLookup(start: nat)
      requires start <= |locations|
      modifies this`idLookup
      ensures idLookup == Entered(old(idLookup), locations, start, |locations|)
    {
      for x := start to |locations|
        invariant idLookup == Entered(old(idLookup), locations, start, x)
      {
        var id := locations[x].id;
        if id >= |idLookup| {
          idLookup := idLookup + seq(id + 1 - |idLookup|, _ => None);
        }
        idLookup := idLookup[id := Some(x)];
      }
    }

    /** `append_addresses`. */
    method AppendAddresses(o: Oracles, start: nat)
      requires start <= |locations|
      modifies this`addressMatrix, this`matrix32, this`maxNorm, this`landmarks, this`landmarksAt
      ensures var added := locations[start..];
        Contents() == Refreshed(old(Contents()).(rows := old(addressMatrix) + RowsOf(added),
                                                 rows32 := old(matrix32) + Rows32Of(o, added),
                                                 maxNorm := MaxNormOf(o, added, old(maxNorm))))
    {
      hide RowsOf, Rows32Of, MaxNormOf, Refreshed;
      NoRows(o, old(maxNorm));
      for x := start to |locations|
        invariant addressMatrix == old(addressMatrix) + RowsOf(locations[start..x])
        invariant matrix32 == old(matrix32) + Rows32Of(o, locations[start..x])
        invariant maxNorm == MaxNormOf(o, locations[start..x], old(maxNorm))
        invariant landmarks == old(landmarks) && landmarksAt == old(landmarksAt)
      {
        RowsGrow(o, locations, start, x, old(maxNorm));
        addressMatrix := addressMatrix + [locations[x].address];
        matrix32 := matrix32 + [Rounding.ToF32(locations[x].address, o.to32)];
        maxNorm := Max(maxNorm, o.norm(locations[x].address));
      }
      assert locations[start..|locations|] == locations[start..];
      RefreshLandmarks();
    }
  }

  /** `build_id_lookup`, as it runs. */
  method BuildIdLookup(locs: seq<HardLocation>) returns (lookup: seq<Option<nat>>)
    ensures lookup == BuiltLookup(locs)
  {
    var maxId := 0;
    for x := 0 to |locs|
      invariant maxId == MaxId(locs[..x])
    {
      assert locs[..x + 1][..x] == locs[..x];
      if maxId < locs[x].id {
        maxId := locs[x].id;
      }
    }
    assert locs[..|locs|] == locs;
    lookup := seq(maxId + 1, _ => None);
    for x := 0 to |locs|
      invariant lookup == Entered(seq(maxId + 1, _ => None), locs, 0, x)
      invariant |lookup| == maxId + 1
    {
      assert locs[x].id <= maxId;
      lookup := lookup[locs[x].id := Some(x)];
    }
  }
}
