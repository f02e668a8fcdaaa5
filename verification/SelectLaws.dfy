/** Which location a write goes to, when it creates one instead, and what it links,
    said of every candidate rather than by the scan that decides. */
module SelectLaws {
  import opened Vectors
  import opened Locations
  import opened Write
  import opened WriteLaws
  import Directions
  import Merge
  import Scan
  import Sorting

  // ----- coherence

  /** The cosine of two counters; nothing when either is all but zero. */
  ghost function Coherence(o: Oracles, a: Vec, b: Vec): real {
    if o.norm(a) < 0.000000000001 || o.norm(b) < 0.000000000001 then 0.0 else Dot(a, b) / (o.norm(a) * o.norm(b))
  }

  lemma CosineIsCoherence(o: Oracles, a: Vec, b: Vec)
    requires Merge.NormIsRoot(o) && |a| == |b|
    ensures Cosine(o, a, Normalized(o, b)) == Coherence(o, a, b)
  {
    hide Dot, Scan.Normalize;
    var (n, u) := (o.norm(b), Normalized(o, b));
    Scan.NormalizeIsUnit(b, n);
    if n >= 0.000000000001 {
      UnitNorm(o, u);
      hide Merge.NormIsRoot;
      Scan.NormalizedDot(b, n, a);
      DotSymmetric(a, u);
      DotSymmetric(a, b);
      if o.norm(a) >= 0.000000000001 {
        QuotientsAgree(Dot(a, u), Dot(a, b), o.norm(a), n);
      }
    } else {
      assert u == b;
    }
  }

  lemma UnitNorm(o: Oracles, u: Vec)
    requires Merge.NormIsRoot(o) && Dot(u, u) == 1.0
    ensures o.norm(u) == 1.0
  {
    hide Dot;
    RootOfOne(o.norm(u));
  }

  lemma Less(n: real)
    requires 0.0 <= n < 1.0
    ensures n * n < 1.0
  {
    assert n * n <= n;
  }

  lemma More(n: real)
    requires n > 1.0
    ensures n * n > 1.0
  {
    assert n * n > n;
  }

  lemma RootOfOne(n: real)
    requires n >= 0.0 && n * n == 1.0
    ensures n == 1.0
  {
    if n < 1.0 {
      Less(n);
    } else if n > 1.0 {
      More(n);
    }
  }

  lemma QuotientsAgree(x: real, y: real, na: real, nb: real)
    requires na > 0.0 && nb > 0.0 && nb * x == y
    ensures x / (na * 1.0) == y / (na * nb)
  {
    assert na * nb > 0.0;
    assert (x / na) * (na * nb) == x * nb;
  }

  // ----- the winner

  /** What an activated location competes with without the gate: its similarity, less its
      share of what they all have taken in. */
  ghost function Claim(i: Input, near: seq<Scan.Scored>, t: nat): real
    requires t < |near| && InRange(near, |i.locations|) && WriteSum(Activations(i, near)) > 0.0
  {
    near[t].sim - i.config.gamma * i.locations[near[t].index].writeCount / WriteSum(Activations(i, near))
  }

  ghost function Activations(i: Input, near: seq<Scan.Scored>): seq<HardLocation>
    requires InRange(near, |i.locations|)
  {
    seq(|near|, t requires 0 <= t < |near| => i.locations[near[t].index])
  }

  lemma {:induction false} SumIsTotal(i: Input, near: seq<Scan.Scored>)
    requires InRange(near, |i.locations|)
    ensures SumWrites(i.locations, near) == WriteSum(Activations(i, near))
  {
    if near != [] {
      var init := near[..|near| - 1];
      SumIsTotal(i, init);
      assert Activations(i, near)[..|near| - 1] == Activations(i, init);
    }
  }

  /** The gate lets location t take the input: near enough in address, alike in counter. */
  ghost predicate Welcomes(o: Oracles, i: Input, near: seq<Scan.Scored>, t: nat)
    requires t < |near| && InRange(near, |i.locations|)
  {
    near[t].sim >= i.opts.tauSplit && Coherence(o, i.locations[near[t].index].counter, i.counter) >= i.opts.tauCohere
  }

  /** Without the gate the winner has the largest claim, the last among equals, or is the
      nearest while nothing has been taken in. */
  lemma WinnerClaimsMost(o: Oracles, i: Input, near: seq<Scan.Scored>)
    requires near != [] && InRange(near, |i.locations|) && !i.opts.gate
    ensures var (winner, total) := (Winner(o, i, near).0, WriteSum(Activations(i, near)));
      if total > 0.000000000001 then
        && (forall t | 0 <= t < |near| :: Claim(i, near, t) <= Claim(i, near, winner))
        && (forall t | winner < t < |near| :: Claim(i, near, t) < Claim(i, near, winner))
      else winner == 0
    ensures !Winner(o, i, near).1
  {
    hide WriteSum, SumWrites;
    SumIsTotal(i, near);
    var total := SumWrites(i.locations, near);
    if total > 0.000000000001 {
      var scores := Conscience(i, near, total);
      forall t | 0 <= t < |near| ensures scores[t] == Claim(i, near, t) {
        ClaimIs(i, near, t, total);
      }
    }
  }

  lemma ClaimIs(i: Input, near: seq<Scan.Scored>, t: nat, total: real)
    requires t < |near| && InRange(near, |i.locations|) && total == WriteSum(Activations(i, near)) > 0.0
    ensures Conscience(i, near, total)[t] == Claim(i, near, t)
  {
    hide WriteSum;
    var loc := i.locations[near[t].index];
    assert Conscience(i, near, total)[t] == Handicapped(near[t].sim, i.config.gamma, loc, total);
    HandicapIs(near[t].sim, i.config.gamma, loc, total);
  }

  lemma HandicapIs(sim: real, gamma: real, loc: HardLocation, total: real)
    requires total > 0.0
    ensures Handicapped(sim, gamma, loc, total) == sim - gamma * loc.writeCount / total
  {
  }

  /** So of equally similar locations one that took in least wins. */
  lemma ConscienceIsFair(o: Oracles, i: Input, near: seq<Scan.Scored>, t: nat)
    requires near != [] && InRange(near, |i.locations|) && !i.opts.gate && i.config.gamma > 0.0 && t < |near|
    requires WriteSum(Activations(i, near)) > 0.000000000001 && near[t].sim == near[Winner(o, i, near).0].sim
    ensures i.locations[near[Winner(o, i, near).0].index].writeCount <= i.locations[near[t].index].writeCount
  {
    hide WriteSum, Winner;
    WinnerClaimsMost(o, i, near);
    assert Claim(i, near, t) <= Claim(i, near, Winner(o, i, near).0);
    LessTaken(i.config.gamma, WriteSum(Activations(i, near)), i.locations[near[Winner(o, i, near).0].index].writeCount,
              i.locations[near[t].index].writeCount);
  }

  lemma LessTaken(gamma: real, total: real, x: real, y: real)
    requires gamma > 0.0 && total > 0.0
    ensures gamma * x / total <= gamma * y / total ==> x <= y
  {
    if x > y {
      assert gamma * x > gamma * y;
      Divided(gamma * x, gamma * y, total);
    }
  }

  lemma Divided(x: real, y: real, total: real)
    requires total > 0.0 && x > y
    ensures x / total > y / total
  {
  }

  lemma {:induction false} StrongHas(near: seq<Scan.Scored>, tau: real, t: nat)
    requires t < |near| && near[t].sim >= tau
    ensures t in Strong(near, tau)
  {
    if t < |near| - 1 {
      StrongHas(near[..|near| - 1], tau, t);
    }
  }

  /** Under the gate the winner is welcoming when any location is, and the most coherent
      of those near enough; when none is welcoming the write creates a location. */
  lemma GateChooses(o: Oracles, i: Input, near: seq<Scan.Scored>)
    requires Merge.NormIsRoot(o) && near != [] && InRange(near, |i.locations|) && i.opts.gate
    requires forall x | 0 <= x < |i.locations| :: |i.locations[x].counter| == |i.counter|
    ensures var (winner, forced) := Winner(o, i, near);
      && (forced <==> forall t | 0 <= t < |near| :: !Welcomes(o, i, near, t))
      && (!forced ==>
            && Welcomes(o, i, near, winner)
            && forall t | 0 <= t < |near| && near[t].sim >= i.opts.tauSplit ::
                 Coherence(o, i.locations[near[t].index].counter, i.counter)
                   <= Coherence(o, i.locations[near[winner].index].counter, i.counter))
  {
    hide Merge.NormIsRoot, Cosine, Coherence, Normalized, Strong;
    var strong := Strong(near, i.opts.tauSplit);
    forall t | 0 <= t < |near|
      ensures near[t].sim >= i.opts.tauSplit ==> t in strong
      ensures Cosine(o, i.locations[near[t].index].counter, Normalized(o, i.counter))
           == Coherence(o, i.locations[near[t].index].counter, i.counter)
    {
      if near[t].sim >= i.opts.tauSplit {
        StrongHas(near, i.opts.tauSplit, t);
      }
      CosineIsCoherence(o, i.locations[near[t].index].counter, i.counter);
    }
    if strong != [] {
      var best := LastGreatest(Coherences(o, i, near, strong));
      var winner := strong[best];
      assert Coherences(o, i, near, strong)[best] == Coherence(o, i.locations[near[winner].index].counter, i.counter);
      forall t | 0 <= t < |near| && near[t].sim >= i.opts.tauSplit
        ensures Coherence(o, i.locations[near[t].index].counter, i.counter)
             <= Coherence(o, i.locations[near[strong[best]].index].counter, i.counter)
      {
        var s :| 0 <= s < |strong| && strong[s] == t;
        assert Coherences(o, i, near, strong)[s] <= Coherences(o, i, near, strong)[best];
      }
      assert Winner(o, i, near) == (winner, Coherences(o, i, near, strong)[best] < i.opts.tauCohere);
      if Winner(o, i, near).1 {
        forall t | 0 <= t < |near| ensures !Welcomes(o, i, near, t) {
        }
      } else {
        assert Welcomes(o, i, near, winner);
      }
    }
  }

  /** When a write creates a location for its input: under the gate when no location
      welcomes it; under the MDL gate when encoding it costs more than a new location;
      otherwise when the nearest is not near enough. */
  lemma SpawnsWhen(o: Oracles, i: Input, near: seq<Scan.Scored>)
    requires Merge.NormIsRoot(o) && near != [] && InRange(near, |i.locations|)
    requires forall x | 0 <= x < |i.locations| :: |i.locations[x].counter| == |i.counter|
    ensures Spawns(o, i, near, Winner(o, i, near).1) <==>
      if i.opts.gate then forall t | 0 <= t < |near| :: !Welcomes(o, i, near, t)
      else if i.config.mdlGate then o.surpriseBits(near[0].sim) > o.engramBits(|i.locations|, i.config.d)
      else near[0].sim < i.config.tauSplit
  {
    hide Winner, Welcomes, Merge.NormIsRoot;
    if i.opts.gate {
      GateChooses(o, i, near);
    }
  }

  // ----- the learning rate

  /** x to the n. */
  ghost function Power(x: real, n: nat): real {
    if n == 0 then 1.0 else x * Power(x, n - 1)
  }

  lemma PowerNext(x: real, n: nat)
    ensures Power(x, n + 1) == x * Power(x, n)
  {
  }

  /** Decay, floored each time, is decay floored once. */
  lemma DecayStep(eta0: real, lambda_: real, floor: real, power: real, eta: real)
    requires 0.0 <= lambda_ <= 1.0 && 0.0 <= floor <= eta0 && eta == (if eta0 * power < floor then floor else eta0 * power)
    ensures (if eta * lambda_ < floor then floor else eta * lambda_)
         == (if eta0 * (lambda_ * power) < floor then floor else eta0 * (lambda_ * power))
  {
    assert eta0 * (lambda_ * power) == (eta0 * power) * lambda_;
    if eta0 * power < floor {
      Lowers(eta0 * power, floor, lambda_);
      Shrinks(floor, lambda_, floor * lambda_);
    }
  }

  lemma Lowers(x: real, y: real, c: real)
    requires x < y && 0.0 <= c <= 1.0 && y >= 0.0
    ensures c == 0.0 || x * c < y * c
    ensures x * c <= y * c <= y
  {
  }

  // ----- links

  /** Peers a list lacks join it at the end, in order, each once. */
  lemma {:induction false} PeersJoin(list: seq<nat>, peers: seq<nat>, own: nat) returns (added: seq<nat>)
    ensures AddPeers(list, peers, own) == list + added && Distinct(added)
    ensures forall x :: x in added <==> x in peers && x !in list && x != own
  {
    if peers == [] {
      added := [];
    } else {
      var init := peers[..|peers| - 1];
      added := PeersJoin(list, init, own);
      var peer := peers[|peers| - 1];
      assert peers == init + [peer];
      if peer != own && peer !in list + added {
        added := added + [peer];
      }
    }
  }

  /** The room for neighbours: none, or the larger of 2k and (k - 1) * ceil(ln n). */
  lemma CapIs(o: Oracles, c: Config, n: nat)
    requires c.k > 0
    ensures var (cap, logs) := (NeighborCap(o, c, n), (c.k - 1) * o.lnCeil(if n > 1 then n else 1));
      if c.neighborCap == 0 then cap == 0
      else cap >= 2 * c.k && cap >= logs && (cap == 2 * c.k || cap == logs)
  {
  }

  lemma {:induction false} LinkedOnce(locs: seq<HardLocation>, near: seq<Scan.Scored>, peers: seq<nat>, cap: nat, n: nat, t: nat)
    requires t < n <= |near| == |peers| && InRange(near, |locs|)
    requires forall a, b | 0 <= a < b < |near| :: near[a].index != near[b].index
    ensures var loc := locs[near[t].index];
      Linked(locs, near, peers, cap, n)[near[t].index]
        == loc.(neighbors := KeepNewest(AddPeers(loc.neighbors, peers, peers[t]), cap))
  {
    hide AddPeers, KeepNewest;
    if t < n - 1 {
      LinkedOnce(locs, near, peers, cap, n - 1, t);
    } else {
      LinkedKeeps(locs, near, peers, cap, t, near[t].index);
    }
  }

  /** The last of a list that there is room for. */
  ghost predicate Newest(kept: seq<nat>, list: seq<nat>, cap: nat) {
    |kept| == (if |list| < cap then |list| else cap) && kept == list[|list| - |kept|..]
  }

  /** The first of it. */
  ghost predicate Oldest(kept: seq<nat>, list: seq<nat>, cap: nat) {
    |kept| == (if |list| < cap then |list| else cap) && kept == list[..|kept|]
  }

  /** Every activated location, whether the write joins or creates, comes to name the
      others activated with it after those it named: the newest of them within the cap. */
  lemma LinksEachOther(o: Oracles, i: Input, near: seq<Scan.Scored>, t: nat) returns (added: seq<nat>)
    requires near != [] && InRange(near, |i.locations|) && t < |near|
    requires forall a, b | 0 <= a < b < |near| :: near[a].index != near[b].index
    ensures var (loc, cap) := (i.locations[near[t].index], NeighborCap(o, i.config, |i.locations|));
      && (forall x :: x in added <==> x in ActivatedIds(i.locations, near) && x !in loc.neighbors && x != loc.id)
      && if cap == 0 then Connected(o, i, near)[near[t].index].neighbors == loc.neighbors
         else Newest(Connected(o, i, near)[near[t].index].neighbors, loc.neighbors + added, cap)
  {
    hide Updated, Linked, AddPeers, NeighborCap;
    var (loc, x) := (i.locations[near[t].index], near[t].index);
    var (locs, cap) := (Updated(o, i, near), NeighborCap(o, i.config, |i.locations|));
    var peers := ActivatedIds(locs, near);
    SameActivated(o, i, near);
    UpdatedKeeps(o, i, near, x);
    added := PeersJoin(loc.neighbors, peers, loc.id);
    LinkedOnce(locs, near, peers, cap, |near|, t);
  }

  lemma SameActivated(o: Oracles, i: Input, near: seq<Scan.Scored>)
    requires near != [] && InRange(near, |i.locations|)
    ensures ActivatedIds(Updated(o, i, near), near) == ActivatedIds(i.locations, near)
    ensures ActivatedIds(Connected(o, i, near), near) == ActivatedIds(i.locations, near)
  {
    hide Updated, Connected;
    forall t | 0 <= t < |near|
      ensures Updated(o, i, near)[near[t].index].id == i.locations[near[t].index].id
      ensures Connected(o, i, near)[near[t].index].id == i.locations[near[t].index].id
    {
      UpdatedKeeps(o, i, near, near[t].index);
      ConnectedKeeps(o, i, near, near[t].index);
    }
  }

  /** A new location names all that were activated, in order: there is room for them. */
  lemma SpawnNamesActivated(o: Oracles, i: Input)
    requires Sound(o) && i.config.competitive && Near(o, i) != [] && InRange(Near(o, i), |i.locations|) && i.config.k > 0
    requires Spawns(o, i, Near(o, i), Winner(o, i, Near(o, i)).1) && NeighborCap(o, i.config, |i.locations|) > 0
    ensures |Adaptive(o, i).created| == 1
    ensures Adaptive(o, i).created[0].neighbors == ActivatedIds(i.locations, Near(o, i))
  {
    hide Winner, Spawns, Connected, Normalized, NeighborCap;
    var near := Near(o, i);
    SameActivated(o, i, near);
    CapIs(o, i.config, |i.locations|);
    FewActivated(o, i);
  }

  lemma FewActivated(o: Oracles, i: Input)
    requires Sound(o)
    ensures |Near(o, i)| <= i.config.k
  {
  }

  /** A split links both ways only while there is room: the winner names its other half
      after the newest of its neighbours; the other half has the oldest of them, and
      names the winner exactly when they leave room for one more. */
  lemma SplitLinks(o: Oracles, parent: HardLocation, child: nat, direction: Vec, cap: nat)
    requires 0 < cap && |parent.neighbors| <= cap && parent.id !in parent.neighbors && child !in parent.neighbors
    ensures Newest(SplitParent(parent, child, cap).neighbors, parent.neighbors + [child], cap)
    ensures child in SplitParent(parent, child, cap).neighbors
    ensures Oldest(SplitChild(o, parent, child, direction, cap).neighbors, parent.neighbors + [parent.id], cap)
    ensures parent.id in SplitChild(o, parent, child, direction, cap).neighbors <==> |parent.neighbors| < cap
  {
    hide Scale, AddScaled, Normalized;
    var list := SplitParent(parent, child, cap).neighbors;
    assert list[|list| - 1] == child;
    if |parent.neighbors| < cap {
      assert SplitChild(o, parent, child, direction, cap).neighbors[|parent.neighbors|] == parent.id;
    }
  }

  // ----- the links of a merge

  lemma {:induction false} FilterKeeps(list: seq<nat>, p: nat -> bool, x: nat)
    ensures x in Sorting.Filter(list, p) <==> x in list && p(x)
  {
    if list != [] {
      var (init, last) := (list[..|list| - 1], list[|list| - 1]);
      assert list == init + [last];
      FilterKeeps(init, p, x);
    }
  }

  /** The survivor of a merge names whom either named, but neither of the two: its own
      neighbours first, the oldest of them where there is no room for all. */
  lemma SurvivorNames(o: Oracles, c: Config, a: HardLocation, b: HardLocation, cap: nat) returns (named: seq<nat>)
    requires a.id !in a.neighbors
    ensures var s := Merge.Survivor(o, c, a, b, cap);
      && (forall x :: x in named <==> (x in a.neighbors || x in b.neighbors) && x != a.id && x != b.id)
      && (if cap == 0 then s.neighbors == named else Oldest(s.neighbors, named, cap))
      && s.surprise == a.surprise
  {
    hide Merge.MergedAddress, AddScaled, Sorting.Filter, AddPeers;
    var added := PeersJoin(a.neighbors, b.neighbors, a.id);
    var both := AddPeers(a.neighbors, b.neighbors, a.id);
    named := Sorting.Filter(both, (n: nat) => n != b.id);
    forall x: nat ensures x in named <==> x in both && x != b.id {
      FilterKeeps(both, (n: nat) => n != b.id, x);
    }
  }
}
