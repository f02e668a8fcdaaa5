/** In exact arithmetic a write adds its input once per unit of weight it is
    absorbed with, and nothing else changes the totals. */
module Conservation {
  import opened Wrappers
  import opened Vectors
  import opened Locations
  import opened Write
  import opened WriteLaws
  import Scan

  ghost predicate CountersOf(locs: seq<HardLocation>, d: nat) {
    forall x | 0 <= x < |locs| :: |locs[x].counter| == d
  }

  /** The weight the first n activated locations absorb between them. */
  ghost function Shares(i: Input, near: seq<Scan.Scored>, winner: nat, n: nat): real
    requires n <= |near| && winner < |near| && InRange(near, |i.locations|)
  {
    if n == 0 then 0.0
    else
      var share := Share(i, near, winner, n - 1);
      Shares(i, near, winner, n - 1) + if share.None? then 0.0 else share.value.0
  }

  lemma AbsorbAdds(o: Oracles, i: Input, loc: HardLocation, w: real, rate: real, j: nat)
    requires |loc.counter| == |i.counter|
    ensures At(Absorb(o, i, loc, w, rate).counter, j) == At(loc.counter, j) + w * At(i.counter, j)
    ensures Absorb(o, i, loc, w, rate).writeCount == loc.writeCount + w
    ensures |Absorb(o, i, loc, w, rate).counter| == |loc.counter|
  {
    hide Normalized, Quotient, Difference;
    AddScaledAt(loc.counter, i.counter, w, j);
  }

  lemma Distributes(a: real, b: real, c: real)
    ensures (a + b) * c == a * c + b * c
  {
  }

  lemma {:induction false} SumJoined(o: Oracles, i: Input, near: seq<Scan.Scored>, winner: nat, n: nat, j: nat)
    requires n <= |near| && winner < |near| && InRange(near, |i.locations|) && CountersOf(i.locations, |i.counter|)
    ensures CountersOf(Joined(o, i, near, winner, n), |i.counter|)
    ensures CounterSum(Joined(o, i, near, winner, n), j)
         == CounterSum(i.locations, j) + Shares(i, near, winner, n) * At(i.counter, j)
    ensures WriteSum(Joined(o, i, near, winner, n)) == WriteSum(i.locations) + Shares(i, near, winner, n)
  {
    hide Absorb, Share, CounterSum, WriteSum, At;
    if n > 0 {
      SumJoined(o, i, near, winner, n - 1, j);
      var r := Joined(o, i, near, winner, n - 1);
      var share := Share(i, near, winner, n - 1);
      if share.Some? {
        var x := near[n - 1].index;
        AbsorbAdds(o, i, r[x], share.value.0, share.value.1, j);
        SumsUpdate(r, x, Absorb(o, i, r[x], share.value.0, share.value.1), j);
        Distributes(Shares(i, near, winner, n - 1), share.value.0, At(i.counter, j));
      }
    }
  }

  lemma ChargedSums(o: Oracles, i: Input, near: seq<Scan.Scored>, winner: nat, locs: seq<HardLocation>, j: nat)
    requires winner < |near| && near[winner].index < |locs|
    ensures CounterSum(Charged(o, i, near, winner, locs), j) == CounterSum(locs, j)
    ensures WriteSum(Charged(o, i, near, winner, locs)) == WriteSum(locs)
    ensures CountersOf(locs, |i.counter|) ==> CountersOf(Charged(o, i, near, winner, locs), |i.counter|)
  {
    SumsSame(Charged(o, i, near, winner, locs), locs, j);
  }

  /** The weight existing locations absorb: none when the write spawns. */
  ghost function Joining(o: Oracles, i: Input, near: seq<Scan.Scored>): real
    requires near != [] && InRange(near, |i.locations|)
  {
    var (winner, forced) := Winner(o, i, near);
    if Spawns(o, i, near, forced) then 0.0 else Shares(i, near, winner, |near|)
  }

  lemma UpdatedSums(o: Oracles, i: Input, near: seq<Scan.Scored>, j: nat)
    requires near != [] && InRange(near, |i.locations|) && CountersOf(i.locations, |i.counter|)
    ensures CountersOf(Updated(o, i, near), |i.counter|)
    ensures CounterSum(Updated(o, i, near), j) == CounterSum(i.locations, j) + Joining(o, i, near) * At(i.counter, j)
    ensures WriteSum(Updated(o, i, near)) == WriteSum(i.locations) + Joining(o, i, near)
  {
    hide Winner, Spawns, Joined, Charged, CounterSum, WriteSum, Shares, At;
    var (winner, forced) := Winner(o, i, near);
    SumJoined(o, i, near, winner, |near|, j);
    ChargedSums(o, i, near, winner, Joined(o, i, near, winner, |near|), j);
  }

  lemma ConnectedSums(o: Oracles, i: Input, near: seq<Scan.Scored>, j: nat)
    requires near != [] && InRange(near, |i.locations|) && CountersOf(i.locations, |i.counter|)
    ensures CountersOf(Connected(o, i, near), |i.counter|)
    ensures CounterSum(Connected(o, i, near), j) == CounterSum(i.locations, j) + Joining(o, i, near) * At(i.counter, j)
    ensures WriteSum(Connected(o, i, near)) == WriteSum(i.locations) + Joining(o, i, near)
  {
    hide Updated, Connected, Joining, CounterSum, WriteSum, At;
    UpdatedSums(o, i, near, j);
    var (a, b) := (Connected(o, i, near), Updated(o, i, near));
    forall x | 0 <= x < |a| ensures SameContent(a[x], b[x]) {
      ConnectedKeeps(o, i, near, x);
    }
    SumsSame(a, b, j);
  }

  lemma OneSum(loc: HardLocation, j: nat)
    ensures CounterSum([loc], j) == At(loc.counter, j) && WriteSum([loc]) == loc.writeCount
  {
    hide At;
    assert [loc][..0] == [];
    assert CounterSum([], j) == 0.0 && WriteSum([]) == 0.0;
  }

  /** An overload split moves half of the winner's counter, and no more. */
  lemma SplitConserves(o: Oracles, locs: seq<HardLocation>, x: nat, child: nat, direction: Vec, cap: nat, j: nat)
    requires x < |locs|
    ensures var after := locs[x := SplitParent(locs[x], child, cap)] + [SplitChild(o, locs[x], child, direction, cap)];
      CounterSum(after, j) == CounterSum(locs, j) && WriteSum(after) == WriteSum(locs)
  {
    hide CounterSum, WriteSum, At, Scale, AddScaled, Normalized, KeepOldest;
    var (p, c) := (SplitParent(locs[x], child, cap), SplitChild(o, locs[x], child, direction, cap));
    ScaleAt(locs[x].counter, 0.5, j);
    SumsUpdate(locs, x, p, j);
    SumsAppend(locs[x := p], [c], j);
    OneSum(c, j);
    Halves(At(locs[x].counter, j));
    Halves(locs[x].writeCount);
  }

  lemma Halves(x: real)
    ensures x * 0.5 + x * 0.5 == x
  {
  }

  /** The total weight a write adds to the memory. */
  ghost function Taken(o: Oracles, i: Input): real
    requires Sound(o)
  {
    if !i.config.competitive || Near(o, i) == [] then 1.0
    else
      NearIndices(o, i);
      if Spawns(o, i, Near(o, i), Winner(o, i, Near(o, i)).1) then 1.0 else Joining(o, i, Near(o, i))
  }

  lemma SpawnSums(locs: seq<HardLocation>, child: HardLocation, counter: Vec, j: nat)
    requires child.counter == counter && child.writeCount == 1.0
    ensures CounterSum(locs + [child], j) == CounterSum(locs, j) + 1.0 * At(counter, j)
    ensures WriteSum(locs + [child]) == WriteSum(locs) + 1.0
  {
    hide CounterSum, WriteSum, At;
    SumsAppend(locs, [child], j);
    OneSum(child, j);
  }

  lemma ActivatedConserves(o: Oracles, i: Input, near: seq<Scan.Scored>, j: nat)
    requires near != [] && InRange(near, |i.locations|) && CountersOf(i.locations, |i.counter|)
    ensures var w := if Spawns(o, i, near, Winner(o, i, near).1) then 1.0 else Joining(o, i, near);
      && CounterSum(After(Activated(o, i, near)), j) == CounterSum(i.locations, j) + w * At(i.counter, j)
      && WriteSum(After(Activated(o, i, near))) == WriteSum(i.locations) + w
  {
    hide Winner, Spawns, Connected, Overloaded, SplitParent, SplitChild, CounterSum, WriteSum, At, NeighborCap, KeepOldest,
      Normalized, Shares;
    var (winner, forced) := Winner(o, i, near);
    var (locs, cap) := (Connected(o, i, near), NeighborCap(o, i.config, |i.locations|));
    var out := Activated(o, i, near);
    ConnectedSums(o, i, near, j);
    if Spawns(o, i, near, forced) {
      SpawnSums(locs, out.created[0], i.counter, j);
    } else if Overloaded(o, i.config, locs, near[winner].index) {
      SplitConserves(o, locs, near[winner].index, i.nextId, i.direction, cap, j);
    } else {
      assert After(out) == locs;
    }
  }

  /** Every write adds exactly `Taken` times its counter to the sum of all counters,
      coordinate by coordinate, and `Taken` to the total write count. */
  lemma WriteConserves(o: Oracles, i: Input, j: nat)
    requires Sound(o) && CountersOf(i.locations, |i.counter|)
    ensures CounterSum(After(Adaptive(o, i)), j) == CounterSum(i.locations, j) + Taken(o, i) * At(i.counter, j)
    ensures WriteSum(After(Adaptive(o, i))) == WriteSum(i.locations) + Taken(o, i)
  {
    hide Winner, Spawns, Activated, Joining, CounterSum, WriteSum, At, Normalized;
    if !i.config.competitive || Near(o, i) == [] {
      SpawnSums(i.locations, Adaptive(o, i).created[0], i.counter, j);
    } else {
      NearIndices(o, i);
      ActivatedConserves(o, i, Near(o, i), j);
    }
  }

  // ----- how much is taken

  lemma QuotientBounds(x: real, y: real)
    requires 0.0 <= x <= y && 0.0 < y
    ensures 0.0 <= x / y <= 1.0 && y / y == 1.0
  {
  }

  /** Relative to the best match, a weight is between none and all of the input. */
  lemma WeightBounds(near: seq<Scan.Scored>, t: nat, k: nat)
    requires t < |near| && near[t].sim <= near[0].sim && near[0].sim > 0.000000000001
    ensures 0.0 <= Weight(near, t, k) <= 1.0 && Weight(near, 0, k) == 1.0
  {
    QuotientBounds(Max(near[t].sim, 0.0), near[0].sim);
  }

  lemma {:induction false} GatedShares(i: Input, near: seq<Scan.Scored>, winner: nat, n: nat)
    requires n <= |near| && winner < |near| && InRange(near, |i.locations|) && i.opts.gate
    ensures Shares(i, near, winner, n) == if winner < n then 1.0 else 0.0
  {
    if n > 0 {
      GatedShares(i, near, winner, n - 1);
    }
  }

  lemma {:induction false} RelativeShares(i: Input, near: seq<Scan.Scored>, winner: nat, n: nat)
    requires 1 <= n <= |near| && winner < |near| && InRange(near, |i.locations|) && !i.opts.gate
    requires near[0].sim > 0.000000000001 && forall t | 0 <= t < |near| :: near[t].sim <= near[0].sim
    ensures 1.0 <= Shares(i, near, winner, n) <= n as real
  {
    hide Weight, EtaWinner;
    WeightBounds(near, n - 1, if i.config.k < |i.locations| then i.config.k else |i.locations|);
    assert Shares(i, near, winner, 0) == 0.0;
    if n > 1 {
      RelativeShares(i, near, winner, n - 1);
    }
  }

  lemma {:induction false} EqualShares(i: Input, near: seq<Scan.Scored>, winner: nat, n: nat, w: real)
    requires n <= |near| && winner < |near| && InRange(near, |i.locations|) && !i.opts.gate
    requires near[0].sim <= 0.000000000001
    requires w == Quotient(1.0, (if i.config.k < |i.locations| then i.config.k else |i.locations|) as real)
    ensures Shares(i, near, winner, n) == n as real * w
  {
    hide Quotient, EtaWinner;
    if n > 0 {
      EqualShares(i, near, winner, n - 1, w);
    }
  }

  lemma WholeOfParts(k: nat)
    requires k > 0
    ensures k as real * Quotient(1.0, k as real) == 1.0
  {
  }

  /** The activated locations take the input once between them at least, and once
      each at most; under the gate exactly once. */
  lemma SharesBounded(i: Input, near: seq<Scan.Scored>, winner: nat)
    requires winner < |near| && Nearest(near, |i.locations|, |near|)
    requires |near| == if i.config.k < |i.locations| then i.config.k else |i.locations|
    ensures 1.0 <= Shares(i, near, winner, |near|) <= |near| as real
    ensures i.opts.gate || near[0].sim <= 0.000000000001 ==> Shares(i, near, winner, |near|) == 1.0
  {
    hide Shares, Quotient;
    if i.opts.gate {
      GatedShares(i, near, winner, |near|);
    } else if near[0].sim > 0.000000000001 {
      RelativeShares(i, near, winner, |near|);
    } else {
      EqualShares(i, near, winner, |near|, Quotient(1.0, |near| as real));
      WholeOfParts(|near|);
    }
  }

  /** A write adds a total weight between 1 and k; exactly 1 when it spawns, when
      it is gated, and when nothing it activates is similar at all. */
  lemma TakenBounded(o: Oracles, i: Input)
    requires Sound(o) && i.config.k > 0
    ensures 1.0 <= Taken(o, i) <= i.config.k as real
    ensures i.opts.gate || !i.config.competitive ==> Taken(o, i) == 1.0
  {
    hide Shares, Spawns, Winner;
    if i.config.competitive && Near(o, i) != [] {
      NearIndices(o, i);
      SharesBounded(i, Near(o, i), Winner(o, i, Near(o, i)).0);
    }
  }
}
