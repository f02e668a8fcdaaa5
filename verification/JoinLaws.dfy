/** What a write does to each location, said without the functions that do it: how much
    it takes in, where its address goes, when it splits and what is created. */
module JoinLaws {
  import opened Vectors
  import opened Locations
  import opened Write
  import opened WriteLaws
  import opened Directions
  import Merge
  import Scan

  // ----- one location of a join

  /** How much of the input activated location t takes. */
  ghost function Part(i: Input, near: seq<Scan.Scored>, winner: nat, t: nat): real
    requires t < |near|
  {
    if i.opts.gate then if t == winner then 1.0 else 0.0
    else if near[0].sim > 0.000000000001 then (if near[t].sim > 0.0 then near[t].sim else 0.0) / near[0].sim
    else 1.0 / |near| as real
  }

  /** How far its address goes towards the input: under the gate to the mean of what it
      took in; otherwise by a rate that falls with the winner's write count, a tenth of it
      for the others. */
  ghost function Rate(i: Input, near: seq<Scan.Scored>, winner: nat, t: nat): real
    requires winner < |near| && t < |near| && InRange(near, |i.locations|)
    requires i.config.tauDamp > 0.0 && forall x | 0 <= x < |i.locations| :: i.locations[x].writeCount >= 0.0
  {
    if i.opts.gate then 1.0 / (i.locations[near[t].index].writeCount + 1.0)
    else
      var full := Damped(i.eta, i.config.tauDamp, i.locations[near[winner].index].writeCount);
      if t == winner then full else full / 10.0
  }

  /** eta / (1 + n / tau). */
  ghost function Damped(eta: real, tau: real, n: real): real
    requires tau > 0.0 && n >= 0.0
  {
    eta * tau / (tau + n)
  }

  /** after is before with this much of the input taken in, its address moved this far. */
  ghost predicate TakesIn(i: Input, before: HardLocation, after: HardLocation, part: real, rate: real)
    requires |before.address| == |i.address|
  {
    && after == before.(address := after.address, counter := after.counter, writeCount := before.writeCount + part)
    && |after.counter| == |before.counter|
    && (forall j: nat :: At(after.counter, j) == At(before.counter, j) + part * At(i.counter, j))
    && DirectionOf(after.address, Blend(before.address, i.address, rate))
  }

  lemma AbsorbTakesIn(o: Oracles, i: Input, loc: HardLocation, w: real, rate: real)
    requires Merge.NormIsRoot(o) && |loc.address| == |i.address| && |loc.counter| == |i.counter|
    ensures TakesIn(i, loc, Absorb(o, i, loc, w, rate), w, if i.opts.gate then Quotient(1.0, loc.writeCount + w) else rate)
  {
    hide Normalized, Quotient, Difference, AddScaled, DirectionOf, Merge.NormIsRoot, At;
    var lr := if i.opts.gate then Quotient(1.0, loc.writeCount + w) else rate;
    MovedIsBlend(loc.address, i.address, lr);
    NormalizedIsDirection(o, Blend(loc.address, i.address, lr));
    forall j: nat
      ensures At(Absorb(o, i, loc, w, rate).counter, j) == At(loc.counter, j) + w * At(i.counter, j)
    {
      AddScaledAt(loc.counter, i.counter, w, j);
    }
  }

  /** Each activated location joins once, from what it was. */
  lemma {:induction false} JoinedOnce(o: Oracles, i: Input, near: seq<Scan.Scored>, winner: nat, n: nat, t: nat)
    requires t < n <= |near| && winner < |near| && InRange(near, |i.locations|)
    requires forall a, b | 0 <= a < b < |near| :: near[a].index != near[b].index
    ensures var (x, share) := (near[t].index, Share(i, near, winner, t));
      Joined(o, i, near, winner, n)[x]
        == if share.None? then i.locations[x] else Absorb(o, i, i.locations[x], share.value.0, share.value.1)
  {
    hide Absorb, Share;
    if t < n - 1 {
      JoinedOnce(o, i, near, winner, n - 1, t);
    } else {
      JoinedKeeps(o, i, near, winner, t, near[t].index);
    }
  }

  /** What the engine is given: similarities that lead with the best, counts that are not
      negative. */
  ghost predicate Proper(i: Input, near: seq<Scan.Scored>) {
    && near != [] && InRange(near, |i.locations|)
    && (forall a, b | 0 <= a < b < |near| :: near[a].index != near[b].index)
    && |near| == (if i.config.k < |i.locations| then i.config.k else |i.locations|)
    && (forall x | 0 <= x < |i.locations| ::
          |i.locations[x].address| == |i.address| && |i.locations[x].counter| == |i.counter| && i.locations[x].writeCount >= 0.0)
    && i.config.tauDamp > 0.0
  }

  lemma SearchIsProper(o: Oracles, i: Input)
    requires Sound(o) && Near(o, i) != [] && i.config.tauDamp > 0.0
    requires forall x | 0 <= x < |i.locations| ::
               |i.locations[x].address| == |i.address| && |i.locations[x].counter| == |i.counter| && i.locations[x].writeCount >= 0.0
    ensures Proper(i, Near(o, i))
  {
  }

  lemma ShareIs(i: Input, near: seq<Scan.Scored>, winner: nat, t: nat)
    requires Proper(i, near) && winner < |near| && t < |near|
    ensures var share := Share(i, near, winner, t);
      if i.opts.gate && t != winner then share.None?
      else share.Some? && share.value.0 == Part(i, near, winner, t)
           && (!i.opts.gate ==> share.value.1 == Rate(i, near, winner, t))
  {
    hide Weight;
    if !i.opts.gate {
      WeightIs(i, near, winner, t);
      RateIs(i, near[winner].index);
    }
  }

  lemma WeightIs(i: Input, near: seq<Scan.Scored>, winner: nat, t: nat)
    requires Proper(i, near) && t < |near| && !i.opts.gate
    ensures Weight(near, t, |near|) == Part(i, near, winner, t)
  {
  }

  lemma RateIs(i: Input, winner: nat)
    requires winner < |i.locations| && i.config.tauDamp > 0.0 && i.locations[winner].writeCount >= 0.0
    ensures EtaWinner(i, winner) == Damped(i.eta, i.config.tauDamp, i.locations[winner].writeCount)
  {
    DampedIs(i.eta, i.config.tauDamp, i.locations[winner].writeCount, i.locations[winner].writeCount / i.config.tauDamp);
  }

  lemma DampedIs(eta: real, tau: real, n: real, q: real)
    requires tau > 0.0 && n >= 0.0 && q == n / tau
    ensures 1.0 + q > 0.0 && eta / (1.0 + q) == Damped(eta, tau, n)
  {
    assert q * tau == n && q >= 0.0;
    var d := 1.0 + q;
    assert d * tau == tau + n;
    SameFraction(eta, d, tau, tau + n);
  }

  lemma SameFraction(eta: real, d: real, tau: real, t: real)
    requires d > 0.0 && tau > 0.0 && t == d * tau
    ensures eta / d == eta * tau / t
  {
    var x := eta / d;
    assert x * d == eta;
    assert x * t == eta * tau;
  }

  // ----- the whole write

  /** The winner splits. */
  ghost predicate Splits(o: Oracles, i: Input, near: seq<Scan.Scored>)
    requires near != [] && InRange(near, |i.locations|)
  {
    var (winner, forced) := Winner(o, i, near);
    !Spawns(o, i, near, forced) && Activated(o, i, near).created != []
  }

  /** What the winner's debt grows by. */
  ghost function Debt(o: Oracles, i: Input, near: seq<Scan.Scored>, winner: nat, t: nat): real
    requires t < |near|
  {
    if i.config.mdlGate && t == winner then o.surpriseBits(near[t].sim) else 0.0
  }

  lemma UpdatedIs(o: Oracles, i: Input, near: seq<Scan.Scored>, t: nat)
    requires Merge.NormIsRoot(o) && Proper(i, near) && t < |near| && !Spawns(o, i, near, Winner(o, i, near).1)
    ensures var (winner, before, after) := (Winner(o, i, near).0, i.locations[near[t].index], Updated(o, i, near)[near[t].index]);
      var joined := after.(surprise := before.surprise);
      && after.surprise == before.surprise + Debt(o, i, near, winner, t)
      && if i.opts.gate && t != winner then joined == before
         else TakesIn(i, before, joined, Part(i, near, winner, t), Rate(i, near, winner, t))
  {
    hide Winner, Spawns, TakesIn, Part, Rate, Joined, Merge.NormIsRoot, Charged;
    var winner := Winner(o, i, near).0;
    var x := near[t].index;
    JoinTakes(o, i, near, winner, t);
    ChargedIs(o, i, near, winner, Joined(o, i, near, winner, |near|), t);
    var joined := Joined(o, i, near, winner, |near|)[x];
    assert Updated(o, i, near)[x] == Charged(o, i, near, winner, Joined(o, i, near, winner, |near|))[x];
    assert joined == Updated(o, i, near)[x].(surprise := i.locations[x].surprise);
  }

  lemma ChargedIs(o: Oracles, i: Input, near: seq<Scan.Scored>, winner: nat, locs: seq<HardLocation>, t: nat)
    requires Proper(i, near) && winner < |near| && t < |near| && |locs| == |i.locations|
    ensures var x := near[t].index;
      Charged(o, i, near, winner, locs)[x]
        == locs[x].(surprise := locs[x].surprise + Debt(o, i, near, winner, t))
  {
    assert near[t].index == near[winner].index ==> t == winner;
  }

  lemma JoinTakes(o: Oracles, i: Input, near: seq<Scan.Scored>, winner: nat, t: nat)
    requires Merge.NormIsRoot(o) && Proper(i, near) && winner < |near| && t < |near|
    ensures var (before, after) := (i.locations[near[t].index], Joined(o, i, near, winner, |near|)[near[t].index]);
      && after.surprise == before.surprise
      && if i.opts.gate && t != winner then after == before
         else TakesIn(i, before, after, Part(i, near, winner, t), Rate(i, near, winner, t))
  {
    hide TakesIn, Absorb, Share, Joined, Merge.NormIsRoot;
    JoinedOnce(o, i, near, winner, |near|, t);
    ShareIs(i, near, winner, t);
    var (before, share) := (i.locations[near[t].index], Share(i, near, winner, t));
    if share.Some? {
      AbsorbTakesIn(o, i, before, share.value.0, share.value.1);
      SurpriseStays(i, before, Absorb(o, i, before, share.value.0, share.value.1), share.value.0, Rate(i, near, winner, t));
    }
  }

  lemma SurpriseStays(i: Input, before: HardLocation, after: HardLocation, part: real, rate: real)
    requires |before.address| == |i.address| && TakesIn(i, before, after, part, rate)
    ensures after.surprise == before.surprise
  {
    hide DirectionOf, At;
  }

  // ----- what is left of it

  /** The winner's count, or its debt under the MDL gate, is over its limit. */
  ghost predicate Over(o: Oracles, i: Input, loc: HardLocation) {
    if i.config.mdlGate then loc.surprise > o.engramBits(|i.locations|, i.config.d)
    else loc.writeCount > i.config.tauOverload
  }

  /** Half of a location's content. */
  ghost predicate HalfOf(half: HardLocation, whole: HardLocation) {
    && half.id == whole.id && half.address == whole.address && |half.counter| == |whole.counter|
    && (forall j: nat :: 2.0 * At(half.counter, j) == At(whole.counter, j))
    && 2.0 * half.writeCount == whole.writeCount && 2.0 * half.surprise == whole.surprise
  }

  /** After a join a location is as it was updated, links aside; the winner, if that
      leaves it over its limit, is half of it. */
  lemma ActivatedIs(o: Oracles, i: Input, near: seq<Scan.Scored>, t: nat)
    requires Proper(i, near) && t < |near| && !Spawns(o, i, near, Winner(o, i, near).1)
    ensures var (x, winner) := (near[t].index, Winner(o, i, near).0);
      var (whole, after) := (Updated(o, i, near)[x], Activated(o, i, near).locations[x]);
      && (Splits(o, i, near) <==> Over(o, i, Updated(o, i, near)[near[winner].index]))
      && if Splits(o, i, near) && t == winner then HalfOf(after, whole)
         else after == whole.(neighbors := after.neighbors)
  {
    hide Winner, Spawns, Updated, Connected, NeighborCap, Scale, SplitChild;
    var winner := Winner(o, i, near).0;
    ConnectedKeeps(o, i, near, near[t].index);
    ConnectedKeeps(o, i, near, near[winner].index);
    var parent := Connected(o, i, near)[near[winner].index];
    ParentIsHalf(parent, i.nextId, NeighborCap(o, i.config, |i.locations|));
    assert near[t].index == near[winner].index ==> t == winner;
  }

  lemma ParentIsHalf(parent: HardLocation, child: nat, cap: nat)
    ensures HalfOf(SplitParent(parent, child, cap), parent)
  {
    hide Scale, At;
    forall j: nat ensures 2.0 * At(SplitParent(parent, child, cap).counter, j) == At(parent.counter, j) {
      ScaleAt(parent.counter, 0.5, j);
    }
  }

  /** This location is kept whole, or it is one of two halves. */
  ghost function Pieces(o: Oracles, i: Input, near: seq<Scan.Scored>, t: nat): real
    requires near != [] && InRange(near, |i.locations|)
  {
    if Splits(o, i, near) && t == Winner(o, i, near).0 then 2.0 else 1.0
  }

  /** What a write that joins makes of each location it activates: its counter and count
      grow by its part of the input, its address goes to the direction of the blend, the
      winner pays its debt; and the winner is halved exactly when that puts it over. */
  lemma JoinIs(o: Oracles, i: Input, t: nat)
    requires Sound(o) && Merge.NormIsRoot(o) && i.config.competitive && Proper(i, Near(o, i)) && t < |Near(o, i)|
    requires !Spawns(o, i, Near(o, i), Winner(o, i, Near(o, i)).1)
    ensures var (near, winner) := (Near(o, i), Winner(o, i, Near(o, i)).0);
      var (before, after) := (i.locations[near[t].index], Adaptive(o, i).locations[near[t].index]);
      var (pieces, part) := (Pieces(o, i, near, t), Part(i, near, winner, t));
      && after.id == before.id
      && pieces * after.writeCount == before.writeCount + part
      && (forall j: nat :: pieces * At(after.counter, j) == At(before.counter, j) + part * At(i.counter, j))
      && pieces * after.surprise == before.surprise + Debt(o, i, near, winner, t)
      && if i.opts.gate && t != winner then after.address == before.address
         else DirectionOf(after.address, Blend(before.address, i.address, Rate(i, near, winner, t)))
  {
    hide Winner, Spawns, Activated, Updated, Splits, Rate, Debt, DirectionOf, Merge.NormIsRoot, Sound, At;
    var near := Near(o, i);
    var winner := Winner(o, i, near).0;
    UpdatedIs(o, i, near, t);
    ActivatedIs(o, i, near, t);
  }

  /** The winner is over its limit: by count, or by debt under the MDL gate. */
  ghost predicate WinnerOver(o: Oracles, i: Input, near: seq<Scan.Scored>, winner: nat)
    requires winner < |near| && InRange(near, |i.locations|)
  {
    var loc := i.locations[near[winner].index];
    if i.config.mdlGate then loc.surprise + o.surpriseBits(near[winner].sim) > o.engramBits(|i.locations|, i.config.d)
    else loc.writeCount + Part(i, near, winner, winner) > i.config.tauOverload
  }

  lemma SplitsWhenOver(o: Oracles, i: Input)
    requires Sound(o) && Merge.NormIsRoot(o) && i.config.competitive && Proper(i, Near(o, i))
    requires !Spawns(o, i, Near(o, i), Winner(o, i, Near(o, i)).1)
    ensures Adaptive(o, i).created != [] <==> WinnerOver(o, i, Near(o, i), Winner(o, i, Near(o, i)).0)
  {
    hide Winner, Spawns, Updated, Part, Rate, DirectionOf, Merge.NormIsRoot, Sound, At;
    var near := Near(o, i);
    var winner := Winner(o, i, near).0;
    UpdatedIs(o, i, near, winner);
    ActivatedIs(o, i, near, winner);
  }

  // ----- what is created

  /** a + 0.1 * direction. */
  function Beside(a: Vec, direction: Vec): (b: Vec)
    requires |a| == |direction|
    ensures |b| == |a|
  {
    seq(|a|, j requires 0 <= j < |a| => a[j] + direction[j] / 10.0)
  }

  lemma AddedIsBeside(a: Vec, direction: Vec)
    requires |a| == |direction|
    ensures AddScaled(a, direction, 0.1) == Beside(a, direction)
  {
    hide AddScaled;
    forall j | 0 <= j < |a| ensures AddScaled(a, direction, 0.1)[j] == Beside(a, direction)[j] {
      SumAt(a, direction, 0.1, j);
    }
  }

  /** The other half of a split holds as much as the winner keeps, beside it and without debt. */
  lemma SplitCreates(o: Oracles, i: Input)
    requires Sound(o) && Merge.NormIsRoot(o) && i.config.competitive && Proper(i, Near(o, i))
    requires Splits(o, i, Near(o, i)) && |i.direction| == |i.address|
    ensures var (out, winner) := (Adaptive(o, i), Winner(o, i, Near(o, i)).0);
      var parent := out.locations[Near(o, i)[winner].index];
      && |out.created| == 1 && |parent.address| == |i.direction|
      && var child := out.created[0];
         && child.id == i.nextId && child.counter == parent.counter && child.writeCount == parent.writeCount
         && child.surprise == 0.0 && DirectionOf(child.address, Beside(parent.address, i.direction))
  {
    hide Winner, Spawns, Updated, Scale, AddScaled, Normalized, NeighborCap, DirectionOf, Merge.NormIsRoot, KeepOldest, Linked;
    var near := Near(o, i);
    var winner := Winner(o, i, near).0;
    ConnectedKeeps(o, i, near, near[winner].index);
    UpdatedKeeps(o, i, near, near[winner].index);
    var parent := Connected(o, i, near)[near[winner].index];
    AddedIsBeside(parent.address, i.direction);
    NormalizedIsDirection(o, Beside(parent.address, i.direction));
  }

  /** A new location is the input: its direction in a competitive memory, itself otherwise. */
  lemma SpawnCreates(o: Oracles, i: Input)
    requires Sound(o) && Merge.NormIsRoot(o)
    requires i.config.competitive && Near(o, i) != [] && InRange(Near(o, i), |i.locations|) ==>
               Spawns(o, i, Near(o, i), Winner(o, i, Near(o, i)).1)
    ensures |Adaptive(o, i).created| == 1
    ensures var child := Adaptive(o, i).created[0];
      && child.id == i.nextId && child.counter == i.counter && child.writeCount == 1.0 && child.surprise == 0.0
      && if i.config.competitive then DirectionOf(child.address, i.address) else child.address == i.address
  {
    hide Winner, Spawns, Connected, Normalized, NeighborCap, DirectionOf, Merge.NormIsRoot, KeepOldest;
    NearIndices(o, i);
    NormalizedIsDirection(o, i.address);
  }

  // ----- towards the input

  /** The whole write of a unit input to a memory of unit addresses: no location ends up
      less similar to the input than it was. */
  lemma WriteApproaches(o: Oracles, i: Input, x: nat)
    requires Sound(o) && Merge.NormIsRoot(o) && x < |i.locations| && 0.0 <= i.eta <= 1.0
    requires i.config.competitive && Near(o, i) != [] ==> Proper(i, Near(o, i))
    requires Unit(i.address) && Unit(i.locations[x].address) && |i.locations[x].address| == |i.address|
    ensures Dot(i.address, Adaptive(o, i).locations[x].address) >= Dot(i.address, i.locations[x].address)
  {
    hide Winner, Spawns, Activated, Merge.NormIsRoot, Sound, Dot, Normalized, DirectionOf, Rate, Part, At, Framed, CreatesNext;
    WriteFrame(o, i);
    StaysUntouched(i, Adaptive(o, i), x);
    if i.config.competitive && Near(o, i) != [] {
      var near := Near(o, i);
      ActivatedReports(o, i);
      if Spawns(o, i, near, Winner(o, i, near).1) {
        SpawnLeavesContent(o, i, x);
      } else if exists t :: 0 <= t < |near| && near[t].index == x {
        var t :| 0 <= t < |near| && near[t].index == x;
        JoinApproaches(o, i, t);
      }
    }
  }

  lemma StaysUntouched(i: Input, out: Outcome, x: nat)
    requires Framed(i, out) && x < |i.locations|
    ensures |out.locations| == |i.locations| && (x !in out.modified ==> out.locations[x] == i.locations[x])
  {
  }

  lemma ActivatedReports(o: Oracles, i: Input)
    requires Sound(o) && i.config.competitive && Near(o, i) != []
    ensures forall x | x in Adaptive(o, i).modified :: exists t :: 0 <= t < |Near(o, i)| && Near(o, i)[t].index == x
    ensures InRange(Near(o, i), |i.locations|)
    ensures i.config.competitive ==> Adaptive(o, i).modified == Indices(Near(o, i))
  {
    hide Activated;
    NearIndices(o, i);
    ReportsActivated(o, i, Near(o, i));
  }

  lemma JoinApproaches(o: Oracles, i: Input, t: nat)
    requires Sound(o) && Merge.NormIsRoot(o) && i.config.competitive && Proper(i, Near(o, i)) && t < |Near(o, i)|
    requires !Spawns(o, i, Near(o, i), Winner(o, i, Near(o, i)).1) && 0.0 <= i.eta <= 1.0
    requires Unit(i.address) && Unit(i.locations[Near(o, i)[t].index].address)
    ensures var x := Near(o, i)[t].index;
      |Adaptive(o, i).locations| == |i.locations|
      && Dot(i.address, Adaptive(o, i).locations[x].address) >= Dot(i.address, i.locations[x].address)
  {
    hide Winner, Spawns, Adaptive, Merge.NormIsRoot, Sound, Dot, DirectionOf, Rate, Part, At, Pieces, Debt, Unit, Framed, CreatesNext;
    var (near, winner) := (Near(o, i), Winner(o, i, Near(o, i)).0);
    WriteFrame(o, i);
    StaysUntouched(i, Adaptive(o, i), near[t].index);
    JoinIs(o, i, t);
    RateBounds(i, near, winner, t);
    if !(i.opts.gate && t != winner) {
      BlendApproaches(i.locations[near[t].index].address, i.address, Rate(i, near, winner, t),
                      Adaptive(o, i).locations[near[t].index].address);
    }
  }

  lemma RateBounds(i: Input, near: seq<Scan.Scored>, winner: nat, t: nat)
    requires Proper(i, near) && winner < |near| && t < |near| && 0.0 <= i.eta <= 1.0
    ensures 0.0 <= Rate(i, near, winner, t) <= 1.0
  {
    hide Damped;
    if i.opts.gate {
      PartOfWhole(1.0, i.locations[near[t].index].writeCount + 1.0);
    } else {
      var (tau, n) := (i.config.tauDamp, i.locations[near[winner].index].writeCount);
      RateInside(i.eta, tau, n);
    }
  }

  lemma PartOfWhole(x: real, y: real)
    requires 0.0 <= x <= y && y > 0.0
    ensures 0.0 <= x / y <= 1.0
  {
  }

  lemma RateInside(eta: real, tau: real, n: real)
    requires 0.0 <= eta <= 1.0 && tau > 0.0 && n >= 0.0
    ensures 0.0 <= Damped(eta, tau, n) <= 1.0
  {
    var x := eta * tau;
    assert 0.0 <= x <= tau;
    PartOfWhole(x, tau + n);
  }

  /** Under the gate the address goes to the mean of the inputs: n times the blend is
      n - 1 times the old address and the input. */
  lemma GateBlendIsMean(a: Vec, x: Vec, n: real, j: nat)
    requires j < |a| == |x| && n >= 1.0
    ensures n * Blend(a, x, 1.0 / n)[j] == (n - 1.0) * a[j] + x[j]
  {
    var r := 1.0 / n;
    assert n * r == 1.0;
    MeanTerm(n, r, a[j], x[j]);
  }

  lemma MeanTerm(n: real, r: real, a: real, x: real)
    requires n * r == 1.0
    ensures n * ((1.0 - r) * a + r * x) == (n - 1.0) * a + x
  {
    assert n * ((1.0 - r) * a + r * x) == n * a - (n * r) * a + (n * r) * x;
  }

  // ----- addresses stay directions

  /** Every address has norm 1, but for those too short to have a direction. */
  ghost predicate Directed(locs: seq<HardLocation>) {
    forall x | 0 <= x < |locs| :: Unit(locs[x].address) || Short(locs[x].address)
  }

  lemma {:induction false} JoinedDirected(o: Oracles, i: Input, near: seq<Scan.Scored>, winner: nat, n: nat)
    requires Merge.NormIsRoot(o) && n <= |near| && winner < |near| && InRange(near, |i.locations|) && Directed(i.locations)
    ensures Directed(Joined(o, i, near, winner, n))
  {
    hide Share, Unit, Short, Merge.NormIsRoot, Normalized, AddScaled, Difference, Quotient;
    if n > 0 {
      JoinedDirected(o, i, near, winner, n - 1);
      var share := Share(i, near, winner, n - 1);
      if share.Some? {
        var loc := Joined(o, i, near, winner, n - 1)[near[n - 1].index];
        AbsorbDirected(o, i, loc, share.value.0, share.value.1);
      }
    }
  }

  lemma AbsorbDirected(o: Oracles, i: Input, loc: HardLocation, w: real, rate: real)
    requires Merge.NormIsRoot(o)
    ensures Unit(Absorb(o, i, loc, w, rate).address) || Short(Absorb(o, i, loc, w, rate).address)
  {
    hide Unit, Short, Merge.NormIsRoot, Normalized, AddScaled, Difference, DirectionOf;
    var lr := if i.opts.gate then Quotient(1.0, loc.writeCount + w) else rate;
    NormalizedIsDirection(o, AddScaled(loc.address, Difference(i.address, loc.address), lr));
  }

  lemma ConnectedDirected(o: Oracles, i: Input, near: seq<Scan.Scored>)
    requires Merge.NormIsRoot(o) && near != [] && InRange(near, |i.locations|) && Directed(i.locations)
    ensures Directed(Connected(o, i, near))
  {
    hide Winner, Spawns, Joined, Connected, Unit, Short, Merge.NormIsRoot;
    var winner := Winner(o, i, near).0;
    JoinedDirected(o, i, near, winner, |near|);
    forall x | 0 <= x < |i.locations| ensures Connected(o, i, near)[x].address == Updated(o, i, near)[x].address {
      ConnectedKeeps(o, i, near, x);
    }
  }

  /** A write to a competitive memory leaves every address a direction. */
  lemma WriteDirected(o: Oracles, i: Input)
    requires Sound(o) && Merge.NormIsRoot(o) && i.config.competitive && Directed(i.locations)
    ensures Directed(After(Adaptive(o, i)))
  {
    hide Winner, Spawns, Connected, Unit, Short, Merge.NormIsRoot, Normalized, AddScaled, Overloaded, Scale, NeighborCap, DirectionOf,
      KeepOldest;
    NormalizedIsDirection(o, i.address);
    if Near(o, i) != [] {
      var near := Near(o, i);
      NearIndices(o, i);
      ConnectedDirected(o, i, near);
      var parent := Connected(o, i, near)[near[Winner(o, i, near).0].index];
      NormalizedIsDirection(o, AddScaled(parent.address, i.direction, 0.1));
    }
  }

  lemma SurvivorDirected(o: Oracles, c: Config, a: HardLocation, b: HardLocation, cap: nat)
    requires Merge.NormIsRoot(o) && c.competitive && (Unit(a.address) || Short(a.address))
    ensures var s := Merge.Survivor(o, c, a, b, cap); Unit(s.address) || Short(s.address)
  {
    hide Unit, Short, Merge.NormIsRoot, Normalized, Merge.Mean, Merge.MergedNeighbors, DirectionOf;
    var total := a.writeCount + b.writeCount;
    if total > 0.000000000001 {
      NormalizedIsDirection(o, Merge.Mean(a.address, a.writeCount / total, b.address, b.writeCount / total));
    }
  }

  lemma {:induction false} LoopDirected(o: Oracles, c: Config, locs: seq<HardLocation>, pairs: seq<Merge.Pair>, n: nat)
    requires Merge.NormIsRoot(o) && c.competitive && Merge.AllFit(pairs, |locs|) && n <= |pairs| && Directed(locs)
    ensures Directed(Merge.MergeFirst(o, c, locs, pairs, n).locations)
  {
    hide Unit, Short, Merge.NormIsRoot, Merge.Survivor, NeighborCap;
    if n > 0 {
      LoopDirected(o, c, locs, pairs, n - 1);
      var (m, p) := (Merge.MergeFirst(o, c, locs, pairs, n - 1), pairs[n - 1]);
      SurvivorDirected(o, c, m.locations[p.i], m.locations[p.j], NeighborCap(o, c, |m.locations|));
    }
  }

  lemma {:induction false} RetainedDirected(locs: seq<HardLocation>, merged: seq<bool>)
    requires |merged| == |locs| && Directed(locs)
    ensures Directed(Merge.Retained(locs, merged))
  {
    hide Unit, Short;
    if locs != [] {
      RetainedDirected(locs[..|locs| - 1], merged[..|locs| - 1]);
    }
  }

  /** So does a merge. */
  lemma MergeDirected(o: Oracles, c: Config, locs: seq<HardLocation>)
    requires Merge.NormIsRoot(o) && c.competitive && Directed(locs)
    ensures Directed(Merge.Merged(o, c, locs).locations)
  {
    hide Merge.NormIsRoot, Merge.MergeFirst, Merge.PairsOf, Merge.Retained, Directed;
    if |locs| >= 2 {
      Merge.PairsFit(o, c, locs);
      var pairs := Merge.PairsOf(o, c, locs);
      LoopDirected(o, c, locs, pairs, |pairs|);
      var m := Merge.MergeFirst(o, c, locs, pairs, |pairs|);
      RetainedDirected(m.locations, m.merged);
    }
  }
}
