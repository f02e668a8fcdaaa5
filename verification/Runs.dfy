/** Whole runs of writes and merges of one memory, from the empty one. */
module Runs {
  import opened Vectors
  import opened Locations
  import opened Write
  import opened WriteLaws
  import opened Conservation
  import opened Merge
  import opened MergeLaws
  import JoinLaws
  import SelectLaws
  import Scan

  /** A write, with the f32 copy it searches and its random draw, or a merge. */
  datatype Event =
    | WriteEvent(address: Vec, counter: Vec, opts: Opts, direction: Vec, matrix32: seq<Vec>, maxNorm: real)
    | MergeEvent

  /** A memory, and the most locations it has had. */
  datatype Memory = Memory(locations: seq<HardLocation>, nextId: nat, eta: real, largest: nat)

  function InputOf(c: Config, m: Memory, e: Event): Input
    requires e.WriteEvent?
  {
    Input(c, m.locations, e.matrix32, e.maxNorm, m.nextId, m.eta, e.address, e.counter, e.opts, e.direction)
  }

  ghost function Next(o: Oracles, c: Config, m: Memory, e: Event): Memory
    requires Sound(o)
  {
    match e
    case MergeEvent => m.(locations := Merged(o, c, m.locations).locations)
    case WriteEvent(_, _, _, _, _, _) =>
      var out := Adaptive(o, InputOf(c, m, e));
      Memory(After(out), out.nextId, out.eta, Larger(m.largest, |After(out)|))
  }

  ghost function Run(o: Oracles, c: Config, events: seq<Event>): Memory
    requires Sound(o)
  {
    if events == [] then Memory([], 0, c.eta0, 0)
    else Next(o, c, Run(o, c, events[..|events| - 1]), events[|events| - 1])
  }

  function Writes(events: seq<Event>): nat {
    if events == [] then 0
    else Writes(events[..|events| - 1]) + if events[|events| - 1].WriteEvent? then 1 else 0
  }

  lemma NextKeeps(o: Oracles, c: Config, m: Memory, e: Event)
    requires Sound(o) && ValidConfig(c)
    requires Tidy(o, c, m.locations, m.nextId, m.largest) && c.etaMin <= m.eta <= c.eta0
    ensures var n := Next(o, c, m, e);
      && Tidy(o, c, n.locations, n.nextId, n.largest) && c.etaMin <= n.eta <= m.eta
      && m.nextId <= n.nextId <= m.nextId + (if e.WriteEvent? then 1 else 0)
      && |n.locations| <= |m.locations| + (if e.WriteEvent? then 1 else 0)
  {
    hide Tidy, Adaptive, Merged, ValidConfig, NeighborCap;
    if e.MergeEvent? {
      MergeKeepsTidy(o, c, m.locations, m.nextId, m.largest);
    } else {
      WriteKeepsTidy(o, InputOf(c, m, e), m.largest);
      WriteFrame(o, InputOf(c, m, e));
      EtaStays(o, InputOf(c, m, e));
    }
  }

  /** Over every run: ids are unique and below the next id, which counts at most
      one per write; no neighbour list repeats itself, names its owner or exceeds
      the cap at the largest size reached; the rate stays in [eta_min, eta_0]. */
  lemma {:induction false} RunsStayTidy(o: Oracles, c: Config, events: seq<Event>)
    requires Sound(o) && ValidConfig(c)
    ensures var m := Run(o, c, events);
      && Tidy(o, c, m.locations, m.nextId, m.largest) && c.etaMin <= m.eta <= c.eta0
      && |m.locations| <= m.largest <= m.nextId <= Writes(events)
  {
    hide Next, Tidy, NeighborCap;
    if events == [] {
      EmptyIsTidy(o, c);
    } else {
      RunsStayTidy(o, c, events[..|events| - 1]);
      var m := Run(o, c, events[..|events| - 1]);
      NextKeeps(o, c, m, events[|events| - 1]);
      LargestIsReached(o, c, m, events[|events| - 1]);
    }
  }

  lemma EmptyIsTidy(o: Oracles, c: Config)
    ensures Tidy(o, c, [], 0, 0)
  {
  }

  lemma LargestIsReached(o: Oracles, c: Config, m: Memory, e: Event)
    requires Sound(o) && |m.locations| <= m.largest <= m.nextId
    ensures var n := Next(o, c, m, e); |n.locations| <= n.largest <= n.nextId
  {
    hide Adaptive, Merged;
    if e.MergeEvent? {
      MergeShrinks(o, c, m.locations);
    } else {
      WriteFrame(o, InputOf(c, m, e));
    }
  }

  lemma MergeShrinks(o: Oracles, c: Config, locs: seq<HardLocation>)
    ensures |Merged(o, c, locs).locations| <= |locs|
  {
    hide MergeFirst, PairsOf;
    if |locs| >= 2 {
      PairsFit(o, c, locs);
      var m := MergeFirst(o, c, locs, PairsOf(o, c, locs), |PairsOf(o, c, locs)|);
      RetainedShorter(m.locations, m.merged);
    }
  }

  lemma {:induction false} RetainedShorter(locs: seq<HardLocation>, merged: seq<bool>)
    requires |merged| == |locs|
    ensures |Retained(locs, merged)| <= |locs|
  {
    if locs != [] {
      RetainedShorter(locs[..|locs| - 1], merged[..|locs| - 1]);
    }
  }

  /** The rate never rises. */
  lemma {:induction false} EtaNeverRises(o: Oracles, c: Config, events: seq<Event>, n: nat)
    requires Sound(o) && ValidConfig(c) && n <= |events|
    ensures Run(o, c, events).eta <= Run(o, c, events[..n]).eta
  {
    hide Next, Tidy;
    if n < |events| {
      var init := events[..|events| - 1];
      EtaNeverRises(o, c, init, n);
      assert init[..n] == events[..n];
      RunsStayTidy(o, c, init);
      NextKeeps(o, c, Run(o, c, init), events[|events| - 1]);
    } else {
      assert events[..n] == events;
    }
  }

  /** Over every run of a competitive memory each address is a direction: it has norm 1, or
      is too short to have one. */
  lemma {:induction false} RunsStayDirected(o: Oracles, c: Config, events: seq<Event>)
    requires Sound(o) && NormIsRoot(o) && c.competitive
    ensures JoinLaws.Directed(Run(o, c, events).locations)
  {
    hide JoinLaws.Directed, Adaptive, Merged, NormIsRoot;
    if events == [] {
      EmptyDirected();
    } else {
      var (init, e) := (events[..|events| - 1], events[|events| - 1]);
      RunsStayDirected(o, c, init);
      var m := Run(o, c, init);
      if e.WriteEvent? {
        JoinLaws.WriteDirected(o, InputOf(c, m, e));
      } else {
        JoinLaws.MergeDirected(o, c, m.locations);
      }
    }
  }

  lemma EmptyDirected()
    ensures JoinLaws.Directed([])
  {
  }

  /** The writes of a run that found something to activate. */
  ghost function Decays(o: Oracles, c: Config, events: seq<Event>): nat
    requires Sound(o)
  {
    if events == [] then 0
    else
      var (init, e) := (events[..|events| - 1], events[|events| - 1]);
      Decays(o, c, init)
      + if e.WriteEvent? && c.competitive && Near(o, InputOf(c, Run(o, c, init), e)) != [] then 1 else 0
  }

  lemma NextRate(o: Oracles, c: Config, m: Memory, e: Event)
    requires Sound(o)
    ensures Next(o, c, m, e).eta
         == if e.WriteEvent? && c.competitive && Near(o, InputOf(c, m, e)) != [] then EtaAfter(c, m.eta) else m.eta
  {
    hide Activated, Normalized, Near, Merged, EtaAfter;
    if e.WriteEvent? && c.competitive && Near(o, InputOf(c, m, e)) != [] {
      NearIndices(o, InputOf(c, m, e));
      ReportsActivated(o, InputOf(c, m, e), Near(o, InputOf(c, m, e)));
    }
  }

  /** After n of them the rate is eta_0 * lambda^n, or eta_min where that is lower. */
  lemma {:induction false} RateDecays(o: Oracles, c: Config, events: seq<Event>)
    requires Sound(o) && ValidConfig(c)
    ensures Run(o, c, events).eta == Floored(c, SelectLaws.Power(c.lambda, Decays(o, c, events)))
  {
    hide Next, Near, EtaAfter, Floored, Sound;
    if events == [] {
      StartsAtEta0(c);
    } else {
      var (init, e) := (events[..|events| - 1], events[|events| - 1]);
      RateDecays(o, c, init);
      NextRate(o, c, Run(o, c, init), e);
      DecayOnce(c, Decays(o, c, init), Run(o, c, init).eta);
    }
  }

  ghost function Floored(c: Config, power: real): real {
    if c.eta0 * power < c.etaMin then c.etaMin else c.eta0 * power
  }

  lemma StartsAtEta0(c: Config)
    requires ValidConfig(c)
    ensures Floored(c, 1.0) == c.eta0
  {
  }

  lemma DecayOnce(c: Config, n: nat, eta: real)
    requires ValidConfig(c) && eta == Floored(c, SelectLaws.Power(c.lambda, n))
    ensures EtaAfter(c, eta) == Floored(c, SelectLaws.Power(c.lambda, n + 1))
  {
    hide SelectLaws.Power;
    SelectLaws.PowerNext(c.lambda, n);
    SelectLaws.DecayStep(c.eta0, c.lambda, c.etaMin, SelectLaws.Power(c.lambda, n), eta);
  }

  // ----- the totals of a run

  /** Everything written, each counter as often as it was taken in. */
  ghost function Absorbed(o: Oracles, c: Config, events: seq<Event>, j: nat): real
    requires Sound(o)
  {
    if events == [] then 0.0
    else
      var (init, e) := (events[..|events| - 1], events[|events| - 1]);
      Absorbed(o, c, init, j)
      + if e.WriteEvent? then Taken(o, InputOf(c, Run(o, c, init), e)) * At(e.counter, j) else 0.0
  }

  ghost predicate Counters(events: seq<Event>, d: nat) {
    forall t | 0 <= t < |events| && events[t].WriteEvent? :: |events[t].counter| == d
  }

  lemma WriteKeepsSize(o: Oracles, i: Input)
    requires Sound(o) && CountersOf(i.locations, |i.counter|)
    ensures CountersOf(After(Adaptive(o, i)), |i.counter|)
  {
    hide Activated, Normalized;
    if i.config.competitive && Near(o, i) != [] {
      NearIndices(o, i);
      ActivatedKeepsSize(o, i, Near(o, i));
    }
  }

  lemma ActivatedKeepsSize(o: Oracles, i: Input, near: seq<Scan.Scored>)
    requires near != [] && InRange(near, |i.locations|) && CountersOf(i.locations, |i.counter|)
    ensures CountersOf(After(Activated(o, i, near)), |i.counter|)
  {
    hide Winner, Spawns, Connected, Overloaded, Normalized, NeighborCap, KeepOldest, Scale, AddScaled;
    ConnectedSums(o, i, near, 0);
  }

  lemma MergeKeepsSize(o: Oracles, c: Config, locs: seq<HardLocation>, d: nat)
    requires CountersOf(locs, d)
    ensures CountersOf(Merged(o, c, locs).locations, d)
  {
    hide MergeFirst, PairsOf, Retained;
    if |locs| >= 2 {
      PairsFit(o, c, locs);
      var m := MergeFirst(o, c, locs, PairsOf(o, c, locs), |PairsOf(o, c, locs)|);
      LoopConserves(o, c, locs, PairsOf(o, c, locs), |PairsOf(o, c, locs)|, d, 0);
      RetainedKeepsSize(m.locations, m.merged, d);
    }
  }

  lemma {:induction false} RetainedKeepsSize(locs: seq<HardLocation>, merged: seq<bool>, d: nat)
    requires |merged| == |locs| && CountersOf(locs, d)
    ensures CountersOf(Retained(locs, merged), d)
  {
    if locs != [] {
      RetainedKeepsSize(locs[..|locs| - 1], merged[..|locs| - 1], d);
    }
  }

  /** Over every run of writes and merges, the sum of all counters is exactly what
      the writes put in, coordinate by coordinate. */
  lemma {:induction false} RunsConserve(o: Oracles, c: Config, events: seq<Event>, d: nat, j: nat)
    requires Sound(o) && Counters(events, d)
    ensures CountersOf(Run(o, c, events).locations, d)
    ensures CounterSum(Run(o, c, events).locations, j) == Absorbed(o, c, events, j)
  {
    hide Adaptive, Merged, Taken, CounterSum, At;
    if events == [] {
      NoSum(j);
    } else {
      var (init, e) := (events[..|events| - 1], events[|events| - 1]);
      RunsConserve(o, c, init, d, j);
      var m := Run(o, c, init);
      if e.WriteEvent? {
        WriteConserves(o, InputOf(c, m, e), j);
        WriteKeepsSize(o, InputOf(c, m, e));
      } else {
        MergeConserves(o, c, m.locations, d, j);
        MergeKeepsSize(o, c, m.locations, d);
      }
    }
  }

  lemma NoSum(j: nat)
    ensures CounterSum([], j) == 0.0
  {
  }
}
