/** Hard locations and the configuration of a memory (location.rs, config.rs),
    and what the model takes from outside: square roots, logarithms, the search. */
module Locations {
  import opened Vectors
  import Scan

  datatype HardLocation = HardLocation(id: nat, address: Vec, counter: Vec, writeCount: real, neighbors: seq<nat>,
                                       surprise: real)

  datatype Config = Config(d: nat, k: nat, eta0: real, lambda: real, etaMin: real, tauSplit: real, tauMerge: real,
                           gamma: real, tauDamp: real, tauOverload: real, neighborCap: nat, numLandmarks: nat,
                           mdlGate: bool, competitive: bool)

  /** `validate`, as far as the model's operations depend on it. */
  predicate ValidConfig(c: Config) {
    && c.d > 0 && c.k > 0
    && 0.0 < c.etaMin <= c.eta0
    && 0.0 < c.lambda <= 1.0
    && 0.0 <= c.tauSplit < c.tauMerge <= 1.0
    && c.gamma >= 0.0 && c.tauDamp > 0.0 && c.tauOverload > 0.0
    && (c.neighborCap > 0 ==> c.numLandmarks > 0)
  }

  /** `l2_norm`, rounding to f32, `ln().ceil()`, `log2`, the two bit costs, and the k-nearest search over
      the locations and their f32 copy. */
  datatype Oracles = Oracles(norm: Vec -> real, to32: real -> real, lnCeil: nat -> nat, log2: nat -> real,
                             surpriseBits: real -> real,
                             engramBits: (nat, nat) -> real,
                             near: (Vec, seq<HardLocation>, nat, seq<Vec>, real) -> seq<Scan.Scored>)

  /** What every search answer has in common: k different locations, the most
      similar first. */
  ghost predicate Nearest(near: seq<Scan.Scored>, n: nat, k: nat) {
    && |near| == k
    && (forall i | 0 <= i < |near| :: near[i].index < n)
    && (forall i, j | 0 <= i < j < |near| :: near[i].index != near[j].index)
    && (forall i | 0 <= i < |near| :: near[i].sim <= near[0].sim)
  }

  ghost predicate Sound(o: Oracles) {
    && (forall q: Vec, locs: seq<HardLocation>, k: nat, m: seq<Vec>, x: real | k <= |locs| ::
          Nearest(o.near(q, locs, k, m, x), |locs|, k))
    && (forall a: nat, b: nat | a <= b :: o.lnCeil(a) <= o.lnCeil(b))
  }

  /** Division; the engine never divides by a zero it has not ruled out. */
  function Quotient(x: real, y: real): real {
    if y == 0.0 then 0.0 else x / y
  }

  function Max(x: real, y: real): real {
    if x < y then y else x
  }

  /** `adaptive_neighbor_cap`. */
  function NeighborCap(o: Oracles, c: Config, n: nat): nat {
    if c.neighborCap == 0 then 0
    else
      var longRange := (if c.k == 0 then 0 else c.k - 1) * o.lnCeil(if n == 0 then 1 else n);
      if longRange < 2 * c.k then 2 * c.k else longRange
  }

  /** `normalize`. */
  function Normalized(o: Oracles, v: Vec): (r: Vec)
    ensures |r| == |v|
  {
    Scan.Normalize(v, o.norm(v))
  }

  /** `cosine_similarity`. */
  function Cosine(o: Oracles, a: Vec, b: Vec): real {
    var na, nb := o.norm(a), o.norm(b);
    if na < 0.000000000001 || nb < 0.000000000001 then 0.0 else Dot(a, b) / (na * nb)
  }

  /** x - a, as far as both go. */
  function Difference(x: Vec, a: Vec): Vec {
    if x == [] || a == [] then [] else [x[0] - a[0]] + Difference(x[1..], a[1..])
  }

  function Ids(locs: seq<HardLocation>): (r: seq<nat>)
    ensures |r| == |locs|
  {
    seq(|locs|, i requires 0 <= i < |locs| => locs[i].id)
  }

  ghost predicate Distinct(xs: seq<nat>) {
    forall i, j | 0 <= i < j < |xs| :: xs[i] != xs[j]
  }

  // ----- totals over a memory

  /** Coordinate j of a counter; a shorter vector contributes nothing. */
  function At(v: Vec, j: nat): real {
    if j < |v| then v[j] else 0.0
  }

  /** Coordinate j of the sum of all counters. */
  ghost function CounterSum(locs: seq<HardLocation>, j: nat): real {
    if locs == [] then 0.0 else CounterSum(locs[..|locs| - 1], j) + At(locs[|locs| - 1].counter, j)
  }

  function WriteSum(locs: seq<HardLocation>): real {
    if locs == [] then 0.0 else WriteSum(locs[..|locs| - 1]) + locs[|locs| - 1].writeCount
  }

  lemma {:induction false} SumsUpdate(locs: seq<HardLocation>, i: nat, x: HardLocation, j: nat)
    requires i < |locs|
    ensures CounterSum(locs[i := x], j) == CounterSum(locs, j) - At(locs[i].counter, j) + At(x.counter, j)
    ensures WriteSum(locs[i := x]) == WriteSum(locs) - locs[i].writeCount + x.writeCount
  {
    var n := |locs| - 1;
    if i < n {
      assert locs[i := x][..n] == locs[..n][i := x];
      SumsUpdate(locs[..n], i, x, j);
    } else {
      assert locs[i := x][..n] == locs[..n];
    }
  }

  lemma {:induction false} SumsAppend(a: seq<HardLocation>, b: seq<HardLocation>, j: nat)
    ensures CounterSum(a + b, j) == CounterSum(a, j) + CounterSum(b, j)
    ensures WriteSum(a + b) == WriteSum(a) + WriteSum(b)
  {
    if b == [] {
      assert a + b == a;
    } else {
      assert (a + b)[..|a + b| - 1] == a + b[..|b| - 1];
      SumsAppend(a, b[..|b| - 1], j);
    }
  }

  lemma {:induction false} SumsSame(a: seq<HardLocation>, b: seq<HardLocation>, j: nat)
    requires |a| == |b|
    requires forall i | 0 <= i < |a| :: a[i].counter == b[i].counter && a[i].writeCount == b[i].writeCount
    ensures CounterSum(a, j) == CounterSum(b, j) && WriteSum(a) == WriteSum(b)
  {
    if a != [] {
      SumsSame(a[..|a| - 1], b[..|b| - 1], j);
    }
  }

  lemma {:induction false} AddScaledAt(a: Vec, b: Vec, c: real, j: nat)
    requires |b| <= |a|
    ensures At(AddScaled(a, b, c), j) == At(a, j) + c * At(b, j)
  {
    if a != [] && b != [] {
      if j == 0 {
      } else {
        AddScaledAt(a[1..], b[1..], c, j - 1);
        assert At(a, j) == At(a[1..], j - 1) && At(b, j) == At(b[1..], j - 1);
      }
    }
  }

  lemma {:induction false} ScaleAt(a: Vec, c: real, j: nat)
    ensures At(Scale(a, c), j) == At(a, j) * c
  {
    if a != [] && j > 0 {
      ScaleAt(a[1..], c, j - 1);
    }
  }
}
