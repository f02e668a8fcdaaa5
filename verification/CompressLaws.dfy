/** What compression keeps, and what it does not. */
module CompressLaws {
  import opened Vectors
  import opened Locations
  import opened Compress
  import opened Conservation
  import opened MergeLaws
  import opened Sorting
  import opened WriteLaws

  /** The removed ids of a chain, in order. */
  function RemovedOf(chain: seq<(nat, nat)>): (r: seq<nat>)
    ensures |r| == |chain|
    ensures forall t | 0 <= t < |r| :: r[t] == chain[t].0
  {
    seq(|chain|, t requires 0 <= t < |chain| => chain[t].0)
  }

  // ----- one round

  lemma RoundIds(o: Oracles, locs: seq<HardLocation>, b: Best)
    requires b.i < b.j < |locs|
    ensures Ids(Round(o, locs, b)) == Ids(locs)[..b.j] + Ids(locs)[b.j + 1..]
  {
    hide Normalized, Sum, AddScaled, WeightOf;
    var after := Round(o, locs, b);
    var ids := Ids(locs)[..b.j] + Ids(locs)[b.j + 1..];
    forall x | 0 <= x < |after| ensures Ids(after)[x] == ids[x] {
    }
  }

  /** What is left is different, and is not what was taken out. */
  lemma DroppedDistinct(ids: seq<nat>, j: nat)
    requires j < |ids| && Distinct(ids)
    ensures Distinct(ids[..j] + ids[j + 1..]) && ids[j] !in ids[..j] + ids[j + 1..]
    ensures forall x | 0 <= x < |ids| && x != j :: ids[x] in ids[..j] + ids[j + 1..]
  {
    var left := ids[..j] + ids[j + 1..];
    forall x | 0 <= x < |ids| && x != j ensures ids[x] in left {
      assert left[if x < j then x else x - 1] == ids[x];
    }
  }

  lemma WithoutSums(locs: seq<HardLocation>, j: nat, t: nat)
    requires j < |locs|
    ensures CounterSum(Without(locs, j), t) == CounterSum(locs, t) - At(locs[j].counter, t)
    ensures WriteSum(Without(locs, j)) == WriteSum(locs) - locs[j].writeCount
  {
    hide CounterSum, WriteSum, At;
    assert locs == locs[..j] + ([locs[j]] + locs[j + 1..]);
    SumsAppend(locs[..j], [locs[j]] + locs[j + 1..], t);
    SumsAppend([locs[j]], locs[j + 1..], t);
    SumsAppend(locs[..j], locs[j + 1..], t);
    OneSum(locs[j], t);
  }

  /** A round moves the removed counter into the survivor's. The write count grows by
      what the two fall short of the least weight. */
  lemma RoundConserves(o: Oracles, locs: seq<HardLocation>, b: Best, d: nat, t: nat)
    requires b.i < b.j < |locs| && CountersOf(locs, d)
    ensures CountersOf(Round(o, locs, b), d)
    ensures CounterSum(Round(o, locs, b), t) == CounterSum(locs, t)
    ensures WriteSum(Round(o, locs, b)) >= WriteSum(locs)
    ensures WriteSum(Round(o, locs, b)) == WriteSum(locs)
       <==> locs[b.i].writeCount >= LIGHTEST && locs[b.j].writeCount >= LIGHTEST
  {
    hide CounterSum, WriteSum, At, Normalized, Sum, AddScaled;
    var (p, q) := (locs[b.i], locs[b.j]);
    var s := Absorbing(o, p, q);
    AddScaledAt(p.counter, q.counter, 1.0, t);
    SumsUpdate(locs, b.i, s, t);
    WithoutSums(locs[b.i := s], b.j, t);
  }

  // ----- the whole loop

  /** Every counter survives compression, coordinate by coordinate; the total write
      count does when every location counts at least the least weight. */
  lemma {:induction false} CompressConserves(o: Oracles, kappa: real, costWeight: real, w: real, locs: seq<HardLocation>,
                                             d: nat, t: nat)
    requires CountersOf(locs, d)
    ensures var r := Compressed(o, kappa, costWeight, w, locs).locations;
      && CountersOf(r, d)
      && CounterSum(r, t) == CounterSum(locs, t)
      && WriteSum(r) >= WriteSum(locs)
      && ((forall x | 0 <= x < |locs| :: locs[x].writeCount >= LIGHTEST) ==> WriteSum(r) == WriteSum(locs))
    decreases |locs|
  {
    hide CounterSum, WriteSum, Pays, Closest, Round;
    if |locs| > 2 && Pays(o, kappa, costWeight, w, locs, Closest(locs)) {
      var b := Closest(locs);
      RoundConserves(o, locs, b, d, t);
      RoundStaysHeavy(o, locs, b);
      CompressConserves(o, kappa, costWeight, w, Round(o, locs, b), d, t);
    }
  }

  lemma RoundStaysHeavy(o: Oracles, locs: seq<HardLocation>, b: Best)
    requires b.i < b.j < |locs|
    ensures (forall x | 0 <= x < |locs| :: locs[x].writeCount >= LIGHTEST) ==>
              forall x | 0 <= x < |Round(o, locs, b)| :: Round(o, locs, b)[x].writeCount >= LIGHTEST
  {
    hide Normalized, Sum, AddScaled;
  }

  /** The chain of a compression: each location removed once, into one still there,
      the others left in their order. */
  lemma {:induction false} CompressIsChained(o: Oracles, kappa: real, costWeight: real, w: real, locs: seq<HardLocation>)
    requires Distinct(Ids(locs))
    ensures var r := Compressed(o, kappa, costWeight, w, locs);
      && Chained(r.chain)
      && (forall t | 0 <= t < |r.chain| :: r.chain[t].0 in Ids(locs) && r.chain[t].1 in Ids(locs))
      && Ids(r.locations) == Filter(Ids(locs), Alive(RemovedOf(r.chain)))
    decreases |locs|
  {
    hide Pays, Closest, Round, Filter, Alive, Distinct, Compressed, Chained;
    var r := Compressed(o, kappa, costWeight, w, locs);
    if |locs| > 2 && Pays(o, kappa, costWeight, w, locs, Closest(locs)) {
      var b := Closest(locs);
      var next := Round(o, locs, b);
      CompressedOnce(o, kappa, costWeight, w, locs);
      RoundIds(o, locs, b);
      DroppedDistinct(Ids(locs), b.j);
      CompressIsChained(o, kappa, costWeight, w, next);
      var rest := Compressed(o, kappa, costWeight, w, next);
      ChainPrepends(Ids(locs), b.j, b.i, rest.chain);
      FilterPrepends(Ids(locs), b.j, RemovedOf(rest.chain), RemovedOf(r.chain));
    } else {
      CompressedNoMore(o, kappa, costWeight, w, locs);
      NothingChained();
      NothingFiltered(Ids(locs), RemovedOf(r.chain));
    }
  }

  lemma NothingChained()
    ensures Chained([])
  {
  }

  lemma ChainPrepends(ids: seq<nat>, j: nat, i: nat, rest: seq<(nat, nat)>)
    requires i < j < |ids| && Distinct(ids) && Chained(rest)
    requires forall t | 0 <= t < |rest| :: rest[t].0 in ids[..j] + ids[j + 1..] && rest[t].1 in ids[..j] + ids[j + 1..]
    ensures Chained([(ids[j], ids[i])] + rest)
    ensures forall t | 0 <= t < |rest| :: rest[t].0 in ids && rest[t].1 in ids
  {
    DroppedDistinct(ids, j);
    var chain := [(ids[j], ids[i])] + rest;
    assert forall t | 0 <= t < |rest| :: rest[t].0 != ids[j] && rest[t].1 != ids[j];
    assert forall t | 0 < t < |chain| :: chain[t] == rest[t - 1];
  }

  lemma {:induction false} FilterAppend<T>(a: seq<T>, b: seq<T>, p: T -> bool)
    ensures Filter(a + b, p) == Filter(a, p) + Filter(b, p)
  {
    if b == [] {
      assert a + b == a;
    } else {
      assert (a + b)[..|a + b| - 1] == a + b[..|b| - 1];
      FilterAppend(a, b[..|b| - 1], p);
    }
  }

  lemma {:induction false} FilterAgree(ids: seq<nat>, a: seq<nat>, b: seq<nat>)
    requires forall x | 0 <= x < |ids| :: ids[x] in a <==> ids[x] in b
    ensures Filter(ids, Alive(a)) == Filter(ids, Alive(b))
  {
    if ids != [] {
      FilterAgree(ids[..|ids| - 1], a, b);
    }
  }

  lemma FilterPrepends(ids: seq<nat>, j: nat, rest: seq<nat>, all: seq<nat>)
    requires j < |ids| && Distinct(ids) && all == [ids[j]] + rest
    ensures Filter(ids[..j] + ids[j + 1..], Alive(rest)) == Filter(ids, Alive(all))
  {
    hide Filter, Alive;
    var (a, b) := (ids[..j], ids[j + 1..]);
    assert ids == a + ([ids[j]] + b);
    assert forall x | 0 <= x < |ids| && x != j :: ids[x] in rest <==> ids[x] in all;
    FilterAppend(a, [ids[j]] + b, Alive(all));
    FilterAppend([ids[j]], b, Alive(all));
    FilterAppend(a, b, Alive(rest));
    OneFiltered(ids[j], all);
    FilterAgree(a, rest, all);
    FilterAgree(b, rest, all);
  }

  lemma OneFiltered(x: nat, all: seq<nat>)
    requires x in all
    ensures Filter([x], Alive(all)) == []
  {
  }

  // ----- resolving a removed id through the chain

  /** Where the documents of x end up. */
  function Resolve(chain: seq<(nat, nat)>, x: nat): nat {
    if chain == [] then x
    else if chain[0].0 == x then Resolve(chain[1..], chain[0].1)
    else Resolve(chain[1..], x)
  }

  /** A resolved id is not removed itself, by this chain or the rest of it. */
  lemma {:induction false} ResolveSurvives(chain: seq<(nat, nat)>, x: nat)
    requires Chained(chain)
    ensures forall t | 0 <= t < |chain| :: chain[t].0 != Resolve(chain, x)
  {
    if chain != [] {
      var next := if chain[0].0 == x then chain[0].1 else x;
      ResolveSurvives(chain[1..], next);
      assert forall t | 0 < t < |chain| :: chain[t] == chain[1..][t - 1];
      ResolveAvoids(chain[1..], next, chain[0].0);
    }
  }

  /** An id no survivor has is not resolved to, unless it was asked for. */
  lemma {:induction false} ResolveAvoids(chain: seq<(nat, nat)>, x: nat, y: nat)
    requires x != y && forall t | 0 <= t < |chain| :: chain[t].1 != y
    ensures Resolve(chain, x) != y
  {
    if chain != [] {
      assert forall t | 0 <= t < |chain[1..]| :: chain[1..][t] == chain[t + 1];
      ResolveAvoids(chain[1..], if chain[0].0 == x then chain[0].1 else x, y);
    }
  }

  // ----- neighbour lists

  /** A round joins the two neighbour lists as they are: the survivor comes to name
      itself exactly when it did or the removed location named it, and its list is free
      of repeats exactly when both were and had nothing in common. */
  lemma RoundNames(o: Oracles, locs: seq<HardLocation>, b: Best)
    requires b.i < b.j < |locs|
    ensures var (p, q, s) := (locs[b.i], locs[b.j], Round(o, locs, b)[b.i]);
      && s.id == p.id
      && (s.id in s.neighbors <==> p.id in p.neighbors || p.id in q.neighbors)
      && (Distinct(s.neighbors) <==>
            Distinct(p.neighbors) && Distinct(q.neighbors) && forall n | n in p.neighbors :: n !in q.neighbors)
  {
    hide Normalized, Sum, AddScaled, Distinct;
    DistinctJoin(locs[b.i].neighbors, locs[b.j].neighbors);
  }

  lemma DistinctJoin(xs: seq<nat>, ys: seq<nat>)
    ensures Distinct(xs + ys) <==> Distinct(xs) && Distinct(ys) && forall n | n in xs :: n !in ys
  {
    var all := xs + ys;
    assert forall t | 0 <= t < |ys| :: all[|xs| + t] == ys[t];
    if Distinct(all) {
      forall s, t | 0 <= s < t < |xs| ensures xs[s] != xs[t] {
        assert all[s] != all[t];
      }
      forall n | n in xs ensures n !in ys {
        var t :| 0 <= t < |xs| && xs[t] == n;
        assert all[t] == n;
      }
      forall s, t | 0 <= s < t < |ys| ensures ys[s] != ys[t] {
        assert all[|xs| + s] != all[|xs| + t];
      }
    } else {
      var s, t :| 0 <= s < t < |all| && all[s] == all[t];
      if s < |xs| <= t {
        assert all[s] in xs && ys[t - |xs|] == all[t];
      } else if s >= |xs| {
        assert ys[s - |xs|] == ys[t - |xs|];
      }
    }
  }

  /** How often a location names n, if it ends up in the location with this id. */
  function Mention(loc: HardLocation, chain: seq<(nat, nat)>, id: nat, n: nat): nat {
    if Resolve(chain, loc.id) == id then multiset(loc.neighbors)[n] else 0
  }

  /** How often n is named by the locations that end up in the one with this id. */
  ghost function Mentions(locs: seq<HardLocation>, chain: seq<(nat, nat)>, id: nat, n: nat): nat {
    if locs == [] then 0
    else Mentions(locs[..|locs| - 1], chain, id, n) + Mention(locs[|locs| - 1], chain, id, n)
  }

  lemma {:induction false} MentionsAppend(a: seq<HardLocation>, b: seq<HardLocation>, chain: seq<(nat, nat)>, id: nat, n: nat)
    ensures Mentions(a + b, chain, id, n) == Mentions(a, chain, id, n) + Mentions(b, chain, id, n)
  {
    hide Mention;
    if b == [] {
      assert a + b == a;
    } else {
      assert (a + b)[..|a + b| - 1] == a + b[..|b| - 1];
      MentionsAppend(a, b[..|b| - 1], chain, id, n);
    }
  }

  lemma MentionsAt(locs: seq<HardLocation>, x: nat, chain: seq<(nat, nat)>, id: nat, n: nat)
    requires x < |locs|
    ensures Mentions(locs, chain, id, n)
         == Mentions(locs[..x], chain, id, n) + Mention(locs[x], chain, id, n) + Mentions(locs[x + 1..], chain, id, n)
  {
    hide Mention, Mentions;
    assert locs == locs[..x] + ([locs[x]] + locs[x + 1..]);
    MentionsAppend(locs[..x], [locs[x]] + locs[x + 1..], chain, id, n);
    MentionsAppend([locs[x]], locs[x + 1..], chain, id, n);
    OneMention(locs[x], chain, id, n);
  }

  lemma OneMention(loc: HardLocation, chain: seq<(nat, nat)>, id: nat, n: nat)
    ensures Mentions([loc], chain, id, n) == Mention(loc, chain, id, n)
  {
    hide Mention;
    assert [loc][..0] == [];
  }

  /** A chain that starts with another location's removal sends this one as the rest does. */
  lemma {:induction false} MentionsLater(locs: seq<HardLocation>, first: (nat, nat), rest: seq<(nat, nat)>, id: nat, n: nat)
    requires first.0 !in Ids(locs)
    ensures Mentions(locs, [first] + rest, id, n) == Mentions(locs, rest, id, n)
  {
    if locs != [] {
      var init := locs[..|locs| - 1];
      assert Ids(locs) == Ids(init) + [locs[|locs| - 1].id];
      MentionsLater(init, first, rest, id, n);
      assert ([first] + rest)[1..] == rest;
    }
  }

  lemma MentionJoined(o: Oracles, a: HardLocation, b: HardLocation, rest: seq<(nat, nat)>, id: nat, n: nat)
    ensures Mention(Absorbing(o, a, b), rest, id, n)
         == Mention(a, rest, id, n) + Mention(b, [(b.id, a.id)] + rest, id, n)
  {
    hide Normalized, Sum, AddScaled;
    assert ([(b.id, a.id)] + rest)[1..] == rest;
  }

  /** A round moves what the removed location names to its survivor. */
  lemma RoundMentions(o: Oracles, locs: seq<HardLocation>, b: Best, rest: seq<(nat, nat)>, id: nat, n: nat)
    requires b.i < b.j < |locs| && Distinct(Ids(locs))
    ensures Mentions(Round(o, locs, b), rest, id, n) == Mentions(locs, [(locs[b.j].id, locs[b.i].id)] + rest, id, n)
  {
    hide Mentions, Mention, Absorbing, Resolve, Distinct;
    var (i, j, first) := (b.i, b.j, (locs[b.j].id, locs[b.i].id));
    var chain := [first] + rest;
    var s := Absorbing(o, locs[i], locs[j]);
    MentionJoined(o, locs[i], locs[j], rest, id, n);
    MentionsAt(locs, j, chain, id, n);
    OthersDiffer(locs, j);
    MentionsLater(locs[..j], first, rest, id, n);
    MentionsLater(locs[j + 1..], first, rest, id, n);
    MentionsAt(locs[..j], i, rest, id, n);
    MentionsAt(locs[..j][i := s], i, rest, id, n);
    assert locs[..j][i := s][..i] == locs[..j][..i] && locs[..j][i := s][i + 1..] == locs[..j][i + 1..];
    assert Round(o, locs, b) == locs[..j][i := s] + locs[j + 1..];
    MentionsAppend(locs[..j][i := s], locs[j + 1..], rest, id, n);
  }

  lemma OthersDiffer(locs: seq<HardLocation>, j: nat)
    requires j < |locs| && Distinct(Ids(locs))
    ensures locs[j].id !in Ids(locs[..j]) && locs[j].id !in Ids(locs[j + 1..])
  {
    assert Ids(locs[..j]) == Ids(locs)[..j] && Ids(locs[j + 1..]) == Ids(locs)[j + 1..];
    assert Ids(locs)[j] == locs[j].id;
  }

  lemma {:induction false} NoMentions(locs: seq<HardLocation>, id: nat, n: nat)
    requires id !in Ids(locs)
    ensures Mentions(locs, [], id, n) == 0
  {
    if locs != [] {
      var init := locs[..|locs| - 1];
      assert Ids(locs) == Ids(init) + [locs[|locs| - 1].id];
      NoMentions(init, id, n);
    }
  }

  lemma MentionsItself(locs: seq<HardLocation>, x: nat, n: nat)
    requires x < |locs| && Distinct(Ids(locs))
    ensures Mentions(locs, [], locs[x].id, n) == multiset(locs[x].neighbors)[n]
  {
    hide Mentions;
    OthersDiffer(locs, x);
    MentionsAt(locs, x, [], locs[x].id, n);
    NoMentions(locs[..x], locs[x].id, n);
    NoMentions(locs[x + 1..], locs[x].id, n);
  }

  /** A survivor of the whole loop names n as often as all the locations that ended up
      in it did together. */
  lemma {:induction false} CompressGathers(o: Oracles, kappa: real, costWeight: real, w: real, locs: seq<HardLocation>, x: nat,
                                           n: nat)
    requires Distinct(Ids(locs)) && x < |Compressed(o, kappa, costWeight, w, locs).locations|
    ensures var r := Compressed(o, kappa, costWeight, w, locs);
      multiset(r.locations[x].neighbors)[n] == Mentions(locs, r.chain, r.locations[x].id, n)
    decreases |locs|
  {
    hide Pays, Closest, Round, Distinct, Mentions;
    if |locs| > 2 && Pays(o, kappa, costWeight, w, locs, Closest(locs)) {
      var b := Closest(locs);
      var next := Round(o, locs, b);
      RoundIds(o, locs, b);
      DroppedDistinct(Ids(locs), b.j);
      CompressGathers(o, kappa, costWeight, w, next, x, n);
      var rest := Compressed(o, kappa, costWeight, w, next);
      RoundMentions(o, locs, b, rest.chain, rest.locations[x].id, n);
    } else {
      MentionsItself(locs, x, n);
    }
  }

  lemma {:induction false} MentionedBy(locs: seq<HardLocation>, chain: seq<(nat, nat)>, id: nat, n: nat)
    ensures Mentions(locs, chain, id, n) > 0
       <==> exists y :: 0 <= y < |locs| && Resolve(chain, locs[y].id) == id && n in locs[y].neighbors
  {
    hide Resolve;
    if locs != [] {
      var last := |locs| - 1;
      MentionedBy(locs[..last], chain, id, n);
      assert Mention(locs[last], chain, id, n) > 0 <==> Resolve(chain, locs[last].id) == id && n in locs[last].neighbors;
      assert forall y | 0 <= y < last :: locs[..last][y] == locs[y];
    }
  }

  /** So it names n exactly when one of them did, and itself exactly when one of them
      named it. */
  lemma CompressNames(o: Oracles, kappa: real, costWeight: real, w: real, locs: seq<HardLocation>, x: nat, n: nat)
    requires Distinct(Ids(locs)) && x < |Compressed(o, kappa, costWeight, w, locs).locations|
    ensures var r := Compressed(o, kappa, costWeight, w, locs);
      n in r.locations[x].neighbors <==>
        exists y :: 0 <= y < |locs| && Resolve(r.chain, locs[y].id) == r.locations[x].id && n in locs[y].neighbors
  {
    hide Resolve, Compressed, Mentions, Distinct;
    CompressGathers(o, kappa, costWeight, w, locs, x, n);
    var r := Compressed(o, kappa, costWeight, w, locs);
    MentionedBy(locs, r.chain, r.locations[x].id, n);
  }

  lemma {:induction false} DistinctCounts(list: seq<nat>)
    ensures Distinct(list) <==> forall n: nat :: multiset(list)[n] <= 1
  {
    if list != [] {
      var (init, last) := (list[..|list| - 1], list[|list| - 1]);
      assert list == init + [last];
      DistinctCounts(init);
      DistinctJoin(init, [last]);
      assert multiset(list) == multiset(init) + multiset{last};
      if Distinct(list) {
        forall n: nat ensures multiset(list)[n] <= 1 {
          assert multiset(init)[n] <= 1 && (n == last ==> n !in init);
        }
      } else if Distinct(init) {
        assert last in init;
        assert multiset(list)[last] > 1;
      } else {
        var n: nat :| multiset(init)[n] > 1;
        assert multiset(list)[n] > 1;
      }
    }
  }

  /** The locations that end up in the one with this id name nothing twice. */
  ghost predicate NamedOnce(locs: seq<HardLocation>, chain: seq<(nat, nat)>, id: nat) {
    forall n :: Mentions(locs, chain, id, n) <= 1
  }

  /** Its list is free of repeats exactly when no two of their entries are the same. */
  lemma CompressRepeats(o: Oracles, kappa: real, costWeight: real, w: real, locs: seq<HardLocation>, x: nat)
    requires Distinct(Ids(locs)) && x < |Compressed(o, kappa, costWeight, w, locs).locations|
    ensures var r := Compressed(o, kappa, costWeight, w, locs);
      Distinct(r.locations[x].neighbors) <==> NamedOnce(locs, r.chain, r.locations[x].id)
  {
    hide Compressed, Mentions, Distinct;
    var r := Compressed(o, kappa, costWeight, w, locs);
    var (list, id) := (r.locations[x].neighbors, r.locations[x].id);
    DistinctCounts(list);
    forall n: nat ensures multiset(list)[n] == Mentions(locs, r.chain, id, n) {
      CompressGathers(o, kappa, costWeight, w, locs, x, n);
    }
    if n: nat :| multiset(list)[n] > 1 {
      assert Mentions(locs, r.chain, id, n) > 1;
    }
  }

  // Two alike that know each other and a third, which compression merges.

  const ONE: HardLocation := HardLocation(0, [1.0], [1.0], 1.0, [1, 2], 0.0)
  const TWO: HardLocation := HardLocation(1, [1.0], [1.0], 1.0, [0, 2], 0.0)
  const THREE: HardLocation := HardLocation(2, [-1.0], [1.0], 1.0, [], 0.0)

  lemma OneTwoClosest()
    ensures Closest([ONE, TWO, THREE]) == Best(0, 1, 1.0)
  {
    var locs := [ONE, TWO, THREE];
    assert Score(locs, 0, 1) == 1.0 && Score(locs, 0, 2) == -1.0 && Score(locs, 1, 2) == -1.0;
    var b := Closest(locs);
    assert b.score >= Score(locs, 0, 1);
  }

  /** Good lists before; after, a survivor that names itself, and another twice. */
  lemma CompressNamesItself(o: Oracles, w: real)
    requires o.log2(3) >= o.log2(2) && w >= 0.0
    ensures forall loc | loc in [ONE, TWO, THREE] :: GoodList(loc.neighbors, loc.id, 3)
    ensures var r := Compressed(o, 1.0, 1.0, w, [ONE, TWO, THREE]).locations;
      |r| == 2 && r[0].id == 0 && r[0].neighbors == [1, 2, 0, 2]
  {
    hide Closest, Normalized, Sum, AddScaled;
    var locs := [ONE, TWO, THREE];
    OneTwoClosest();
    var b := Best(0, 1, 1.0);
    assert Pays(o, 1.0, 1.0, w, locs, b);
    var next := Round(o, locs, b);
    assert |next| == 2 && next[0] == Absorbing(o, ONE, TWO);
  }
}
