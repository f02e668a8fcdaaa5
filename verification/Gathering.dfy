/** What the two batched writes gather before they store anything, and the loops that
    store it. */
module Gathering {
  import opened Wrappers
  import opened Vectors
  import opened Locations
  import opened Live
  import opened Steps
  import opened Documents
  import LiveLaws
  import Batches
  import PlainBatches
  import Store
  import Write
  import WriteLaws

  function ItemsOf(inputs: seq<Vec>, directions: seq<Vec>): (r: seq<Item>)
    requires |directions| == |inputs|
    ensures |r| == |inputs|
  {
    seq(|inputs|, t requires 0 <= t < |inputs| => Item(inputs[t], inputs[t], Write.DEFAULT_OPTS, directions[t]))
  }

  lemma ItemsOfFit(inputs: seq<Vec>, directions: seq<Vec>, c: Config)
    requires |directions| == |inputs| && forall t | 0 <= t < |inputs| :: |inputs[t]| == c.d
    ensures PlainBatches.ItemsFit(c, ItemsOf(inputs, directions))
  {
  }

  /** The length of the first input of the wrong dimension. */
  method FirstMisfit(inputs: seq<Vec>, d: nat) returns (got: Option<nat>)
    ensures got.None? <==> forall t | 0 <= t < |inputs| :: |inputs[t]| == d
    ensures got.Some? ==> exists t :: 0 <= t < |inputs| && |inputs[t]| == got.value
                                      && got.value != d && forall s | 0 <= s < t :: |inputs[s]| == d
  {
    for t := 0 to |inputs|
      invariant forall s | 0 <= s < t :: |inputs[s]| == d
    {
      if |inputs[t]| != d {
        return Some(|inputs[t]|);
      }
    }
    got := None;
  }

  /** The elements of a set, in some order. */
  method Elements(s: set<nat>) returns (order: seq<nat>)
    ensures Batches.Orders(order, s)
  {
    order := [];
    var left := s;
    while left != {}
      invariant forall x :: x in s <==> x in order || x in left
      decreases |left|
    {
      var x :| x in left;
      order, left := order + [x], left - {x};
    }
  }

  lemma NoBatch(o: Oracles, v: Live, items: seq<Item>)
    requires Sound(o) && LiveLaws.LiveOK(o, v) && items == []
    ensures PlainBatches.BatchOf(o, v, items) == PlainBatches.Batch(v, {}, [])
  {
  }

  lemma BatchInRange(o: Oracles, v: Live, items: seq<Item>)
    requires Sound(o) && LiveLaws.LiveOK(o, v) && PlainBatches.ItemsFit(v.config, items)
    ensures var b := PlainBatches.BatchOf(o, v, items); forall x | x in b.modified :: x < |b.live.locations|
  {
    hide Sound, LiveLaws.LiveOK, PlainBatches.BatchOf;
    PlainBatches.BatchAccumulates(o, v, items);
  }

  lemma NoDocuments(o: Oracles, v: Live, items: seq<DocumentItem>)
    requires Sound(o) && LiveLaws.LiveOK(o, v) && items == []
    ensures Batches.Gather(o, v, items) == Batches.Gathered(v, {}, map[], [])
  {
  }

  lemma GatherNext(o: Oracles, v: Live, items: seq<DocumentItem>)
    requires Sound(o) && LiveLaws.LiveOK(o, v) && Batches.Fits(v.config, items) && items != []
    ensures var (g, it) := (Batches.Gather(o, v, items[..|items| - 1]), items[|items| - 1]);
      HasRows(g.live) && InBounds(g.live, OutcomeAt(o, g.live, PlainItem(it)))
      && Batches.Gather(o, v, items) == Batches.Gathering(o, g, it)
  {
    hide LiveLaws.LiveOK, Sound, OutcomeAt, TakenOver;
    var (g, it) := (Batches.Gather(o, v, items[..|items| - 1]), items[|items| - 1]);
    Batches.GatherStep(o, g.live, it);
  }

  /** `touched` gains the locations joined and those created. */
  method Touch(touched: set<nat>, out: Write.Outcome) returns (r: set<nat>)
    ensures r == Batches.NowTouched(touched, out)
  {
    r := touched + (set k | 0 <= k < |out.modified| :: out.modified[k]);
    for x := |out.locations| to |out.locations| + |out.created|
      invariant r == touched + (set k | 0 <= k < |out.modified| :: out.modified[k]) + Batches.Range(|out.locations|, x)
    {
      assert Batches.Between(|out.locations|, x, x + 1);
      r := r + {x};
      RangeGrows(|out.locations|, x);
    }
  }

  lemma RangeGrows(a: nat, b: nat)
    requires a <= b
    ensures Batches.Range(a, b + 1) == Batches.Range(a, b) + {b}
  {
    assert Batches.Between(a, b, b + 1);
    assert forall x: nat | x < b :: Batches.Between(a, x, b) == Batches.Between(a, x, b + 1);
  }

  /** `postings` gains the document under each of these locations. */
  method Push(postings: map<nat, seq<nat>>, locations: seq<nat>, doc: nat) returns (r: map<nat, seq<nat>>)
    ensures r == Batches.Pushed(postings, locations, doc)
  {
    r := postings;
    for t := 0 to |locations|
      invariant r == Batches.Pushed(postings, locations[..t], doc)
    {
      assert locations[..t + 1][..t] == locations[..t];
      var l := locations[t];
      r := r[l := (if l in r then r[l] else []) + [doc]];
    }
    assert locations[..|locations|] == locations;
  }

  method PutDocuments(txn: Store.Txn, documents: seq<(nat, Store.Document)>) returns (ok: bool)
    modifies txn, txn.store`faults
    ensures txn.store.Answered(ok)
    ensures ok ==> txn.staged == Batches.WithDocuments(old(txn.staged), documents)
  {
    for t := 0 to |documents|
      invariant txn.store.faults == old(txn.store.faults)
      invariant txn.staged == Batches.WithDocuments(old(txn.staged), documents[..t])
    {
      assert documents[..t + 1][..t] == documents[..t];
      ok := txn.PutDocument(documents[t].0, documents[t].1);
      if !ok {
        return;
      }
    }
    assert documents[..|documents|] == documents;
    ok := true;
  }

  /** The lists appended to so far. */
  ghost predicate AppendedBut(before: map<nat, seq<nat>>, more: map<nat, seq<nat>>, left: set<nat>, after: map<nat, seq<nat>>) {
    && (forall l | l in after :: l in before || (l in more && l !in left))
    && (forall l | l in before && (l !in more || l in left) :: l in after && after[l] == before[l])
    && (forall l | l in more && l !in left :: l in after && after[l] == (if l in before then before[l] else []) + more[l])
  }

  lemma AppendedAll(before: map<nat, seq<nat>>, more: map<nat, seq<nat>>, after: map<nat, seq<nat>>)
    requires AppendedBut(before, more, {}, after)
    ensures after == Batches.JoinedPostings(before, more)
  {
    var joined := Batches.JoinedPostings(before, more);
    forall l | l in before && l !in more ensures joined[l] == before[l] {
      assert before[l] + [] == before[l];
    }
    assert forall l :: l in after <==> l in joined;
  }

  method AppendAll(txn: Store.Txn, postings: map<nat, seq<nat>>) returns (ok: bool)
    requires forall l | l in postings :: postings[l] != []
    modifies txn, txn.store`faults
    ensures txn.store.Answered(ok)
    ensures ok ==> txn.staged == old(txn.staged).(postings := Batches.JoinedPostings(old(txn.staged).postings, postings))
  {
    hide Batches.JoinedPostings;
    var left := postings.Keys;
    ghost var before := txn.staged;
    while left != {}
      invariant txn.store.faults == old(txn.store.faults)
      invariant left <= postings.Keys && txn.staged == before.(postings := txn.staged.postings)
      invariant AppendedBut(before.postings, postings, left, txn.staged.postings)
      decreases |left|
    {
      var l :| l in left;
      left := left - {l};
      ok := txn.AppendDocs(l, postings[l]);
      if !ok {
        return;
      }
    }
    AppendedAll(before.postings, postings, txn.staged.postings);
    ok := true;
  }

  lemma {:induction false} PushedNonEmpty(postings: map<nat, seq<nat>>, locations: seq<nat>, doc: nat)
    requires forall l | l in postings :: postings[l] != []
    ensures forall l | l in Batches.Pushed(postings, locations, doc) :: Batches.Pushed(postings, locations, doc)[l] != []
  {
    if locations != [] {
      PushedNonEmpty(postings, locations[..|locations| - 1], doc);
    }
  }

  lemma {:induction false} GatheredWell(o: Oracles, v: Live, items: seq<DocumentItem>)
    requires Sound(o) && LiveLaws.LiveOK(o, v) && Batches.Fits(v.config, items)
    ensures var g := Batches.Gather(o, v, items);
      (forall x | x in g.touched :: x < |g.live.locations|) && forall l | l in g.postings :: g.postings[l] != []
  {
    hide LiveLaws.LiveOK, Sound, OutcomeAt, TakenOver, Batches.Pushed, Batches.Gather, IndexedUnder, DocumentFor,
      Batches.NowTouched;
    if items == [] {
      NoDocuments(o, v, items);
    } else {
      var (init, it) := (items[..|items| - 1], items[|items| - 1]);
      GatheredWell(o, v, init);
      GatherNext(o, v, items);
      var g := Batches.Gather(o, v, init);
      var out := OutcomeAt(o, g.live, PlainItem(it));
      LiveLaws.WriteKeepsLive(o, g.live, PlainItem(it));
      PushedNonEmpty(g.postings, IndexedUnder(out), g.live.docNextId);
      TouchedInRange(g.touched, out);
    }
  }

  lemma TouchedInRange(touched: set<nat>, out: Write.Outcome)
    requires forall x | x in touched :: x < |out.locations|
    requires forall t | 0 <= t < |out.modified| :: out.modified[t] < |out.locations|
    ensures forall x | x in Batches.NowTouched(touched, out) :: x < |WriteLaws.After(out)|
  {
  }

  function InputsOf(items: seq<DocumentItem>): (r: seq<Vec>)
    ensures |r| == |items|
  {
    seq(|items|, t requires 0 <= t < |items| => items[t].input)
  }

  lemma InputsFit(items: seq<DocumentItem>, c: Config)
    requires forall t | 0 <= t < |items| :: |InputsOf(items)[t]| == c.d
    ensures Batches.Fits(c, items)
  {
    assert forall t | 0 <= t < |items| :: InputsOf(items)[t] == items[t].input;
  }
}
