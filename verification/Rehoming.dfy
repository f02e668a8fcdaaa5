/** Documents given their own vectors, and posting lists moved off the locations that
    merging and compressing remove. */
module Rehoming {
  import opened Wrappers
  import opened Vectors
  import opened Locations
  import opened Live
  import opened Steps
  import Compress
  import CompressLaws
  import Merge
  import MergeLaws
  import Store

  // ----- merging

  /** The documents a materialization rewrites. */
  ghost predicate RewrittenOf(v: Live, documents: map<nat, Store.Document>, left: set<nat>, rewritten: map<nat, Store.Document>) {
    && (forall doc | doc in rewritten :: doc in documents && rewritten[doc] == Inlined(v, documents[doc]))
    && (forall doc | doc in documents && doc !in left && doc !in rewritten :: Inlined(v, documents[doc]) == documents[doc])
  }

  method Rewrites(v: Live, documents: map<nat, Store.Document>) returns (rewritten: map<nat, Store.Document>)
    ensures RewrittenOf(v, documents, {}, rewritten)
  {
    hide ResolvedDocument;
    rewritten := map[];
    var left := documents.Keys;
    while left != {}
      invariant left <= documents.Keys && RewrittenOf(v, documents, left, rewritten)
      decreases |left|
    {
      var doc :| doc in left;
      left := left - {doc};
      var resolved := ResolvedDocument(v, documents[doc]);
      if documents[doc].ByLocation? && resolved.Some? {
        rewritten := rewritten[doc := Store.Inline(resolved.value.0, resolved.value.1)];
      }
    }
  }

  lemma NothingRewritten(v: Live, d: Store.Disk, rewritten: map<nat, Store.Document>)
    requires RewrittenOf(v, d.documents, {}, rewritten) && rewritten == map[]
    ensures Materialized(v, d) == d
  {
    hide Inlined;
  }

  method PutRewritten(txn: Store.Txn, v: Live, rewritten: map<nat, Store.Document>) returns (ok: bool)
    requires RewrittenOf(v, txn.staged.documents, {}, rewritten)
    modifies txn, txn.store`faults
    ensures txn.store.Answered(ok)
    ensures ok ==> txn.staged == Materialized(v, old(txn.staged))
  {
    hide Inlined;
    ghost var before := txn.staged;
    var left := rewritten.Keys;
    while left != {}
      invariant txn.store.faults == old(txn.store.faults)
      invariant left <= rewritten.Keys && txn.staged == before.(documents := txn.staged.documents)
      invariant txn.staged.documents.Keys == before.documents.Keys
      invariant forall doc | doc in before.documents ::
                  txn.staged.documents[doc] == if doc in rewritten && doc !in left then rewritten[doc] else before.documents[doc]
      decreases |left|
    {
      var doc :| doc in left;
      left := left - {doc};
      ok := txn.PutDocument(doc, rewritten[doc]);
      if !ok {
        return;
      }
    }
    assert txn.staged.documents == Materialized(v, before).documents;
    ok := true;
  }

  /** One removed location's documents go to its survivor. */
  method MovePosting(txn: Store.Txn, removed: nat, survivor: nat) returns (ok: bool)
    modifies txn, txn.store`faults
    ensures txn.store.Answered(ok)
    ensures ok ==> txn.staged == Store.Moving(old(txn.staged), removed, survivor)
  {
    var docs := txn.DocIds(removed);
    if docs.None? {
      return false;
    }
    if docs.value != [] {
      var kept := txn.DocIds(survivor);
      if kept.None? {
        return false;
      }
      ok := txn.PutPosting(survivor, kept.value + docs.value);
      if !ok {
        return;
      }
    }
    ok := txn.DeletePosting(removed);
  }

  method MovePostings(txn: Store.Txn, chain: seq<(nat, nat)>) returns (ok: bool)
    modifies txn, txn.store`faults
    ensures txn.store.Answered(ok)
    ensures ok ==> txn.staged == MovedAlong(old(txn.staged), chain)
  {
    hide Store.Moving;
    for t := 0 to |chain|
      invariant txn.store.faults == old(txn.store.faults)
      invariant txn.staged == MovedAlong(old(txn.staged), chain[..t])
    {
      assert chain[..t + 1][..t] == chain[..t];
      ok := MovePosting(txn, chain[t].0, chain[t].1);
      if !ok {
        return;
      }
    }
    assert chain[..|chain|] == chain;
    ok := true;
  }

  /** n is w after a merge of materialized documents. */
  ghost predicate Merging(o: Oracles, w: World, n: World) {
    var r := Merge.Merged(o, w.live.config, w.live.locations);
    var live := w.live.(locations := r.locations);
    n == if r.removed == [] then w.(live := live, version := w.version + 1)
         else w.(live := Rebuilt(o, live), disk := Store.WithoutLocations(MovedAlong(w.disk, r.chain), r.removed),
                 version := w.version + 1)
  }

  // ----- compressing

  /** n is w after a compression of materialized documents. */
  ghost predicate Compressing(o: Oracles, w: World, kappa: real, costWeight: real, n: World) {
    var r := Compress.Compressed(o, kappa, costWeight, TotalWrites(w.live.locations), w.live.locations);
    n == if r.chain == [] then w
         else w.(live := Rebuilt(o, w.live.(locations := r.locations)),
                 disk := Store.WithLocations(Retired(w.disk, r.chain, |r.chain|), r.locations))
  }

  /** `parent` maps each removed location to the one it went into. */
  ghost predicate ParentOf(parent: map<nat, nat>, chain: seq<(nat, nat)>) {
    && (forall t | 0 <= t < |chain| :: chain[t].0 in parent && parent[chain[t].0] == chain[t].1)
    && (forall x | x in parent :: exists t :: 0 <= t < |chain| && chain[t].0 == x)
  }

  method Parents(chain: seq<(nat, nat)>) returns (parent: map<nat, nat>)
    requires MergeLaws.Chained(chain)
    ensures ParentOf(parent, chain)
  {
    parent := map[];
    for t := 0 to |chain|
      invariant forall s | 0 <= s < t :: chain[s].0 in parent && parent[chain[s].0] == chain[s].1
      invariant forall x | x in parent :: exists s :: 0 <= s < t && chain[s].0 == x
    {
      parent := parent[chain[t].0 := chain[t].1];
    }
  }

  /** Up to the entry that removes x, the chain does not move it. */
  lemma {:induction false} ResolveSkips(chain: seq<(nat, nat)>, p: nat, t: nat, x: nat)
    requires MergeLaws.Chained(chain) && p <= t < |chain| && chain[t].0 == x
    ensures CompressLaws.Resolve(chain[p..], x) == CompressLaws.Resolve(chain[t + 1..], chain[t].1)
    decreases t - p
  {
    assert chain[p..][1..] == chain[p + 1..];
    if p < t {
      ResolveSkips(chain, p + 1, t, x);
    }
  }

  lemma {:induction false} ResolveStops(chain: seq<(nat, nat)>, x: nat)
    requires forall t | 0 <= t < |chain| :: chain[t].0 != x
    ensures CompressLaws.Resolve(chain, x) == x
  {
    if chain != [] {
      ResolveStops(chain[1..], x);
    }
  }

  /** Follows the merges of x to the location that is left. */
  method Follow(parent: map<nat, nat>, ghost chain: seq<(nat, nat)>, x: nat) returns (survivor: nat)
    requires MergeLaws.Chained(chain) && ParentOf(parent, chain)
    ensures survivor == CompressLaws.Resolve(chain, x)
  {
    hide CompressLaws.Resolve;
    survivor := x;
    ghost var p := 0;
    assert chain[0..] == chain;
    while survivor in parent
      invariant p <= |chain| && CompressLaws.Resolve(chain[p..], survivor) == CompressLaws.Resolve(chain, x)
      invariant forall s | 0 <= s < p :: chain[s].0 != survivor
      decreases |chain| - p
    {
      ghost var t :| 0 <= t < |chain| && chain[t].0 == survivor;
      ResolveSkips(chain, p, t, survivor);
      survivor := parent[survivor];
      p := t + 1;
    }
    ResolveStops(chain[p..], survivor);
  }

  /** Each removed location retired, its documents with its final survivor. */
  method RetireAll(txn: Store.Txn, chain: seq<(nat, nat)>) returns (ok: bool)
    requires MergeLaws.Chained(chain)
    modifies txn, txn.store`faults
    ensures txn.store.Answered(ok)
    ensures ok ==> txn.staged == Retired(old(txn.staged), chain, |chain|)
  {
    hide CompressLaws.Resolve, MergeLaws.Chained, ParentOf, Retiring;
    var parent := Parents(chain);
    for t := 0 to |chain|
      invariant txn.store.faults == old(txn.store.faults)
      invariant txn.staged == Retired(old(txn.staged), chain, t)
    {
      ghost var before := txn.staged;
      var survivor := Follow(parent, chain, chain[t].0);
      ok := MovePosting(txn, chain[t].0, survivor);
      if !ok {
        return;
      }
      ok := txn.DeleteLocation(chain[t].0);
      if !ok {
        return;
      }
      RetiringIs(before, chain[t].0, survivor);
    }
    ok := true;
  }

  lemma RetiringIs(d: Store.Disk, removed: nat, survivor: nat)
    ensures Retiring(d, removed, survivor)
         == Store.Moving(d, removed, survivor).(locations := Store.Moving(d, removed, survivor).locations - {removed})
  {
    var moved := Store.Moving(d, removed, survivor);
    assert [removed][..0] == [];
    assert Store.DropAll(moved.locations, [removed]) == Store.DropAll(moved.locations, []) - {removed};
  }
}
