/** The stored half of a collection: what its transactions read and write. Any call
    may fail; a transaction takes effect when it commits, or not at all. */
module Store {
  import opened Wrappers
  import opened Vectors
  import opened Locations
  import opened Sorting
  import Crc32

  type Metadata = seq<Crc32.Byte>

  /** A document's vector, its own copy or its location's address, and its metadata. */
  datatype Document = Inline(vector: Vec, metadata: Metadata) | ByLocation(location: nat, metadata: Metadata)

  /** One collection's part of the five maps. */
  datatype Disk = Disk(locations: map<nat, HardLocation>, documents: map<nat, Document>, postings: map<nat, seq<nat>>,
                       nextId: Option<nat>, eta: Option<real>, docNextId: Option<nat>)

  const EMPTY := Disk(map[], map[], map[], None, None, None)

  // ----- what the operations do

  /** These locations stored in turn, each under its id. */
  function PutAll(m: map<nat, HardLocation>, locs: seq<HardLocation>): map<nat, HardLocation> {
    if locs == [] then m
    else PutAll(m, locs[..|locs| - 1])[locs[|locs| - 1].id := locs[|locs| - 1]]
  }

  function WithLocations(d: Disk, locs: seq<HardLocation>): Disk {
    d.(locations := PutAll(d.locations, locs))
  }

  function WithoutLocations(d: Disk, ids: seq<nat>): Disk {
    d.(locations := DropAll(d.locations, ids))
  }

  function DropAll(m: map<nat, HardLocation>, ids: seq<nat>): map<nat, HardLocation> {
    if ids == [] then m else DropAll(m, ids[..|ids| - 1]) - {ids[|ids| - 1]}
  }

  function Posting(d: Disk, location: nat): seq<nat> {
    if location in d.postings then d.postings[location] else []
  }

  function WithPosting(d: Disk, location: nat, docs: seq<nat>): Disk {
    d.(postings := d.postings[location := docs])
  }

  function WithoutPosting(d: Disk, location: nat): Disk {
    d.(postings := d.postings - {location})
  }

  /** `append_docs_to_location`. */
  function Appending(d: Disk, location: nat, docs: seq<nat>): Disk {
    if docs == [] then d else WithPosting(d, location, Posting(d, location) + docs)
  }

  /** `append_doc_to_location` for each of these locations. */
  function Indexing(d: Disk, locations: seq<nat>, doc: nat): Disk {
    if locations == [] then d
    else Appending(Indexing(d, locations[..|locations| - 1], doc), locations[|locations| - 1], [doc])
  }

  /** One removed location's documents go to its survivor. */
  function Moving(d: Disk, removed: nat, survivor: nat): Disk {
    var docs := Posting(d, removed);
    WithoutPosting(if docs == [] then d else WithPosting(d, survivor, Posting(d, survivor) + docs), removed)
  }

  /** `delete_document_everywhere`. */
  function Deleting(d: Disk, doc: nat): Disk {
    d.(documents := d.documents - {doc}, postings := Scrubbed(d.postings, doc))
  }

  function Others(doc: nat): nat -> bool {
    x => x != doc
  }

  /** The posting lists without the document; a list it leaves empty goes. */
  function Scrubbed(postings: map<nat, seq<nat>>, doc: nat): map<nat, seq<nat>> {
    map l | l in postings && (doc in postings[l] ==> Filter(postings[l], Others(doc)) != []) ::
      if doc in postings[l] then Filter(postings[l], Others(doc)) else postings[l]
  }

  // ----- transactions

  class Txn {
    const store: Store
    var staged: Disk

    constructor (store: Store)
      ensures this.store == store && staged == store.disk
    {
      this.store := store;
      staged := store.disk;
    }

    method PutLocation(loc: HardLocation) returns (ok: bool)
      modifies this, store`faults
      ensures store.Answered(ok)
      ensures staged == if ok then old(staged).(locations := old(staged).locations[loc.id := loc]) else old(staged)
    {
      if * {
        store.faults := store.faults + 1;
        return false;
      }
      staged := staged.(locations := staged.locations[loc.id := loc]);
      ok := true;
    }

    method PutLocations(locs: seq<HardLocation>) returns (ok: bool)
      modifies this, store`faults
      ensures store.Answered(ok)
      ensures ok ==> staged == WithLocations(old(staged), locs)
    {
      for t := 0 to |locs|
        invariant store.faults == old(store.faults)
        invariant staged == WithLocations(old(staged), locs[..t])
      {
        assert locs[..t + 1][..t] == locs[..t];
        ok := PutLocation(locs[t]);
        if !ok {
          return;
        }
      }
      assert locs[..|locs|] == locs;
      ok := true;
    }

    method DeleteLocation(id: nat) returns (ok: bool)
      modifies this, store`faults
      ensures store.Answered(ok)
      ensures staged == if ok then old(staged).(locations := old(staged).locations - {id}) else old(staged)
    {
      if * {
        store.faults := store.faults + 1;
        return false;
      }
      staged := staged.(locations := staged.locations - {id});
      ok := true;
    }

    method DeleteLocations(ids: seq<nat>) returns (ok: bool)
      modifies this, store`faults
      ensures store.Answered(ok)
      ensures ok ==> staged == WithoutLocations(old(staged), ids)
    {
      for t := 0 to |ids|
        invariant store.faults == old(store.faults)
        invariant staged == WithoutLocations(old(staged), ids[..t])
      {
        assert ids[..t + 1][..t] == ids[..t];
        ok := DeleteLocation(ids[t]);
        if !ok {
          return;
        }
      }
      assert ids[..|ids|] == ids;
      ok := true;
    }

    method PutDocument(doc: nat, data: Document) returns (ok: bool)
      modifies this, store`faults
      ensures store.Answered(ok)
      ensures staged == if ok then old(staged).(documents := old(staged).documents[doc := data]) else old(staged)
    {
      if * {
        store.faults := store.faults + 1;
        return false;
      }
      staged := staged.(documents := staged.documents[doc := data]);
      ok := true;
    }

    /** `get_doc_ids_for_location_txn`. */
    method DocIds(location: nat) returns (docs: Option<seq<nat>>)
      modifies store`faults
      ensures store.Answered(docs.Some?)
      ensures docs.Some? ==> docs.value == Posting(staged, location)
    {
      if * {
        store.faults := store.faults + 1;
        return None;
      }
      docs := Some(if location in staged.postings then staged.postings[location] else []);
    }

    /** `put_doc_index_entry`. */
    method PutPosting(location: nat, docs: seq<nat>) returns (ok: bool)
      modifies this, store`faults
      ensures store.Answered(ok)
      ensures staged == if ok then WithPosting(old(staged), location, docs) else old(staged)
    {
      if * {
        store.faults := store.faults + 1;
        return false;
      }
      staged := WithPosting(staged, location, docs);
      ok := true;
    }

    /** `delete_doc_index_entry`. */
    method DeletePosting(location: nat) returns (ok: bool)
      modifies this, store`faults
      ensures store.Answered(ok)
      ensures staged == if ok then WithoutPosting(old(staged), location) else old(staged)
    {
      if * {
        store.faults := store.faults + 1;
        return false;
      }
      staged := WithoutPosting(staged, location);
      ok := true;
    }

    /** `append_docs_to_location`. */
    method AppendDocs(location: nat, docs: seq<nat>) returns (ok: bool)
      modifies this, store`faults
      ensures store.Answered(ok)
      ensures staged == if ok then Appending(old(staged), location, docs) else old(staged)
    {
      if docs == [] {
        return true;
      }
      if * {
        store.faults := store.faults + 1;
        return false;
      }
      staged := WithPosting(staged, location, Posting(staged, location) + docs);
      ok := true;
    }

    /** `append_doc_to_location`, for each location. */
    method AppendDoc(locations: seq<nat>, doc: nat) returns (ok: bool)
      modifies this, store`faults
      ensures store.Answered(ok)
      ensures ok ==> staged == Indexing(old(staged), locations, doc)
    {
      for t := 0 to |locations|
        invariant store.faults == old(store.faults)
        invariant staged == Indexing(old(staged), locations[..t], doc)
      {
        assert locations[..t + 1][..t] == locations[..t];
        ok := AppendDocs(locations[t], [doc]);
        if !ok {
          return;
        }
      }
      assert locations[..|locations|] == locations;
      ok := true;
    }

    method PutCounters(nextId: nat, eta: Option<real>, docNextId: Option<nat>) returns (ok: bool)
      modifies this, store`faults
      ensures store.Answered(ok)
      ensures ok ==> staged == WithCounters(old(staged), nextId, eta, docNextId)
    {
      if * {
        store.faults := store.faults + 1;
        return false;
      }
      staged := staged.(nextId := Some(nextId));
      if eta.Some? {
        if * {
          store.faults := store.faults + 1;
          return false;
        }
        staged := staged.(eta := eta);
      }
      if docNextId.Some? {
        if * {
          store.faults := store.faults + 1;
          return false;
        }
        staged := staged.(docNextId := docNextId);
      }
      ok := true;
    }
  }

  function WithCounters(d: Disk, nextId: nat, eta: Option<real>, docNextId: Option<nat>): Disk {
    d.(nextId := Some(nextId), eta := if eta.Some? then eta else d.eta,
       docNextId := if docNextId.Some? then docNextId else d.docNextId)
  }

  // ----- the store

  /** The records of m in the order of their keys. */
  ghost predicate Listed(m: map<nat, HardLocation>, keys: seq<nat>, locs: seq<HardLocation>) {
    && |keys| == |locs|
    && (forall s, t | 0 <= s < t < |keys| :: keys[s] < keys[t])
    && (forall t | 0 <= t < |keys| :: keys[t] in m && locs[t] == m[keys[t]])
    && (forall id | id in m :: id in keys)
  }

  /** The records listed so far, all before those left. */
  ghost predicate ListedBut(m: map<nat, HardLocation>, keys: seq<nat>, locs: seq<HardLocation>, left: set<nat>) {
    && |keys| == |locs|
    && (forall s, t | 0 <= s < t < |keys| :: keys[s] < keys[t])
    && (forall t | 0 <= t < |keys| :: keys[t] in m && locs[t] == m[keys[t]])
    && (forall t, y | 0 <= t < |keys| && y in left :: keys[t] < y)
    && (forall id | id in m :: id in keys || id in left)
    && left <= m.Keys
  }

  predicate IsLeast(s: set<nat>, x: nat) {
    x in s && forall y | y in s :: x <= y
  }

  lemma ListOne(m: map<nat, HardLocation>, keys: seq<nat>, locs: seq<HardLocation>, left: set<nat>, id: nat)
    requires ListedBut(m, keys, locs, left) && IsLeast(left, id)
    ensures ListedBut(m, keys + [id], locs + [m[id]], left - {id})
  {
    var longer := keys + [id];
    assert longer[|keys|] == id;
    forall x | x in m ensures x in longer || x in left - {id} {
      if x in keys {
        var t :| 0 <= t < |keys| && keys[t] == x;
        assert longer[t] == x;
      }
    }
  }

  lemma HasLeast(s: set<nat>) returns (least: nat)
    requires s != {}
    ensures IsLeast(s, least)
    decreases |s|
  {
    var x :| x in s;
    if s - {x} == {} {
      assert s == {x};
      least := x;
    } else {
      var m := HasLeast(s - {x});
      least := if x < m then x else m;
      forall y | y in s ensures least <= y {
        assert y != x ==> y in s - {x};
      }
    }
  }

  class Store {
    var disk: Disk
    ghost var faults: nat

    constructor ()
      ensures disk == EMPTY
    {
      disk := EMPTY;
    }

    /** A call that did not go through counts as a fault, one that did does not. */
    twostate predicate Answered(ok: bool)
      reads this
    {
      if ok then faults == old(faults) else faults > old(faults)
    }

    method Begin() returns (txn: Option<Txn>)
      modifies this`faults
      ensures Answered(txn.Some?)
      ensures txn.Some? ==> fresh(txn.value) && txn.value.store == this && txn.value.staged == disk
    {
      if * {
        faults := faults + 1;
        return None;
      }
      var t := new Txn(this);
      txn := Some(t);
    }

    method Commit(txn: Txn) returns (ok: bool)
      modifies this
      ensures Answered(ok)
      ensures disk == if ok then txn.staged else old(disk)
    {
      if * {
        faults := faults + 1;
        return false;
      }
      disk := txn.staged;
      ok := true;
    }

    /** `load_all_locations`: a cursor walk in key order. */
    method LoadAllLocations() returns (locs: Option<seq<HardLocation>>, ghost keys: seq<nat>)
      modifies this`faults
      ensures Answered(locs.Some?)
      ensures locs.Some? ==> Listed(disk.locations, keys, locs.value)
    {
      keys := [];
      if * {
        faults := faults + 1;
        return None, keys;
      }
      var found: seq<HardLocation>, left := [], disk.locations.Keys;
      while left != {}
        invariant ListedBut(disk.locations, keys, found, left) && faults == old(faults)
        decreases |left|
      {
        ghost var least := HasLeast(left);
        var id :| id in left && IsLeast(left, id);
        ListOne(disk.locations, keys, found, left, id);
        found, keys, left := found + [disk.locations[id]], keys + [id], left - {id};
      }
      locs := Some(found);
    }

    method GetDocument(doc: nat) returns (r: Result<Option<Document>, ()>)
      modifies this`faults
      ensures Answered(r.Success?)
      ensures r.Success? ==> r.value == if doc in disk.documents then Some(disk.documents[doc]) else None
    {
      if * {
        faults := faults + 1;
        return Failure(());
      }
      r := Success(if doc in disk.documents then Some(disk.documents[doc]) else None);
    }

    /** `list_documents`. */
    method ListDocuments() returns (docs: Option<map<nat, Document>>)
      modifies this`faults
      ensures Answered(docs.Some?)
      ensures docs.Some? ==> docs.value == disk.documents
    {
      if * {
        faults := faults + 1;
        return None;
      }
      docs := Some(disk.documents);
    }

    method LoadCounters() returns (r: Option<(Option<nat>, Option<real>, Option<nat>)>)
      modifies this`faults
      ensures Answered(r.Some?)
      ensures r.Some? ==> r.value == (disk.nextId, disk.eta, disk.docNextId)
    {
      if * {
        faults := faults + 1;
        return None;
      }
      r := Some((disk.nextId, disk.eta, disk.docNextId));
    }
  }

  /** The posting lists once those in `left` are still to be rewritten. */
  ghost predicate ScrubbedBut(before: map<nat, seq<nat>>, doc: nat, left: set<nat>, after: map<nat, seq<nat>>) {
    && (forall l | l in after :: l in before)
    && (forall l | l in before && (doc !in before[l] || l in left) :: l in after && after[l] == before[l])
    && (forall l | l in before && doc in before[l] && l !in left ::
          (l in after <==> Filter(before[l], Others(doc)) != []) && (l in after ==> after[l] == Filter(before[l], Others(doc))))
  }

  lemma ScrubbedAll(before: map<nat, seq<nat>>, doc: nat, after: map<nat, seq<nat>>)
    requires ScrubbedBut(before, doc, {}, after)
    ensures after == Scrubbed(before, doc)
  {
    hide Filter;
    var scrubbed := Scrubbed(before, doc);
    assert forall l :: l in after <==> l in scrubbed;
  }

  /** `delete_document_everywhere`: a walk over the posting lists, then the rewrites. */
  method DeleteDocument(txn: Txn, doc: nat) returns (ok: bool, existed: bool)
    modifies txn, txn.store`faults
    ensures txn.store.Answered(ok)
    ensures ok ==> txn.staged == Deleting(old(txn.staged), doc) && existed == (doc in old(txn.staged).documents)
  {
    hide Filter, Scrubbed;
    var before := txn.staged.postings;
    existed := doc in txn.staged.documents;
    txn.staged := txn.staged.(documents := txn.staged.documents - {doc});
    ghost var staged := txn.staged;
    var left := set l | l in before && doc in before[l];
    while left != {}
      invariant forall l | l in left :: l in before && doc in before[l]
      invariant txn.staged == staged.(postings := txn.staged.postings)
      invariant ScrubbedBut(before, doc, left, txn.staged.postings)
      invariant txn.store.faults == old(txn.store.faults)
      decreases |left|
    {
      var l :| l in left;
      left := left - {l};
      var kept := Filter(before[l], Others(doc));
      if kept == [] {
        ok := txn.DeletePosting(l);
      } else {
        ok := txn.PutPosting(l, kept);
      }
      if !ok {
        return;
      }
    }
    ScrubbedAll(before, doc, txn.staged.postings);
    ok := true;
  }
}
