/** The persisted operation log: audit.rs and the audit half of store.rs. The
    store's rows are kept in key order; the clock and the success of each
    commit are parameters. */
module Audit {
  import opened Wrappers

  datatype Config = Config(enabled: bool, maxEntries: nat, retentionDays: nat, flushThreshold: nat, maxBuffer: nat)

  datatype Record = Record(seqNo: nat, timestamp: nat, user: string, collection: string, route: string, detail: string)

  /** A stored row under its key; a damaged value does not decode. */
  datatype Row = Row(timestamp: nat, seqNo: nat, value: Option<Record>)

  datatype Query = Query(user: Option<string>, collection: Option<string>, route: Option<string>,
                         since: Option<nat>, until: Option<nat>, limit: nat, maxScan: nat)

  const MS_PER_DAY: nat := 86400000

  // ----- keys

  /** `to_be_bytes` of a width-byte number, as digits to base 256. */
  function BigEndian(n: nat, width: nat): (r: seq<nat>)
    ensures |r| == width
  {
    if width == 0 then [] else BigEndian(n / 256, width - 1) + [n % 256]
  }

  function Base(width: nat): (b: nat)
    ensures b > 0
  {
    if width == 0 then 1 else Base(width - 1) * 256
  }

  /** `audit_key`. */
  function AuditKey(timestamp: nat, seqNo: nat): seq<nat> {
    BigEndian(timestamp, 8) + BigEndian(seqNo, 8)
  }

  /** Byte-string order, which the store keeps its keys in. */
  predicate ByteLess(a: seq<nat>, b: seq<nat>)
    requires |a| == |b|
  {
    a != [] && (a[0] < b[0] || (a[0] == b[0] && ByteLess(a[1..], b[1..])))
  }

  lemma {:induction false} ByteLessAppend(a: seq<nat>, b: seq<nat>, x: seq<nat>, y: seq<nat>)
    requires |a| == |b| && |x| == |y|
    ensures ByteLess(a + x, b + y) <==> ByteLess(a, b) || (a == b && ByteLess(x, y))
  {
    if a == [] {
      assert a + x == x && b + y == y;
    } else {
      assert (a + x)[1..] == a[1..] + x && (b + y)[1..] == b[1..] + y;
      ByteLessAppend(a[1..], b[1..], x, y);
      assert a == [a[0]] + a[1..] && b == [b[0]] + b[1..];
    }
  }

  lemma {:induction false} BigEndianOrder(m: nat, n: nat, width: nat)
    requires m < Base(width) && n < Base(width)
    ensures ByteLess(BigEndian(m, width), BigEndian(n, width)) <==> m < n
    ensures BigEndian(m, width) == BigEndian(n, width) <==> m == n
  {
    if width > 0 {
      BigEndianOrder(m / 256, n / 256, width - 1);
      ByteLessAppend(BigEndian(m / 256, width - 1), BigEndian(n / 256, width - 1), [m % 256], [n % 256]);
      assert BigEndian(m, width)[width - 1] == m % 256 && BigEndian(n, width)[width - 1] == n % 256;
      assert BigEndian(m, width)[..width - 1] == BigEndian(m / 256, width - 1);
      assert BigEndian(n, width)[..width - 1] == BigEndian(n / 256, width - 1);
    }
  }

  predicate KeyLess(a: Row, b: Row) {
    a.timestamp < b.timestamp || (a.timestamp == b.timestamp && a.seqNo < b.seqNo)
  }

  /** The store's byte order of keys is the order of time, then sequence number. */
  lemma KeyOrderIsTimeOrder(a: Row, b: Row)
    requires a.timestamp < Base(8) && b.timestamp < Base(8) && a.seqNo < Base(8) && b.seqNo < Base(8)
    ensures ByteLess(AuditKey(a.timestamp, a.seqNo), AuditKey(b.timestamp, b.seqNo)) <==> KeyLess(a, b)
  {
    hide BigEndian, ByteLess, Base;
    BigEndianOrder(a.timestamp, b.timestamp, 8);
    BigEndianOrder(a.seqNo, b.seqNo, 8);
    ByteLessAppend(BigEndian(a.timestamp, 8), BigEndian(b.timestamp, 8), BigEndian(a.seqNo, 8), BigEndian(b.seqNo, 8));
  }

  // ----- the store

  /** `append_audit`: a put into the ordered rows. */
  function Put(rows: seq<Row>, row: Row): seq<Row> {
    if rows == [] then [row]
    else
      var last := rows[|rows| - 1];
      if KeyLess(last, row) then rows + [row]
      else if KeyLess(row, last) then Put(rows[..|rows| - 1], row) + [last]
      else rows[..|rows| - 1] + [row]
  }

  function PutAll(rows: seq<Row>, batch: seq<Row>): seq<Row> {
    if batch == [] then rows else Put(PutAll(rows, batch[..|batch| - 1]), batch[|batch| - 1])
  }

  /** Times never fall and sequence numbers rise. */
  ghost predicate Chain(rows: seq<Row>) {
    forall i, j | 0 <= i < j < |rows| :: rows[i].timestamp <= rows[j].timestamp && rows[i].seqNo < rows[j].seqNo
  }

  lemma {:induction false} PutAllAppends(rows: seq<Row>, batch: seq<Row>)
    requires Chain(rows + batch)
    ensures PutAll(rows, batch) == rows + batch
  {
    if batch == [] {
      assert rows + batch == rows;
    } else {
      var n := |batch| - 1;
      var all := rows + batch;
      assert rows + batch[..n] == all[..|all| - 1];
      PutAllAppends(rows, batch[..n]);
      assert all == all[..|all| - 1] + [batch[n]];
      if |all| > 1 {
        assert all[|all| - 2].seqNo < all[|all| - 1].seqNo;
        assert KeyLess(all[|all| - 2], batch[n]);
      }
    }
  }

  /** A row that a retention bound lets stay. */
  predicate Fresh(row: Row, minTs: nat) {
    row.timestamp >= minTs
  }

  /** What a prune must leave: the longest newest suffix of at most maxEntries
      rows, none older than minTs. */
  ghost predicate NewestWithin(rows: seq<Row>, kept: seq<Row>, maxEntries: nat, minTs: nat) {
    && |kept| <= |rows| && kept == rows[|rows| - |kept|..]
    && |kept| <= maxEntries
    && (forall i | 0 <= i < |kept| :: Fresh(kept[i], minTs))
    && (|kept| < |rows| ==> |kept| == maxEntries || !Fresh(rows[|rows| - |kept| - 1], minTs))
  }

  lemma NewestWithinIsUnique(rows: seq<Row>, a: seq<Row>, b: seq<Row>, maxEntries: nat, minTs: nat)
    requires NewestWithin(rows, a, maxEntries, minTs) && NewestWithin(rows, b, maxEntries, minTs)
    ensures a == b
  {
  }

  /** `prune_audit`: walks the oldest rows, first down to the count, then past
      the age bound; the first survivor ends the walk. */
  method PruneRows(rows: seq<Row>, maxEntries: nat, minTs: nat) returns (kept: seq<Row>, removed: nat)
    requires Chain(rows)
    ensures NewestWithin(rows, kept, maxEntries, minTs)
    ensures removed == |rows| - |kept|
  {
    var excess := if |rows| > maxEntries then |rows| - maxEntries else 0;
    if excess == 0 && minTs == 0 {
      return rows, 0;
    }
    var doomed := 0;
    while doomed < |rows|
      invariant 0 <= doomed <= |rows|
      invariant 0 <= excess && (excess > 0 ==> doomed + excess == |rows| - maxEntries)
      invariant excess == 0 ==> |rows| - doomed <= maxEntries
      invariant doomed > 0 ==> |rows| - doomed >= maxEntries || !Fresh(rows[doomed - 1], minTs)
    {
      if excess > 0 {
        doomed := doomed + 1;
        excess := excess - 1;
      } else if minTs > 0 && rows[doomed].timestamp < minTs {
        doomed := doomed + 1;
      } else {
        break;
      }
    }
    kept := rows[doomed..];
    removed := doomed;
  }

  // ----- queries

  predicate InWindow(row: Row, q: Query) {
    && (q.until.Some? ==> row.timestamp <= q.until.value)
    && (q.since.Some? ==> row.timestamp >= q.since.value)
  }

  predicate Wants<T(==)>(filter: Option<T>, value: T) {
    filter.Some? ==> filter.value == value
  }

  predicate Matches(q: Query, rec: Record) {
    Wants(q.user, rec.user) && Wants(q.collection, rec.collection) && Wants(q.route, rec.route)
  }

  predicate Hit(row: Row, q: Query) {
    InWindow(row, q) && row.value.Some? && Matches(q, row.value.value)
  }

  /** The newest n rows, newest first. */
  function Newest(rows: seq<Row>, n: nat): seq<Row> {
    if rows == [] || n == 0 then [] else [rows[|rows| - 1]] + Newest(rows[..|rows| - 1], n - 1)
  }

  function Hits(rows: seq<Row>, q: Query): seq<Record> {
    if rows == [] then [] else (if Hit(rows[0], q) then [rows[0].value.value] else []) + Hits(rows[1..], q)
  }

  function First<T>(xs: seq<T>, n: nat): seq<T> {
    if n <= |xs| then xs[..n] else xs
  }

  /** `query`: the newest `limit` hits among the newest `maxScan` rows. A limit
      of zero is answered as a limit of one. */
  function Answer(rows: seq<Row>, q: Query): seq<Record> {
    First(Hits(Newest(rows, q.maxScan), q), if q.limit == 0 then 1 else q.limit)
  }

  /** No row is a hit once the rows are older than the window. */
  lemma {:induction false} NothingOlder(rows: seq<Row>, n: nat, q: Query)
    requires forall i | 0 <= i < |rows| :: !InWindow(rows[i], q)
    ensures Hits(Newest(rows, n), q) == []
  {
    if rows != [] && n > 0 {
      NothingOlder(rows[..|rows| - 1], n - 1, q);
      var newest := Newest(rows, n);
      assert newest[1..] == Newest(rows[..|rows| - 1], n - 1);
    }
  }

  lemma HitsStep(rows: seq<Row>, n: nat, q: Query)
    requires rows != [] && n > 0
    ensures Hits(Newest(rows, n), q)
            == (if Hit(rows[|rows| - 1], q) then [rows[|rows| - 1].value.value] else [])
               + Hits(Newest(rows[..|rows| - 1], n - 1), q)
  {
    var newest := Newest(rows, n);
    assert newest[1..] == Newest(rows[..|rows| - 1], n - 1);
  }

  /** A row a query asks for: within its times, and of its user, collection and route
      where it names them. */
  ghost predicate AskedFor(q: Query, row: Row) {
    && (q.since == None || q.since.value <= row.timestamp)
    && (q.until == None || row.timestamp <= q.until.value)
    && row.value != None
    && (q.user == None || q.user.value == row.value.value.user)
    && (q.collection == None || q.collection.value == row.value.value.collection)
    && (q.route == None || q.route.value == row.value.value.route)
  }

  lemma HitIsAskedFor(row: Row, q: Query)
    ensures Hit(row, q) <==> AskedFor(q, row)
  {
  }

  /** These are, newest first, the places of the rows asked for from `low` on, and the
      hits are their records. */
  ghost predicate Located(rows: seq<Row>, low: int, q: Query, hits: seq<Record>, at: seq<nat>) {
    && |at| == |hits|
    && (forall t | 0 <= t < |at| ::
          low <= at[t] < |rows| && AskedFor(q, rows[at[t]]) && Some(hits[t]) == rows[at[t]].value)
    && (forall s, t | 0 <= s < t < |at| :: at[s] > at[t])
    && (forall i | 0 <= i < |rows| && low <= i && AskedFor(q, rows[i]) :: i in at)
  }

  lemma LocatedStep(rows: seq<Row>, low: int, q: Query, hits: seq<Record>, at: seq<nat>)
    requires rows != [] && low < |rows| && Located(rows[..|rows| - 1], low, q, hits, at)
    ensures var last := |rows| - 1;
      if AskedFor(q, rows[last]) then Located(rows, low, q, [rows[last].value.value] + hits, [last] + at)
      else Located(rows, low, q, hits, at)
  {
    hide AskedFor;
    var last := |rows| - 1;
    assert forall i | 0 <= i < last :: rows[..last][i] == rows[i];
    if AskedFor(q, rows[last]) {
      HasValue(q, rows[last]);
      forall i | 0 <= i < |rows| && low <= i && AskedFor(q, rows[i]) ensures i in [last] + at {
        if i < last {
          assert AskedFor(q, rows[..last][i]);
        }
      }
    } else {
      forall i | 0 <= i < |rows| && low <= i && AskedFor(q, rows[i]) ensures i in at {
        assert AskedFor(q, rows[..last][i]);
      }
    }
  }

  lemma HasValue(q: Query, row: Row)
    requires AskedFor(q, row)
    ensures row.value.Some?
  {
  }

  lemma {:induction false} HitsAre(rows: seq<Row>, n: nat, q: Query) returns (at: seq<nat>)
    ensures Located(rows, |rows| - n, q, Hits(Newest(rows, n), q), at)
  {
    hide Located, AskedFor, Hit, Hits, Newest;
    if rows == [] || n == 0 {
      at := [];
      NoneLocated(rows, |rows| - n, q);
      NothingLeft(rows, n, q);
    } else {
      var last := |rows| - 1;
      at := HitsAre(rows[..last], n - 1, q);
      HitsStep(rows, n, q);
      HitIsAskedFor(rows[last], q);
      LocatedStep(rows, |rows| - n, q, Hits(Newest(rows[..last], n - 1), q), at);
      assert [] + Hits(Newest(rows[..last], n - 1), q) == Hits(Newest(rows[..last], n - 1), q);
      at := if Hit(rows[last], q) then [last] + at else at;
    }
  }

  lemma NoneLocated(rows: seq<Row>, low: int, q: Query)
    requires low >= |rows| || rows == []
    ensures Located(rows, low, q, [], [])
  {
  }

  /** What a query answers: the newest of the rows asked for, newest first, as many as the
      limit, among the newest `max_scan` rows; none of those left out where there is room. */
  lemma AnswerIs(rows: seq<Row>, q: Query) returns (at: seq<nat>)
    ensures |at| == |Answer(rows, q)| <= (if q.limit == 0 then 1 else q.limit)
    ensures forall t | 0 <= t < |at| ::
              at[t] < |rows| && AskedFor(q, rows[at[t]]) && Some(Answer(rows, q)[t]) == rows[at[t]].value
    ensures forall s, t | 0 <= s < t < |at| :: at[s] > at[t]
    ensures forall i | 0 <= i < |rows| && |rows| - q.maxScan <= i && AskedFor(q, rows[i]) ::
              i in at || (|at| == (if q.limit == 0 then 1 else q.limit) && forall t | 0 <= t < |at| :: at[t] > i)
    ensures forall t | 0 <= t < |at| :: at[t] >= |rows| - q.maxScan
  {
    hide Hits, Newest, AskedFor;
    var all := HitsAre(rows, q.maxScan, q);
    var limit := if q.limit == 0 then 1 else q.limit;
    at := if limit <= |all| then all[..limit] else all;
    forall i | 0 <= i < |rows| && |rows| - q.maxScan <= i && AskedFor(q, rows[i])
      ensures i in at || (|at| == limit && forall t | 0 <= t < |at| :: at[t] > i)
    {
      var t :| 0 <= t < |all| && all[t] == i;
      assert t < |at| ==> at[t] == i;
    }
  }

  /** `query` over `scan_audit_desc`. */
  method RunQuery(rows: seq<Row>, q: Query) returns (out: seq<Record>)
    requires Chain(rows)
    ensures out == Answer(rows, q)
  {
    hide Hits, Newest;
    out := [];
    var limit := if q.limit == 0 then 1 else q.limit;
    var i, scanned := |rows|, 0;
    ghost var all := Hits(Newest(rows, q.maxScan), q);
    assert rows[..|rows|] == rows;
    while i > 0
      invariant 0 <= i <= |rows| && scanned <= q.maxScan && |out| < limit
      invariant all == out + Hits(Newest(rows[..i], q.maxScan - scanned), q)
    {
      scanned := scanned + 1;
      if scanned > q.maxScan {
        break;
      }
      i := i - 1;
      var row := rows[i];
      assert rows[..i + 1][..i] == rows[..i];
      HitsStep(rows[..i + 1], q.maxScan - (scanned - 1), q);
      if q.until.Some? && row.timestamp > q.until.value {
        continue;
      }
      if q.since.Some? && row.timestamp < q.since.value {
        NothingOlder(rows[..i], q.maxScan - scanned, q);
        return;
      }
      if row.value.Some? && Matches(q, row.value.value) {
        out := out + [row.value.value];
        if |out| >= q.limit {
          return;
        }
      }
    }
    NothingLeft(rows[..i], if scanned > q.maxScan then 0 else q.maxScan - scanned, q);
  }

  lemma NothingLeft(rows: seq<Row>, n: nat, q: Query)
    ensures rows == [] || n == 0 ==> Hits(Newest(rows, n), q) == []
  {
  }

  // ----- the log over a whole run

  /** The store, the buffer and its counters, with the totals of a run: every
      record accepted, dropped for want of room, pruned, or lost with a buffer
      that was never committed. */
  datatype State = State(rows: seq<Row>, buffer: seq<Record>, nextSeq: nat, clock: nat,
                         accepted: nat, dropped: nat, pruned: nat, lost: nat)

  function RowOf(rec: Record): Row {
    Row(rec.timestamp, rec.seqNo, Some(rec))
  }

  function RowsOf(batch: seq<Record>): (r: seq<Row>)
    ensures |r| == |batch|
  {
    seq(|batch|, i requires 0 <= i < |batch| => RowOf(batch[i]))
  }

  /** Stored and buffered keys follow record order, the clock and the counter are
      ahead of them all, and no record is unaccounted for. */
  ghost predicate Sound(s: State) {
    var all := s.rows + RowsOf(s.buffer);
    && Chain(all)
    && (forall i | 0 <= i < |all| :: all[i].timestamp <= s.clock && all[i].seqNo < s.nextSeq)
    && s.accepted == |s.rows| + |s.buffer| + s.dropped + s.pruned + s.lost
  }

  function MinTimestamp(config: Config, now: nat): nat {
    if config.retentionDays == 0 then 0
    else
      var ms := config.retentionDays * MS_PER_DAY;
      if now < ms then 0 else now - ms
  }

  /** The next state of `record`. */
  function Recorded(config: Config, s: State, rec: Record, now: nat): State {
    if !config.enabled then s
    else
      var stamped := rec.(seqNo := s.nextSeq, timestamp := now);
      var t := s.(nextSeq := s.nextSeq + 1, clock := now, accepted := s.accepted + 1);
      if |s.buffer| >= config.maxBuffer then t.(dropped := s.dropped + 1)
      else t.(buffer := s.buffer + [stamped])
  }

  /** Whether t is a next state of `flush`: the buffer is taken first, and a
      transaction that does not commit loses it; one that commits appends it
      and prunes. */
  ghost predicate Flushed(config: Config, s: State, now: nat, commits: bool, t: State) {
    && t.nextSeq == s.nextSeq && t.clock == now && t.accepted == s.accepted && t.dropped == s.dropped
    && t.buffer == []
    && if commits then
         && NewestWithin(s.rows + RowsOf(s.buffer), t.rows, config.maxEntries, MinTimestamp(config, now))
         && t.pruned == s.pruned + |s.rows| + |s.buffer| - |t.rows| && t.lost == s.lost
       else
         t.rows == s.rows && t.pruned == s.pruned && t.lost == s.lost + |s.buffer|
  }

  /** The next state of dropping the log and opening it over the same store. */
  function Reopened(s: State): State {
    s.(buffer := [], lost := s.lost + |s.buffer|,
       nextSeq := if s.rows == [] then 0 else s.rows[|s.rows| - 1].seqNo + 1)
  }

  lemma RecordKeepsSound(config: Config, s: State, rec: Record, now: nat)
    requires Sound(s) && now >= s.clock
    ensures Sound(Recorded(config, s, rec, now))
  {
    var t := Recorded(config, s, rec, now);
    if |t.buffer| > |s.buffer| {
      var before, all := s.rows + RowsOf(s.buffer), t.rows + RowsOf(t.buffer);
      assert all == before + [RowOf(t.buffer[|s.buffer|])];
    } else {
      assert RowsOf(t.buffer) == RowsOf(s.buffer);
    }
  }

  /** What a flush that commits leaves stored: the newest rows, no more than allowed and none
      older than the retention in days; and when it prunes any, either it leaves as many as
      allowed or the newest it pruned was older. */
  lemma FlushRetains(config: Config, s: State, now: nat, t: State)
    requires Flushed(config, s, now, true, t)
    ensures var all := s.rows + RowsOf(s.buffer);
      && |t.rows| <= config.maxEntries && |t.rows| <= |all| && t.rows == all[|all| - |t.rows|..]
      && (config.retentionDays > 0 ==>
            forall i | 0 <= i < |t.rows| :: t.rows[i].timestamp + config.retentionDays * 24 * 60 * 60 * 1000 >= now)
      && (|t.rows| < |all| ==>
            || |t.rows| == config.maxEntries
            || (config.retentionDays > 0
                && all[|all| - |t.rows| - 1].timestamp + config.retentionDays * 24 * 60 * 60 * 1000 < now))
  {
    hide RowsOf;
    var ms := config.retentionDays * MS_PER_DAY;
    assert ms == config.retentionDays * 24 * 60 * 60 * 1000;
    assert MinTimestamp(config, now) == if config.retentionDays == 0 || now < ms then 0 else now - ms;
  }

  lemma FlushKeepsSound(config: Config, s: State, now: nat, commits: bool, t: State)
    requires Sound(s) && now >= s.clock && Flushed(config, s, now, commits, t)
    ensures Sound(t)
  {
    hide Chain;
    var all := s.rows + RowsOf(s.buffer);
    assert t.rows + RowsOf(t.buffer) == t.rows;
    if commits {
      assert forall i | 0 <= i < |t.rows| :: t.rows[i] == all[|all| - |t.rows| + i];
      ChainPart(all, t.rows, |all| - |t.rows|);
    } else {
      ChainPart(all, t.rows, 0);
    }
  }

  lemma ChainPart(all: seq<Row>, part: seq<Row>, from: nat)
    requires Chain(all) && from + |part| <= |all| && forall i | 0 <= i < |part| :: part[i] == all[from + i]
    ensures Chain(part)
  {
  }

  lemma ReopenKeepsSound(s: State)
    requires Sound(s)
    ensures Sound(Reopened(s))
  {
    var t := Reopened(s);
    var all := s.rows + RowsOf(s.buffer);
    assert t.rows + RowsOf(t.buffer) == t.rows;
    assert forall i | 0 <= i < |s.rows| :: t.rows[i] == all[i];
  }

  datatype Event = Record_(rec: Record, now: nat) | Flush_(now: nat, commits: bool) | Reopen_

  /** t follows s by one event, the clock not running back. */
  ghost predicate Step(config: Config, s: State, e: Event, t: State) {
    match e
    case Record_(rec, now) => now >= s.clock && t == Recorded(config, s, rec, now)
    case Flush_(now, commits) => now >= s.clock && Flushed(config, s, now, commits, t)
    case Reopen_ => t == Reopened(s)
  }

  ghost predicate Run(config: Config, events: seq<Event>, states: seq<State>) {
    && |states| == |events| + 1
    && forall i | 0 <= i < |events| :: Step(config, states[i], events[i], states[i + 1])
  }

  /** Over every run, stored keys follow record order and every accepted record
      is stored, pending, dropped, pruned, or lost; and none is lost while every
      flush commits and the log is not reopened with a buffer. */
  lemma {:induction false} RunsAreSound(config: Config, events: seq<Event>, states: seq<State>)
    requires Run(config, events, states) && Sound(states[0])
    ensures Sound(states[|events|])
    ensures (forall i | 0 <= i < |events| ::
               (events[i].Flush_? ==> events[i].commits) && (events[i].Reopen_? ==> states[i].buffer == []))
            ==> states[|events|].lost == states[0].lost
    decreases |events|
  {
    if events != [] {
      var n := |events| - 1;
      hide Sound, Recorded, Flushed, Reopened;
      RunsAreSound(config, events[..n], states[..n + 1]);
      var s, t := states[n], states[n + 1];
      assert Step(config, s, events[n], t);
      match events[n]
      case Record_(rec, now) =>
        RecordKeepsSound(config, s, rec, now);
      case Flush_(now, commits) =>
        FlushKeepsSound(config, s, now, commits, t);
      case Reopen_ =>
        ReopenKeepsSound(s);
      LostOnlyThen(config, s, events[n], t);
    }
  }

  lemma LostOnlyThen(config: Config, s: State, e: Event, t: State)
    requires Step(config, s, e, t)
    ensures (e.Flush_? ==> e.commits) && (e.Reopen_? ==> s.buffer == []) ==> t.lost == s.lost
  {
  }

  // ----- the log as it runs

  /** The stored rows, shared by every log opened over them. */
  class Store {
    var rows: seq<Row>

    constructor ()
      ensures rows == []
    {
      rows := [];
    }
  }

  class AuditLog {
    const config: Config
    var buffer: seq<Record>
    var nextSeq: nat
    var dropped: nat
    ghost var clock: nat
    ghost var accepted: nat
    ghost var droppedBefore: nat
    ghost var pruned: nat
    ghost var lost: nat

    /** This log's state over a store. */
    ghost function StateOver(store: Store): State
      reads this, store
    {
      State(store.rows, buffer, nextSeq, clock, accepted, droppedBefore + dropped, pruned, lost)
    }

    /** `open`: resumes the counter after the highest key on disk. The ghost
        argument carries over the totals of the log that was open before. */
    constructor Open(store: Store, config: Config, ghost before: State)
      requires before.rows == store.rows
      ensures this.config == config && StateOver(store) == Reopened(before)
      ensures buffer == [] && dropped == 0
    {
      this.config := config;
      buffer := [];
      nextSeq := if store.rows == [] then 0 else store.rows[|store.rows| - 1].seqNo + 1;
      dropped := 0;
      clock, accepted, droppedBefore := before.clock, before.accepted, before.dropped;
      pruned, lost := before.pruned, before.lost + |before.buffer|;
    }

    /** `record`: stages a record; true when a flush is due. */
    method Record(rec: Record, now: nat, ghost store: Store) returns (due: bool)
      modifies this
      ensures StateOver(store) == Recorded(config, old(StateOver(store)), rec, now)
      ensures due <==> config.enabled && (|old(buffer)| >= config.maxBuffer || |buffer| >= config.flushThreshold)
    {
      if !config.enabled {
        return false;
      }
      var stamped := rec.(seqNo := nextSeq, timestamp := now);
      nextSeq := nextSeq + 1;
      clock, accepted := now, accepted + 1;
      if |buffer| >= config.maxBuffer {
        dropped := dropped + 1;
        return true;
      }
      buffer := buffer + [stamped];
      due := |buffer| >= config.flushThreshold;
    }

    /** `flush`: drains the buffer into one transaction and prunes; an empty
        buffer only prunes. Returns how many records were persisted. */
    method Flush(store: Store, now: nat, commits: bool) returns (r: Result<nat, ()>)
      requires Sound(StateOver(store)) && now >= clock
      modifies this, store
      ensures Flushed(config, old(StateOver(store)), now, commits, StateOver(store))
      ensures r == if commits then Success(|old(buffer)|) else Failure(())
    {
      ghost var s := StateOver(store);
      var batch := buffer;
      buffer, clock := [], now;
      PutAllAppends(store.rows, RowsOf(batch));
      var kept, removed := PruneRows(PutAll(store.rows, RowsOf(batch)), config.maxEntries, MinTimestamp(config, now));
      if !commits {
        lost := lost + |batch|;
        return Failure(());
      }
      store.rows := kept;
      pruned := pruned + removed;
      r := Success(|batch|);
    }

    /** `query`, over what is stored. */
    method Ask(store: Store, q: Query) returns (out: seq<Record>)
      requires Sound(StateOver(store))
      ensures out == Answer(store.rows, q)
    {
      assert Chain(store.rows) by {
        var all := store.rows + RowsOf(buffer);
        assert forall i | 0 <= i < |store.rows| :: store.rows[i] == all[i];
      }
      out := RunQuery(store.rows, q);
    }
  }
}
