/** The k-d tree of nearest.rs: built in place over a reordered index list and
    searched with pruning. */
module KdTree {
  import opened Wrappers
  import opened Vectors
  import Sorting

  /** A leaf holds order[start..end]; a split sends coordinates below `value`
      left and the others right. */
  datatype Node =
    | Leaf(start: nat, end: nat)
    | Split(dim: nat, value: real, left: nat, right: nat)

  const LEAF: nat := 8

  /** A point and its squared distance from the query. */
  datatype Found = Found(point: nat, dist2: real)

  /** Rows of k coordinates each. */
  ghost predicate Cloud(points: seq<Vec>, k: nat) {
    k >= 1 && forall p | 0 <= p < |points| :: |points[p]| == k
  }

  /** order[start..end] names points. */
  ghost predicate Names(points: seq<Vec>, order: seq<nat>, start: nat, end: nat) {
    start <= end <= |order| && forall i | start <= i < end :: order[i] < |points|
  }

  /** Node `node` is the root of a tree over order[start..end] whose nodes all
      have indices from `lo` on, and every split separates its two ranges. */
  ghost predicate Covers(points: seq<Vec>, k: nat, order: seq<nat>, nodes: seq<Node>, lo: nat,
                         node: nat, start: nat, end: nat)
    requires Cloud(points, k) && Names(points, order, start, end)
    decreases end - start
  {
    && lo <= node < |nodes|
    && match nodes[node]
       case Leaf(s, e) => s == start && e == end
       case Split(dim, value, left, right) =>
         var mid := start + (end - start) / 2;
         && start < mid < end
         && dim < k
         && Below(points, k, order, start, mid, dim, value)
         && Above(points, k, order, mid, end, dim, value)
         && Covers(points, k, order, nodes, lo, left, start, mid)
         && Covers(points, k, order, nodes, lo, right, mid, end)
  }

  ghost predicate Below(points: seq<Vec>, k: nat, order: seq<nat>, start: nat, end: nat, dim: nat, value: real)
    requires Cloud(points, k) && Names(points, order, start, end) && dim < k
  {
    forall i | start <= i < end :: points[order[i]][dim] <= value
  }

  ghost predicate Above(points: seq<Vec>, k: nat, order: seq<nat>, start: nat, end: nat, dim: nat, value: real)
    requires Cloud(points, k) && Names(points, order, start, end) && dim < k
  {
    forall i | start <= i < end :: value <= points[order[i]][dim]
  }

  /** A tree depends only on its own nodes and its own range of the order. */
  lemma {:induction false} CoversFrame(points: seq<Vec>, k: nat, order: seq<nat>, nodes: seq<Node>,
                                       order': seq<nat>, nodes': seq<Node>,
                                       lo: nat, node: nat, start: nat, end: nat)
    requires Cloud(points, k) && Names(points, order, start, end)
    requires Covers(points, k, order, nodes, lo, node, start, end)
    requires |order'| == |order| && |nodes| <= |nodes'|
    requires forall i | start <= i < end :: order'[i] == order[i]
    requires forall i | lo <= i < |nodes| :: nodes'[i] == nodes[i]
    ensures Names(points, order', start, end)
    ensures Covers(points, k, order', nodes', lo, node, start, end)
    decreases end - start
  {
    match nodes[node]
    case Leaf(_, _) =>
    case Split(dim, value, left, right) =>
      var mid := start + (end - start) / 2;
      CoversFrame(points, k, order, nodes, order', nodes', lo, left, start, mid);
      CoversFrame(points, k, order, nodes, order', nodes', lo, right, mid, end);
  }

  /** Lowering the bound on the node indices keeps a tree a tree. */
  lemma {:induction false} CoversLower(points: seq<Vec>, k: nat, order: seq<nat>, nodes: seq<Node>,
                                       lo: nat, lo': nat, node: nat, start: nat, end: nat)
    requires Cloud(points, k) && Names(points, order, start, end) && lo' <= lo
    requires Covers(points, k, order, nodes, lo, node, start, end)
    ensures Covers(points, k, order, nodes, lo', node, start, end)
    decreases end - start
  {
    match nodes[node]
    case Leaf(_, _) =>
    case Split(dim, value, left, right) =>
      var mid := start + (end - start) / 2;
      CoversLower(points, k, order, nodes, lo, lo', left, start, mid);
      CoversLower(points, k, order, nodes, lo, lo', right, mid, end);
  }

  /** Everything across the splitting plane is at least as far away as the plane. */
  lemma AcrossThePlane(points: seq<Vec>, k: nat, order: seq<nat>, start: nat, end: nat, dim: nat, value: real, q: Vec)
    requires Cloud(points, k) && Names(points, order, start, end) && dim < k && |q| == k
    requires
      || (q[dim] <= value && Above(points, k, order, start, end, dim, value))
      || (q[dim] >= value && Below(points, k, order, start, end, dim, value))
    ensures forall i | start <= i < end :: (q[dim] - value) * (q[dim] - value) <= Dist2(q, points[order[i]])
  {
    hide Dist2;
    forall i | start <= i < end
      ensures (q[dim] - value) * (q[dim] - value) <= Dist2(q, points[order[i]])
    {
      var x := points[order[i]][dim];
      CoordinateBelowDist2(q, points[order[i]], dim);
      SquareGrows(q[dim], value, x);
    }
  }

  lemma SquareGrows(q: real, v: real, x: real)
    requires q <= v <= x || x <= v <= q
    ensures (q - v) * (q - v) <= (q - x) * (q - x)
  {
    var a, b := Abs(q - v), Abs(q - x);
    FactorGrows(a, a, b);
    FactorGrows(b, a, b);
    assert a * a == (q - v) * (q - v) && b * b == (q - x) * (q - x);
  }

  lemma FactorGrows(k: real, a: real, b: real)
    requires 0.0 <= k && a <= b
    ensures k * a <= k * b && a * k <= b * k
  {
  }

  function Coordinate(points: seq<Vec>, p: nat, dim: nat): real {
    if p < |points| && dim < |points[p]| then points[p][dim] else 0.0
  }

  /** The order `split` selects the median by. */
  function ByCoordinate(points: seq<Vec>, dim: nat): (nat, nat) -> bool {
    (a: nat, b: nat) => Coordinate(points, a, dim) <= Coordinate(points, b, dim)
  }

  /** The points in order[start..end], each once per occurrence. */
  ghost function Range(order: seq<nat>, start: nat, end: nat): multiset<nat>
    requires start <= end <= |order|
  {
    multiset(order[start..end])
  }

  /** A bound on a range's points survives a rearrangement of the range. */
  lemma BoundsSurvive(points: seq<Vec>, k: nat, order: seq<nat>, order': seq<nat>, start: nat, end: nat,
                      dim: nat, value: real)
    requires Cloud(points, k) && dim < k && |order| == |order'|
    requires Names(points, order, start, end)
    requires Range(order, start, end) == Range(order', start, end)
    ensures Names(points, order', start, end)
    ensures Below(points, k, order, start, end, dim, value) ==> Below(points, k, order', start, end, dim, value)
    ensures Above(points, k, order, start, end, dim, value) ==> Above(points, k, order', start, end, dim, value)
  {
    forall i | start <= i < end
      ensures exists j :: start <= j < end && order[j] == order'[i]
    {
      assert order'[i] in multiset(order'[start..end]) by {
        assert order'[start..end][i - start] == order'[i];
      }
      assert order'[i] in multiset(order[start..end]);
      var j :| 0 <= j < |order[start..end]| && order[start..end][j] == order'[i];
      assert order[start + j] == order'[i];
    }
  }

  lemma RangeSplits(order: seq<nat>, start: nat, mid: nat, end: nat)
    requires start <= mid <= end <= |order|
    ensures Range(order, start, end) == Range(order, start, mid) + Range(order, mid, end)
  {
    assert order[start..end] == order[start..mid] + order[mid..end];
  }

  /** Two finished subtrees under a new split make a tree. `order0` is the
      order right after partitioning, `order1` and `order2` the order after
      the left and right subtree were built. */
  lemma JoinSubtrees(points: seq<Vec>, k: nat, order0: seq<nat>, order1: seq<nat>, order2: seq<nat>,
                     nodes1: seq<Node>, nodes2: seq<Node>, at: nat, left: nat, right: nat,
                     start: nat, mid: nat, end: nat, dim: nat, value: real)
    requires Cloud(points, k) && dim < k && Names(points, order0, start, end)
    requires mid == start + (end - start) / 2 && start < mid < end
    requires Below(points, k, order0, start, mid, dim, value) && Above(points, k, order0, mid, end, dim, value)
    requires |order2| == |order1| == |order0|
    requires order1[mid..] == order0[mid..] && order2[..mid] == order1[..mid]
    requires Range(order1, start, mid) == Range(order0, start, mid)
    requires Range(order2, mid, end) == Range(order1, mid, end)
    requires Names(points, order1, start, mid) && Names(points, order2, mid, end)
    requires left == at + 1 && right == |nodes1| < |nodes2| && nodes2[..right] == nodes1
    requires Covers(points, k, order1, nodes1, left, left, start, mid)
    requires Covers(points, k, order2, nodes2, right, right, mid, end)
    ensures Names(points, order2, start, end)
    ensures Range(order2, start, end) == Range(order0, start, end)
    ensures Covers(points, k, order2, nodes2[at := Split(dim, value, left, right)], at, at, start, end)
  {
    hide Cloud, Range, Below, Above;
    var nodes3 := nodes2[at := Split(dim, value, left, right)];
    NamesFrom(points, order0, start, mid, end);
    PrefixAt(order2, order1, mid);
    assert nodes1[..right] == nodes1;
    PrefixAt(nodes2, nodes1, right);
    CoversMoved(points, k, order1, nodes1, order2, nodes3, left, at, start, mid);
    CoversMoved(points, k, order2, nodes2, order2, nodes3, right, at, mid, end);
    RangesJoin(order0, order1, order2, start, mid, end);
    BoundsSurvive(points, k, order0, order2, start, mid, dim, value);
    BoundsSurvive(points, k, order0, order2, mid, end, dim, value);
  }

  lemma NamesFrom(points: seq<Vec>, order: seq<nat>, start: nat, mid: nat, end: nat)
    requires Names(points, order, start, end) && start <= mid <= end
    ensures Names(points, order, start, mid) && Names(points, order, mid, end)
  {
  }

  /** A tree among more nodes, and with the bound on their indices lowered. */
  lemma CoversMoved(points: seq<Vec>, k: nat, order: seq<nat>, nodes: seq<Node>, order': seq<nat>, nodes': seq<Node>,
                    lo: nat, lo': nat, start: nat, end: nat)
    requires Cloud(points, k) && Names(points, order, start, end) && lo' <= lo
    requires Covers(points, k, order, nodes, lo, lo, start, end)
    requires |order'| == |order| && |nodes| <= |nodes'|
    requires forall i | start <= i < end :: order'[i] == order[i]
    requires forall i | lo <= i < |nodes| :: nodes'[i] == nodes[i]
    ensures Names(points, order', start, end)
    ensures Covers(points, k, order', nodes', lo', lo, start, end)
  {
    hide Cloud, Covers;
    CoversFrame(points, k, order, nodes, order', nodes', lo, lo, start, end);
    CoversLower(points, k, order', nodes', lo, lo', lo, start, end);
  }

  lemma PrefixAt<T>(a: seq<T>, b: seq<T>, n: nat)
    requires n <= |a| && n <= |b| && a[..n] == b[..n]
    ensures forall i | 0 <= i < n :: a[i] == b[i]
  {
    forall i | 0 <= i < n ensures a[i] == b[i] {
      assert a[..n][i] == b[..n][i];
    }
  }

  lemma SliceAt(a: seq<nat>, b: seq<nat>, from: nat)
    requires |a| == |b| && from <= |a| && a[from..] == b[from..]
    ensures forall i | from <= i < |a| :: a[i] == b[i]
  {
    forall i | from <= i < |a|
      ensures a[i] == b[i]
    {
      assert a[from..][i - from] == b[from..][i - from];
    }
  }

  lemma RangesJoin(order0: seq<nat>, order1: seq<nat>, order2: seq<nat>, start: nat, mid: nat, end: nat)
    requires |order2| == |order1| == |order0| && start <= mid <= end <= |order0|
    requires order1[mid..] == order0[mid..] && order2[..mid] == order1[..mid]
    requires Range(order1, start, mid) == Range(order0, start, mid)
    requires Range(order2, mid, end) == Range(order1, mid, end)
    ensures Range(order2, start, mid) == Range(order0, start, mid)
    ensures Range(order2, mid, end) == Range(order0, mid, end)
    ensures Range(order2, start, end) == Range(order0, start, end)
  {
    SliceAt(order1, order0, mid);
    assert order2[start..mid] == order2[..mid][start..] == order1[..mid][start..] == order1[start..mid];
    assert order1[mid..end] == order0[mid..end];
    RangeSplits(order0, start, mid, end);
    RangeSplits(order2, start, mid, end);
  }

  /** Putting a partitioned slice back in place. */
  lemma SlicePlaced(points: seq<Vec>, k: nat, order: seq<nat>, slice: seq<nat>, start: nat, mid: nat, end: nat, dim: nat)
    requires Cloud(points, k) && dim < k && Names(points, order, start, end) && start <= mid < end
    requires |slice| == end - start && multiset(slice) == Range(order, start, end)
    requires forall i | 0 <= i < mid - start :: ByCoordinate(points, dim)(slice[i], slice[mid - start])
    requires forall i | mid - start < i < |slice| :: ByCoordinate(points, dim)(slice[mid - start], slice[i])
    ensures var order' := order[..start] + slice + order[end..];
      && |order'| == |order| && order'[..start] == order[..start] && order'[end..] == order[end..]
      && Range(order', start, end) == Range(order, start, end)
      && Names(points, order', start, end)
      && Below(points, k, order', start, mid, dim, points[order'[mid]][dim])
      && Above(points, k, order', mid, end, dim, points[order'[mid]][dim])
  {
    var order' := order[..start] + slice + order[end..];
    assert order'[start..end] == slice;
    assert Range(order', start, end) == Range(order, start, end);
    BoundsSurvive(points, k, order, order', start, end, dim, 0.0);
    var value := points[order'[mid]][dim];
    assert order'[mid] == slice[mid - start];
    forall i | start <= i < end
      ensures i < mid ==> points[order'[i]][dim] <= value
      ensures i >= mid ==> value <= points[order'[i]][dim]
    {
      assert order'[i] == slice[i - start];
      if i < mid {
        assert ByCoordinate(points, dim)(slice[i - start], slice[mid - start]);
      } else if i > mid {
        assert ByCoordinate(points, dim)(slice[mid - start], slice[i - start]);
      }
    }
  }

  /** How far order[start..end] spreads along one dimension. */
  function Spread(points: seq<Vec>, order: seq<nat>, start: nat, end: nat, dim: nat): real
    requires start < end <= |order|
  {
    Highest(points, order, start, end, dim) - Lowest(points, order, start, end, dim)
  }

  function Highest(points: seq<Vec>, order: seq<nat>, start: nat, end: nat, dim: nat): real
    requires start < end <= |order|
    decreases end - start
  {
    var x := Coordinate(points, order[end - 1], dim);
    if end - 1 == start then x
    else var h := Highest(points, order, start, end - 1, dim); if h < x then x else h
  }

  function Lowest(points: seq<Vec>, order: seq<nat>, start: nat, end: nat, dim: nat): real
    requires start < end <= |order|
    decreases end - start
  {
    var x := Coordinate(points, order[end - 1], dim);
    if end - 1 == start then x
    else var l := Lowest(points, order, start, end - 1, dim); if x < l then x else l
  }

  class KdTree {
    const points: seq<Vec>
    const k: nat
    var order: seq<nat>
    var nodes: seq<Node>

    /** A tree over every point, each named once. */
    ghost predicate Valid()
      reads this
    {
      && Cloud(points, k)
      && multiset(order) == multiset(seq(|points|, i => i))
      && Names(points, order, 0, |order|)
      && Covers(points, k, order, nodes, 0, 0, 0, |order|)
    }

    constructor Build(points: seq<Vec>, k: nat)
      requires Cloud(points, k)
      ensures Valid()
      ensures this.points == points && this.k == k
    {
      this.points := points;
      this.k := k;
      this.order := seq(|points|, i requires 0 <= i => i);
      this.nodes := [];
      new;
      ghost var order0 := order;
      assert order0 == seq(|points|, i => i) && order0[0..|points|] == order0;
      var root := SplitRange(0, |order|);
      assert order[0..|order|] == order;
      assert multiset(order) == multiset(seq(|points|, i => i));
    }

    /** The dimension order[start..end] spreads over most; the last of equals. */
    method WidestDimension(start: nat, end: nat) returns (dim: nat)
      requires k >= 1 && start < end <= |order|
      ensures dim < k
      ensures forall i | 0 <= i < k :: Spread(points, order, start, end, i) <= Spread(points, order, start, end, dim)
      ensures forall i | dim < i < k :: Spread(points, order, start, end, i) < Spread(points, order, start, end, dim)
    {
      dim := 0;
      for d := 1 to k
        invariant dim < d
        invariant forall i | 0 <= i < d :: Spread(points, order, start, end, i) <= Spread(points, order, start, end, dim)
        invariant forall i | dim < i < d :: Spread(points, order, start, end, i) < Spread(points, order, start, end, dim)
      {
        if Spread(points, order, start, end, d) >= Spread(points, order, start, end, dim) {
          dim := d;
        }
      }
    }

    /** Reorders order[start..end] around its median along `dim`; returns the
        coordinate that separates the two halves. */
    method PartitionAtMedian(start: nat, mid: nat, end: nat, dim: nat) returns (value: real)
      requires Cloud(points, k) && dim < k && Names(points, order, start, end) && start <= mid < end
      modifies this`order
      ensures |order| == |old(order)| && order[..start] == old(order)[..start] && order[end..] == old(order)[end..]
      ensures Range(order, start, end) == Range(old(order), start, end)
      ensures Names(points, order, start, end)
      ensures Below(points, k, order, start, mid, dim, value) && Above(points, k, order, mid, end, dim, value)
    {
      var slice := Sorting.SelectNth(order[start..end], mid - start, ByCoordinate(points, dim));
      SlicePlaced(points, k, order, slice, start, mid, end, dim);
      order := order[..start] + slice + order[end..];
      value := points[order[mid]][dim];
    }

    /** `split`: builds the subtree over order[start..end]; returns its node. */
    method SplitRange(start: nat, end: nat) returns (at: nat)
      requires Cloud(points, k) && Names(points, order, start, end)
      modifies this
      ensures at == |old(nodes)| < |nodes| && nodes[..at] == old(nodes)
      ensures |order| == |old(order)| && order[..start] == old(order)[..start] && order[end..] == old(order)[end..]
      ensures Range(order, start, end) == Range(old(order), start, end)
      ensures Names(points, order, start, end)
      ensures Covers(points, k, order, nodes, at, at, start, end)
      decreases end - start
    {
      hide Below, Above;
      at := |nodes|;
      if end - start <= LEAF {
        nodes := nodes + [Leaf(start, end)];
        return;
      }
      var dim := WidestDimension(start, end);
      var mid := start + (end - start) / 2;
      var value := PartitionAtMedian(start, mid, end, dim);
      ghost var order0 := order;
      nodes := nodes + [Leaf(start, end)];
      var left := SplitRange(start, mid);
      ghost var order1, nodes1 := order, nodes;
      OutsideUnchanged(order0, order1, points, start, mid, end);
      var right := SplitRange(mid, end);
      JoinSubtrees(points, k, order0, order1, order, nodes1, nodes, at, left, right, start, mid, end, dim, value);
      ghost var nodes2 := nodes;
      nodes := nodes[at := Split(dim, value, left, right)];
      assert nodes[..at] == nodes2[..right][..left][..at];
      assert order[..start] == order[..mid][..start] == order1[..mid][..start];
      assert order1[end..] == order1[mid..][end - mid..];
    }

    /** r is `best` or better, and no point of order[start..end] other than
        `skip` is nearer to q than r. */
    ghost predicate Improves(q: Vec, skip: nat, best: Option<Found>, r: Option<Found>, start: nat, end: nat)
      requires Cloud(points, k) && |q| == k && Names(points, order, start, end)
      reads this
    {
      && (best.Some? ==> r.Some? && r.value.dist2 <= best.value.dist2)
      && (r == best || FoundIn(q, skip, r, start, end))
      && (forall i | start <= i < end && order[i] != skip ::
            r.Some? && r.value.dist2 <= Dist2(q, points[order[i]]))
    }

    ghost predicate FoundIn(q: Vec, skip: nat, r: Option<Found>, start: nat, end: nat)
      requires Cloud(points, k) && |q| == k && Names(points, order, start, end)
      reads this
    {
      exists i | start <= i < end ::
        order[i] != skip && r == Some(Found(order[i], Dist2(q, points[order[i]])))
    }

    /** Searching one part of a range after the other searches the range. */
    lemma ImprovesJoin(q: Vec, skip: nat, best: Option<Found>, near: Option<Found>, r: Option<Found>,
                       a: nat, b: nat, c: nat, d: nat, start: nat, end: nat)
      requires Cloud(points, k) && |q| == k && Names(points, order, start, end)
      requires (start == a <= b == c <= d == end) || (start == c <= d == a <= b == end)
      requires Improves(q, skip, best, near, a, b) && Improves(q, skip, near, r, c, d)
      ensures Improves(q, skip, best, r, start, end)
    {
      hide Dist2;
    }

    /** A range whose every point is at least as far as r needs no search. */
    lemma Pruned(q: Vec, skip: nat, r: Option<Found>, bound: real, start: nat, end: nat)
      requires Cloud(points, k) && |q| == k && Names(points, order, start, end)
      requires r.Some? && r.value.dist2 <= bound
      requires forall i | start <= i < end :: bound <= Dist2(q, points[order[i]])
      ensures Improves(q, skip, r, r, start, end)
    {
      hide Dist2;
    }

    method ScanLeaf(q: Vec, skip: nat, best: Option<Found>, start: nat, end: nat) returns (r: Option<Found>)
      requires Cloud(points, k) && |q| == k && Names(points, order, start, end)
      ensures Improves(q, skip, best, r, start, end)
    {
      hide Dist2;
      r := best;
      for i := start to end
        invariant Improves(q, skip, best, r, start, i)
      {
        var p := order[i];
        if p != skip {
          var d2 := Dist2(q, points[p]);
          if r.None? || d2 < r.value.dist2 {
            r := Some(Found(p, d2));
            assert FoundIn(q, skip, r, start, i + 1);
          }
        }
      }
    }

    /** `nearest_in`: improves `best` with the points under `node`. */
    method NearestIn(node: nat, q: Vec, skip: nat, best: Option<Found>, ghost start: nat, ghost end: nat)
      returns (r: Option<Found>)
      requires Cloud(points, k) && |q| == k && Names(points, order, start, end)
      requires Covers(points, k, order, nodes, 0, node, start, end)
      ensures Improves(q, skip, best, r, start, end)
      decreases end - start
    {
      hide Dist2, Improves;
      match nodes[node]
      case Leaf(s, e) =>
        r := ScanLeaf(q, skip, best, s, e);
      case Split(dim, value, left, right) =>
        var diff := q[dim] - value;
        ghost var mid := start + (end - start) / 2;
        ghost var near;
        if diff < 0.0 {
          r := NearestIn(left, q, skip, best, start, mid);
          near := r;
          if r.None? || diff * diff < r.value.dist2 {
            r := NearestIn(right, q, skip, r, mid, end);
          } else {
            AcrossThePlane(points, k, order, mid, end, dim, value, q);
            Pruned(q, skip, r, diff * diff, mid, end);
          }
          ImprovesJoin(q, skip, best, near, r, start, mid, mid, end, start, end);
        } else {
          r := NearestIn(right, q, skip, best, mid, end);
          near := r;
          if r.None? || diff * diff < r.value.dist2 {
            r := NearestIn(left, q, skip, r, start, mid);
          } else {
            AcrossThePlane(points, k, order, start, mid, dim, value, q);
            Pruned(q, skip, r, diff * diff, start, mid);
          }
          ImprovesJoin(q, skip, best, near, r, mid, end, start, mid, start, end);
        }
    }

    /** `nearest_excluding`: a point of least distance other than `skip`, and
        none only if there is no other point. */
    method NearestExcluding(q: Vec, skip: nat) returns (r: Option<nat>)
      requires Valid() && |q| == k
      ensures r.None? <==> |points| == 0 || (|points| == 1 && skip == 0)
      ensures r.Some? ==> r.value < |points| && r.value != skip
      ensures r.Some? ==> forall p | 0 <= p < |points| && p != skip :: Dist2(q, points[r.value]) <= Dist2(q, points[p])
    {
      hide Dist2;
      var best := NearestIn(0, q, skip, None, 0, |order|);
      OrderNamesAll(order, |points|);
      forall p | 0 <= p < |points| && p != skip
        ensures best.Some? && best.value.dist2 <= Dist2(q, points[p])
      {
        assert p in order;
      }
      ghost var other := if skip == 0 then 1 else 0;
      assert other < |points| ==> best.Some? && best.value.dist2 <= Dist2(q, points[other]);
      r := if best.Some? then Some(best.value.point) else None;
    }

    lemma NothingYet(q: Vec, r2: real, start: nat)
      requires Names(points, order, start, start)
      ensures Closer(q, r2, start, start) == []
    {
    }

    lemma CloserNext(q: Vec, r2: real, start: nat, i: nat)
      requires start <= i && Names(points, order, start, i + 1)
      ensures multiset(Closer(q, r2, start, i + 1)) ==
        multiset(Closer(q, r2, start, i)) + if Dist2(q, points[order[i]]) <= r2 then multiset{order[i]} else multiset{}
    {
      hide Dist2;
    }

    method ScanLeafWithin(q: Vec, r2: real, out: seq<nat>, start: nat, end: nat) returns (r: seq<nat>)
      requires Cloud(points, k) && |q| == k && Names(points, order, start, end)
      ensures multiset(r) == multiset(out) + multiset(Closer(q, r2, start, end))
    {
      hide Dist2, Closer;
      r := out;
      NothingYet(q, r2, start);
      for i := start to end
        invariant multiset(r) == multiset(out) + multiset(Closer(q, r2, start, i))
      {
        CloserNext(q, r2, start, i);
        if Dist2(q, points[order[i]]) <= r2 {
          r := r + [order[i]];
        }
      }
    }

    /** `within_in`: appends the points under `node` within squared distance r2. */
    method WithinIn(node: nat, q: Vec, r2: real, out: seq<nat>, ghost start: nat, ghost end: nat)
      returns (r: seq<nat>)
      requires Cloud(points, k) && |q| == k && Names(points, order, start, end)
      requires Covers(points, k, order, nodes, 0, node, start, end)
      ensures multiset(r) == multiset(out) + multiset(Closer(q, r2, start, end))
      decreases end - start
    {
      hide Dist2, Closer, Below, Above;
      match nodes[node]
      case Leaf(s, e) =>
        r := ScanLeafWithin(q, r2, out, s, e);
      case Split(dim, value, left, right) =>
        var diff := q[dim] - value;
        ghost var mid := start + (end - start) / 2;
        CloserSplits(q, r2, start, mid, end);
        if diff < 0.0 {
          r := WithinIn(left, q, r2, out, start, mid);
          if diff * diff <= r2 {
            r := WithinIn(right, q, r2, r, mid, end);
          } else {
            AcrossThePlane(points, k, order, mid, end, dim, value, q);
            NoneCloser(q, r2, mid, end);
          }
        } else {
          r := WithinIn(right, q, r2, out, mid, end);
          if diff * diff <= r2 {
            r := WithinIn(left, q, r2, r, start, mid);
          } else {
            AcrossThePlane(points, k, order, start, mid, dim, value, q);
            NoneCloser(q, r2, start, mid);
          }
        }
    }

    /** The points of order[start..end] within squared distance r2, in order. */
    ghost function Closer(q: Vec, r2: real, start: nat, end: nat): seq<nat>
      requires Names(points, order, start, end)
      reads this
      decreases end - start
    {
      if start == end then []
      else Closer(q, r2, start, end - 1) + if Dist2(q, points[order[end - 1]]) <= r2 then [order[end - 1]] else []
    }

    lemma {:induction false} CloserSplits(q: Vec, r2: real, start: nat, mid: nat, end: nat)
      requires Names(points, order, start, end) && start <= mid <= end
      ensures Closer(q, r2, start, end) == Closer(q, r2, start, mid) + Closer(q, r2, mid, end)
      decreases end - mid
    {
      hide Dist2;
      if mid < end {
        CloserSplits(q, r2, start, mid, end - 1);
      }
    }

    lemma {:induction false} NoneCloser(q: Vec, r2: real, start: nat, end: nat)
      requires Names(points, order, start, end)
      requires forall i | start <= i < end :: r2 < Dist2(q, points[order[i]])
      ensures Closer(q, r2, start, end) == []
      decreases end - start
    {
      hide Dist2;
      if start < end {
        NoneCloser(q, r2, start, end - 1);
      }
    }

    /** How often a point is named in a range says how often it is found. */
    lemma {:induction false} CloserCounts(q: Vec, r2: real, start: nat, end: nat, p: nat)
      requires Names(points, order, start, end) && p < |points|
      ensures multiset(Closer(q, r2, start, end))[p]
              == if Dist2(q, points[p]) <= r2 then Range(order, start, end)[p] else 0
      decreases end - start
    {
      hide Dist2;
      if start < end {
        CloserCounts(q, r2, start, end - 1, p);
        assert order[start..end] == order[start..end - 1] + [order[end - 1]];
      }
    }

    /** `within`: appends exactly the points within squared distance r2 of q,
        each once. */
    method Within(q: Vec, r2: real, out: seq<nat>) returns (r: seq<nat>)
      requires Valid() && |q| == k
      ensures forall p | 0 <= p < |points| ::
                multiset(r)[p] == multiset(out)[p] + if Dist2(q, points[p]) <= r2 then 1 else 0
      ensures forall p: nat | p >= |points| :: multiset(r)[p] == multiset(out)[p]
    {
      hide Dist2;
      r := WithinIn(0, q, r2, out, 0, |order|);
      forall p | 0 <= p < |points|
        ensures multiset(Closer(q, r2, 0, |order|))[p] == if Dist2(q, points[p]) <= r2 then 1 else 0
      {
        CloserCounts(q, r2, 0, |order|, p);
        OrderCounts(order, |points|, p);
        assert order[0..|order|] == order;
      }
      CloserAreNames(q, r2, 0, |order|);
      forall p: nat | p >= |points|
        ensures multiset(Closer(q, r2, 0, |order|))[p] == 0
      {
        assert p !in Closer(q, r2, 0, |order|);
      }
    }

    lemma {:induction false} CloserAreNames(q: Vec, r2: real, start: nat, end: nat)
      requires Names(points, order, start, end)
      ensures forall p | p in Closer(q, r2, start, end) :: p < |points|
      decreases end - start
    {
      hide Dist2;
      if start < end {
        CloserAreNames(q, r2, start, end - 1);
      }
    }
  }

  lemma {:induction false} CountUp(n: nat, p: nat)
    ensures multiset(seq(n, i => i))[p] == if p < n then 1 else 0
  {
    if n > 0 {
      CountUp(n - 1, p);
      assert seq(n, i => i) == seq(n - 1, i => i) + [n - 1];
    }
  }

  lemma OrderCounts(order: seq<nat>, n: nat, p: nat)
    requires multiset(order) == multiset(seq(n, i => i))
    ensures multiset(order)[p] == if p < n then 1 else 0
  {
    CountUp(n, p);
  }

  lemma OrderNamesAll(order: seq<nat>, n: nat)
    requires multiset(order) == multiset(seq(n, i => i))
    ensures forall p :: p in order <==> 0 <= p < n
  {
    forall p: nat
      ensures p in order <==> 0 <= p < n
    {
      OrderCounts(order, n, p);
      assert p in order <==> multiset(order)[p] > 0;
    }
  }

  lemma OutsideUnchanged(order: seq<nat>, order': seq<nat>, points: seq<Vec>, start: nat, mid: nat, end: nat)
    requires |order| == |order'| && start <= mid <= end && Names(points, order, start, end)
    requires order'[mid..] == order[mid..]
    ensures Names(points, order', mid, end)
  {
    SliceAt(order', order, mid);
  }
}
