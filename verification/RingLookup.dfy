/** Lookups on the ring: the search, the clockwise walk to another node, and how lookups move when nodes come and go. */
module RingLookup {
  import opened Common
  import opened HashRing

  // ---- The clockwise walk ----

  /** Where a lookup of `x` starts: the first position at or past it, or the first of all. */
  predicate IsStart(points: seq<u32>, x: u32, idx: nat) {
    && idx < |points|
    && ((points[idx] >= x && forall k :: 0 <= k < idx ==> points[k] < x)
        || (idx == 0 && forall k :: 0 <= k < |points| ==> points[k] < x))
  }

  function At(points: seq<u32>, idx: nat, i: nat): u32
    requires idx < |points| && i < |points|
  {
    points[(idx + i) % |points|]
  }

  lemma Wrapped(idx: nat, i: nat, n: nat)
    requires idx < n && i < n
    ensures (idx + i) % n == if idx + i < n then idx + i else idx + i - n
  {
  }

  /** The walk goes strictly away from `x`. */
  lemma WalkGoesAway(points: seq<u32>, x: u32, idx: nat, i: nat, j: nat)
    requires StrictlySorted(points) && IsStart(points, x, idx) && i < j < |points|
    ensures Dist(x, At(points, idx, i)) < Dist(x, At(points, idx, j))
  {
    Wrapped(idx, i, |points|);
    Wrapped(idx, j, |points|);
    var a, b := (idx + i) % |points|, (idx + j) % |points|;
    if points[idx] >= x {
      assert a >= idx ==> points[a] >= points[idx];
      assert b >= idx ==> points[b] >= points[idx];
    }
  }

  /** The walk reaches every position. */
  lemma WalkReaches(points: seq<u32>, idx: nat, k: nat) returns (j: nat)
    requires idx < |points| && k < |points|
    ensures j < |points| && At(points, idx, j) == points[k]
  {
    j := if k >= idx then k - idx else k + |points| - idx;
    Wrapped(idx, j, |points|);
  }

  lemma OwnerAt(hash: Hash, v: nat, r: Ring, k: nat) returns (i: nat)
    requires Consistent(hash, v, r) && k < |r.points|
    ensures r.points[k] in r.owner && r.owner[r.points[k]] in r.nodes
    ensures i < v && Point(hash, r.owner[r.points[k]], i) == r.points[k]
  {
    var h := r.points[k];
    assert h in r.points;
    i :| 0 <= i < v && Points(hash, v, r.owner[h])[i] == h;
  }

  lemma PositionOf(hash: Hash, v: nat, r: Ring, n: string, i: nat) returns (k: nat)
    requires Consistent(hash, v, r) && n in r.nodes && i < v
    ensures k < |r.points| && r.points[k] == Point(hash, n, i)
    ensures r.points[k] in r.owner && r.owner[r.points[k]] == n
  {
    assert Point(hash, n, i) in r.owner && r.owner[Point(hash, n, i)] == n;
    k :| 0 <= k < |r.points| && r.points[k] == Point(hash, n, i);
  }

  /** The first position met that belongs to one of `some` belongs to the nearest of them. */
  lemma WalkFindsNearest(hash: Hash, v: nat, r: Ring, x: u32, idx: nat, some: set<string>, i: nat)
    requires v > 0 && Consistent(hash, v, r) && some <= r.nodes
    requires idx < |r.points| && i < |r.points| && IsStart(r.points, x, idx)
    requires OwnerOf(r.owner, At(r.points, idx, i)) in some
    requires forall j :: 0 <= j < i ==> OwnerOf(r.owner, At(r.points, idx, j)) !in some
    ensures IsNearest(hash, v, some, x, OwnerOf(r.owner, At(r.points, idx, i)))
  {
    hide Consistent, IsStart, NodeDist, Dist;
    var h := At(r.points, idx, i);
    var k := OwnerAt(hash, v, r, (idx + i) % |r.points|);
    var n := r.owner[h];
    NodeDistIsMin(hash, v, n, x);
    forall m | m in some ensures NodeDist(hash, v, n, x) <= NodeDist(hash, v, m, x) {
      NoCloser(hash, v, r, x, idx, some, i, m);
    }
  }

  lemma NoCloser(hash: Hash, v: nat, r: Ring, x: u32, idx: nat, some: set<string>, i: nat, m: string)
    requires v > 0 && Consistent(hash, v, r) && some <= r.nodes && m in some
    requires idx < |r.points| && i < |r.points| && IsStart(r.points, x, idx)
    requires forall j :: 0 <= j < i ==> OwnerOf(r.owner, At(r.points, idx, j)) !in some
    ensures Dist(x, At(r.points, idx, i)) <= NodeDist(hash, v, m, x)
  {
    hide StrictlySorted, IsStart, NodeDist, Dist;
    assert StrictlySorted(r.points);
    hide Consistent;
    NodeDistIsMin(hash, v, m, x);
    var l :| 0 <= l < v && NodeDist(hash, v, m, x) == Dist(x, Point(hash, m, l));
    var p := PositionOf(hash, v, r, m, l);
    var j := WalkReaches(r.points, idx, p);
    if i < j {
      WalkGoesAway(r.points, x, idx, i, j);
    }
  }

  /** If nobody else is met, there is nobody else. */
  lemma WalkFindsEverybody(hash: Hash, v: nat, r: Ring, idx: nat, n: string)
    requires v > 0 && Consistent(hash, v, r) && idx < |r.points|
    requires forall j :: 0 <= j < |r.points| ==> OwnerOf(r.owner, At(r.points, idx, j)) == n
    ensures r.nodes - {n} == {}
  {
    hide Consistent;
    forall m | m in r.nodes ensures m == n {
      var p := PositionOf(hash, v, r, m, 0);
      var j := WalkReaches(r.points, idx, p);
    }
  }

  // ---- Lookups ----

  function FirstFrom(points: seq<u32>, x: u32, k: nat): (i: nat)
    requires k <= |points|
    ensures k <= i <= |points| && (i < |points| ==> points[i] >= x) && forall j :: k <= j < i ==> points[j] < x
    decreases |points| - k
  {
    if k == |points| || points[k] >= x then k else FirstFrom(points, x, k + 1)
  }

  /** The first position at or past `x`, wrapping to the first of all. */
  function StartIndex(points: seq<u32>, x: u32): (idx: nat)
    requires points != []
    ensures IsStart(points, x, idx)
  {
    if FirstFrom(points, x, 0) == |points| then 0 else FirstFrom(points, x, 0)
  }

  /** The owner of the first position from the `i`-th on that is not `p`, `""` when there is none. */
  function NextOther(r: Ring, idx: nat, i: nat, p: string): string
    requires idx < |r.points|
    decreases |r.points| - i
  {
    if i >= |r.points| then ""
    else if OwnerOf(r.owner, At(r.points, idx, i)) != p then OwnerOf(r.owner, At(r.points, idx, i))
    else NextOther(r, idx, i + 1, p)
  }

  /** Primary and replica of a key, on any ring. */
  function LookupPair(r: Ring, x: u32): (string, string) {
    if r.points == [] then ("", "") else
    var idx := StartIndex(r.points, x);
    var p := OwnerOf(r.owner, r.points[idx]);
    (p, NextOther(r, idx, 1, p))
  }

  lemma StartUnique(points: seq<u32>, x: u32, idx: nat)
    requires IsStart(points, x, idx)
    ensures StartIndex(points, x) == idx
  {
  }

  /** Where the walk from the `i`-th position stops. */
  lemma {:induction false} WalkStops(r: Ring, idx: nat, i: nat, p: string) returns (k: nat)
    requires idx < |r.points| && i <= |r.points|
    ensures i <= k <= |r.points| && forall j :: i <= j < k ==> OwnerOf(r.owner, At(r.points, idx, j)) == p
    ensures NextOther(r, idx, i, p) == if k < |r.points| then OwnerOf(r.owner, At(r.points, idx, k)) else ""
    ensures k < |r.points| ==> OwnerOf(r.owner, At(r.points, idx, k)) != p
    decreases |r.points| - i
  {
    if i == |r.points| || OwnerOf(r.owner, At(r.points, idx, i)) != p {
      k := i;
    } else {
      k := WalkStops(r, idx, i + 1, p);
    }
  }

  /**
   * On any ring, collisions or not: the primary owns the first position at or past the key, the
   * replica is the first other owner on the walk round from there, and missing when there is none.
   */
  lemma LookupWalks(r: Ring, x: u32, idx: nat) returns (k: nat)
    requires IsStart(r.points, x, idx)
    ensures LookupPair(r, x).0 == OwnerOf(r.owner, r.points[idx])
    ensures 1 <= k <= |r.points| && forall j :: 1 <= j < k ==> OwnerOf(r.owner, At(r.points, idx, j)) == LookupPair(r, x).0
    ensures if k < |r.points| then LookupPair(r, x).1 == OwnerOf(r.owner, At(r.points, idx, k)) != LookupPair(r, x).0
            else LookupPair(r, x).1 == ""
  {
    StartUnique(r.points, x, idx);
    k := WalkStops(r, idx, 1, LookupPair(r, x).0);
  }

  lemma EmptyRing(hash: Hash, v: nat, r: Ring)
    requires v > 0 && Consistent(hash, v, r) && r.points == []
    ensures r.nodes == {}
  {
    if n :| n in r.nodes {
      var _ := PositionOf(hash, v, r, n, 0);
    }
  }

  lemma StartsSorted(hash: Hash, v: nat, r: Ring)
    requires Consistent(hash, v, r)
    ensures Sorted(r.points)
  {
  }

  lemma PrimaryFound(hash: Hash, v: nat, r: Ring, x: u32, idx: nat)
    requires v > 0 && Consistent(hash, v, r) && idx < |r.points| && (Sorted(r.points) ==> IsStart(r.points, x, idx))
    ensures IsStart(r.points, x, idx)
    ensures PrimaryAt(hash, v, r.nodes, x) == OwnerOf(r.owner, r.points[idx])
  {
    hide Consistent, IsStart, Sorted, IsNearest, NodesApart;
    StartsSorted(hash, v, r);
    Wrapped(idx, 0, |r.points|);
    var _ := OwnerAt(hash, v, r, idx);
    WalkFindsNearest(hash, v, r, x, idx, r.nodes, 0);
    ConsistentApart(hash, v, r);
    NearestUnique(hash, v, r.nodes, x, r.owner[r.points[idx]]);
  }

  lemma ReplicaFound(hash: Hash, v: nat, r: Ring, x: u32, idx: nat, i: nat)
    requires v > 0 && Consistent(hash, v, r) && idx < |r.points| && IsStart(r.points, x, idx) && 1 <= i < |r.points|
    requires var p := OwnerOf(r.owner, r.points[idx]);
             && PrimaryAt(hash, v, r.nodes, x) == p
             && OwnerOf(r.owner, At(r.points, idx, i)) != p
             && forall j :: 1 <= j < i ==> OwnerOf(r.owner, At(r.points, idx, j)) == p
    ensures ReplicaAt(hash, v, r.nodes, x) == OwnerOf(r.owner, At(r.points, idx, i))
  {
    hide Consistent, IsStart, IsNearest, NodesApart, At;
    var p := OwnerOf(r.owner, r.points[idx]);
    AtStart(r.points, idx);
    AtOwner(hash, v, r, idx, i);
    WalkFindsNearest(hash, v, r, x, idx, r.nodes - {p}, i);
    ConsistentApart(hash, v, r);
    SubsetApart(hash, v, r.nodes - {p}, r.nodes);
    NearestUnique(hash, v, r.nodes - {p}, x, OwnerOf(r.owner, At(r.points, idx, i)));
  }

  lemma AtStart(points: seq<u32>, idx: nat)
    requires idx < |points|
    ensures At(points, idx, 0) == points[idx]
  {
    Wrapped(idx, 0, |points|);
  }

  lemma AtOwner(hash: Hash, v: nat, r: Ring, idx: nat, i: nat)
    requires Consistent(hash, v, r) && idx < |r.points| && i < |r.points|
    ensures OwnerOf(r.owner, At(r.points, idx, i)) in r.nodes
  {
    var _ := OwnerAt(hash, v, r, (idx + i) % |r.points|);
  }

  lemma ReplicaMissing(hash: Hash, v: nat, r: Ring, x: u32, idx: nat)
    requires v > 0 && Consistent(hash, v, r) && idx < |r.points|
    requires var p := OwnerOf(r.owner, r.points[idx]);
             && PrimaryAt(hash, v, r.nodes, x) == p
             && forall j :: 1 <= j < |r.points| ==> OwnerOf(r.owner, At(r.points, idx, j)) == p
    ensures ReplicaAt(hash, v, r.nodes, x) == ""
  {
    hide Consistent, IsNearest;
    Wrapped(idx, 0, |r.points|);
    WalkFindsEverybody(hash, v, r, idx, OwnerOf(r.owner, r.points[idx]));
  }

  /** On a consistent ring a lookup finds the nearest node clockwise and the nearest other one. */
  lemma LookupIsNearest(hash: Hash, v: nat, r: Ring, x: u32)
    requires v > 0 && Consistent(hash, v, r)
    ensures LookupPair(r, x) == (PrimaryAt(hash, v, r.nodes, x), ReplicaAt(hash, v, r.nodes, x))
  {
    hide Consistent, NodeDist, IsStart, At;
    if r.points == [] {
      EmptyRing(hash, v, r);
    } else {
      var idx := StartIndex(r.points, x);
      var p := OwnerOf(r.owner, r.points[idx]);
      PrimaryFound(hash, v, r, x, idx);
      var k := WalkStops(r, idx, 1, p);
      if k < |r.points| {
        ReplicaFound(hash, v, r, x, idx, k);
      } else {
        ReplicaMissing(hash, v, r, x, idx);
      }
    }
  }

  // ---- How lookups move ----

  /** Successor theorem: on the ring without a key's primary, the old replica is the primary. */
  lemma ReplicaSucceedsPrimary(hash: Hash, v: nat, r: Ring, x: u32)
    requires v > 0 && Consistent(hash, v, r) && |r.nodes| >= 2 && "" !in r.nodes
    ensures var (p, q) := LookupPair(r, x);
            p in r.nodes && q in r.nodes && p != q && LookupPair(Removed(r, p), x).0 == q
  {
    hide Consistent, LookupPair, Nearest;
    var p := LookupPair(r, x).0;
    LookupIsNearest(hash, v, r, x);
    PairOfTwo(hash, v, r.nodes, x);
    RemoveKeepsConsistent(hash, v, r, p);
    LookupIsNearest(hash, v, Removed(r, p), x);
  }

  /** Removing a node moves only the keys it was primary for; a pair without it stays as it is. */
  lemma RemovalMovesOnlyItsOwn(hash: Hash, v: nat, r: Ring, x: u32, n: string)
    requires v > 0 && Consistent(hash, v, r) && n in r.nodes && n != ""
    ensures LookupPair(r, x).0 != n ==> LookupPair(Removed(r, n), x).0 == LookupPair(r, x).0
    ensures n !in {LookupPair(r, x).0, LookupPair(r, x).1} ==> LookupPair(Removed(r, n), x) == LookupPair(r, x)
  {
    hide Consistent, LookupPair, PrimaryAt, ReplicaAt;
    LookupIsNearest(hash, v, r, x);
    ConsistentApart(hash, v, r);
    NearestAfterRemoval(hash, v, r.nodes, x, n);
    RemoveKeepsConsistent(hash, v, r, n);
    LookupIsNearest(hash, v, Removed(r, n), x);
  }

  /** Adding a node moves a key only to that node; a pair it does not enter is the old pair. */
  lemma AdditionMovesOnlyToIt(hash: Hash, v: nat, r: Ring, x: u32, n: string)
    requires v > 0 && Consistent(hash, v, r) && n !in r.nodes && FreshPoints(hash, v, r, n)
    ensures var (p, q) := LookupPair(Added(hash, v, r, n), x);
            p in {n, LookupPair(r, x).0} && (n !in {p, q} ==> (p, q) == LookupPair(r, x))
  {
    hide Consistent, LookupPair, PrimaryAt, ReplicaAt, FreshPoints;
    LookupIsNearest(hash, v, r, x);
    AddKeepsConsistent(hash, v, r, n);
    ConsistentApart(hash, v, Added(hash, v, r, n));
    NearestAfterAddition(hash, v, r.nodes, x, n);
    LookupIsNearest(hash, v, Added(hash, v, r, n), x);
  }
}
