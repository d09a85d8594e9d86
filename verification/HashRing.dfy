/** The consistent-hash ring: what it assigns, and how that changes as nodes come and go. */
module HashRing {
  import opened Bytes
  import opened Common

  /** The ring's hash is used only as a function from labels to 32-bit positions. */
  type Hash = string -> u32

  function Digit(d: nat): char
    requires d < 10
  {
    "0123456789"[d]
  }

  function Decimal(n: nat): string {
    if n < 10 then [Digit(n)] else Decimal(n / 10) + [Digit(n % 10)]
  }

  /** The label of virtual node `i` of a node. */
  function Label(node: string, i: nat): string {
    node + "#" + Decimal(i)
  }

  function PartitionLabel(pid: nat): string {
    "partition-" + Decimal(pid)
  }

  // ---- What a label spells out ----

  function DigitValue(c: char): nat {
    if '0' <= c <= '9' then (c - '0') as int else 0
  }

  predicate IsNumeral(s: string) {
    s != [] && forall i :: 0 <= i < |s| ==> '0' <= s[i] <= '9'
  }

  /** Digits read from the left. */
  function NumeralValue(s: string): nat {
    if s == [] then 0 else 10 * NumeralValue(s[..|s| - 1]) + DigitValue(s[|s| - 1])
  }

  lemma DigitReads(d: nat)
    requires d < 10
    ensures '0' <= Digit(d) <= '9' && DigitValue(Digit(d)) == d
  {
  }

  lemma {:induction false} DecimalReads(n: nat)
    ensures IsNumeral(Decimal(n)) && NumeralValue(Decimal(n)) == n
    ensures Decimal(n)[0] == '0' ==> n == 0
  {
    DigitReads(n % 10);
    if n < 10 {
      DigitReads(n);
      assert [Digit(n)][..0] == [];
    } else {
      DecimalReads(n / 10);
      assert Decimal(n)[..|Decimal(n)| - 1] == Decimal(n / 10);
    }
  }

  /** The label of a partition is "partition-" and the digits of its number, so no two share one. */
  lemma PartitionLabelReads(pid: nat, other: nat)
    ensures "partition-" <= PartitionLabel(pid)
    ensures var digits := PartitionLabel(pid)[10..]; IsNumeral(digits) && NumeralValue(digits) == pid
    ensures PartitionLabel(pid) == PartitionLabel(other) <==> pid == other
  {
    DecimalReads(pid);
    DecimalReads(other);
    assert PartitionLabel(pid)[10..] == Decimal(pid) && PartitionLabel(other)[10..] == Decimal(other);
  }

  /** The position of the last '#', the length when there is none. */
  function LastMark(s: string): (k: nat)
    ensures k <= |s|
  {
    if s == [] then 0
    else if s[|s| - 1] == '#' then |s| - 1
    else var k := LastMark(s[..|s| - 1]); if k == |s| - 1 then |s| else k
  }

  lemma {:induction false} MarkBeforeDigits(node: string, digits: string)
    requires forall i :: 0 <= i < |digits| ==> digits[i] != '#'
    ensures LastMark(node + "#" + digits) == |node|
  {
    var s := node + "#" + digits;
    if digits != [] {
      var init := digits[..|digits| - 1];
      MarkBeforeDigits(node, init);
      assert s[..|s| - 1] == node + "#" + init;
      assert s[|s| - 1] == digits[|digits| - 1];
    }
  }

  /**
   * The label of a virtual node is the node's address, a '#' and the digits of its index: both read
   * back from around the last '#'.
   */
  lemma LabelReads(node: string, i: nat)
    ensures var s := Label(node, i); var k := LastMark(s);
            && k < |s| && s[k] == '#' && s[..k] == node
            && IsNumeral(s[k + 1..]) && NumeralValue(s[k + 1..]) == i
  {
    DecimalReads(i);
    hide Decimal, NumeralValue;
    MarkBeforeDigits(node, Decimal(i));
    var s := Label(node, i);
    assert s[..|node|] == node && s[|node| + 1..] == Decimal(i);
  }

  /** So no two virtual nodes share a label. */
  lemma LabelsDiffer(node: string, i: nat, other: string, j: nat)
    ensures Label(node, i) == Label(other, j) <==> node == other && i == j
  {
    hide Label, LastMark, NumeralValue;
    LabelReads(node, i);
    LabelReads(other, j);
  }

  function Point(hash: Hash, node: string, i: nat): u32 {
    hash(Label(node, i))
  }

  // ---- Reference assignment: the nearest node clockwise, and the nearest other node ----

  /** How far clockwise `h` lies from `x`. */
  function Dist(x: u32, h: u32): nat {
    if h >= x then h - x else h + TWO_32 - x
  }

  /** How far the nearest virtual node of a node lies. */
  function NodeDist(hash: Hash, v: nat, node: string, x: u32): nat
    requires v > 0
  {
    var d := Dist(x, Point(hash, node, v - 1));
    if v == 1 then d
    else var e := NodeDist(hash, v - 1, node, x); if d < e then d else e
  }

  lemma {:induction false} NodeDistIsMin(hash: Hash, v: nat, node: string, x: u32)
    requires v > 0
    ensures forall i :: 0 <= i < v ==> NodeDist(hash, v, node, x) <= Dist(x, Point(hash, node, i))
    ensures exists i :: 0 <= i < v && NodeDist(hash, v, node, x) == Dist(x, Point(hash, node, i))
  {
    if v > 1 {
      NodeDistIsMin(hash, v - 1, node, x);
    }
  }

  predicate IsNearest(hash: Hash, v: nat, nodes: set<string>, x: u32, n: string)
    requires v > 0
  {
    n in nodes && forall m :: m in nodes ==> NodeDist(hash, v, n, x) <= NodeDist(hash, v, m, x)
  }

  /** No two virtual nodes of these nodes share a position. */
  ghost predicate CollisionFree(hash: Hash, v: nat, nodes: set<string>) {
    forall a, b, i, j | a in nodes && b in nodes && 0 <= i < v && 0 <= j < v ::
      Point(hash, a, i) == Point(hash, b, j) ==> a == b && i == j
  }

  /** No two of these nodes share a position. */
  ghost predicate NodesApart(hash: Hash, v: nat, nodes: set<string>) {
    forall a, b, i, j | a in nodes && b in nodes && 0 <= i < v && 0 <= j < v ::
      Point(hash, a, i) == Point(hash, b, j) ==> a == b
  }

  lemma {:induction false} NearestExists(hash: Hash, v: nat, nodes: set<string>, x: u32)
    requires v > 0 && nodes != {}
    ensures exists n :: IsNearest(hash, v, nodes, x, n)
    decreases |nodes|
  {
    var a :| a in nodes;
    var rest := nodes - {a};
    if rest == {} {
      assert nodes == {a};
      assert IsNearest(hash, v, nodes, x, a);
    } else {
      NearestExists(hash, v, rest, x);
      var b :| IsNearest(hash, v, rest, x, b);
      var n := if NodeDist(hash, v, a, x) < NodeDist(hash, v, b, x) then a else b;
      assert IsNearest(hash, v, nodes, x, n);
    }
  }

  /** The nearest node, `""` when there is none. */
  ghost function Nearest(hash: Hash, v: nat, nodes: set<string>, x: u32): (n: string)
    requires v > 0
    ensures nodes != {} ==> IsNearest(hash, v, nodes, x, n)
    ensures nodes == {} ==> n == ""
  {
    if nodes == {} then "" else
    NearestExists(hash, v, nodes, x);
    var n :| IsNearest(hash, v, nodes, x, n);
    n
  }

  lemma NearestUnique(hash: Hash, v: nat, nodes: set<string>, x: u32, n: string)
    requires v > 0 && NodesApart(hash, v, nodes) && IsNearest(hash, v, nodes, x, n)
    ensures Nearest(hash, v, nodes, x) == n
  {
    var m := Nearest(hash, v, nodes, x);
    NodeDistIsMin(hash, v, n, x);
    NodeDistIsMin(hash, v, m, x);
    var i :| 0 <= i < v && NodeDist(hash, v, n, x) == Dist(x, Point(hash, n, i));
    var j :| 0 <= j < v && NodeDist(hash, v, m, x) == Dist(x, Point(hash, m, j));
    assert Point(hash, n, i) == Point(hash, m, j);
  }

  ghost function PrimaryAt(hash: Hash, v: nat, nodes: set<string>, x: u32): string
    requires v > 0
  {
    Nearest(hash, v, nodes, x)
  }

  ghost function ReplicaAt(hash: Hash, v: nat, nodes: set<string>, x: u32): string
    requires v > 0
  {
    Nearest(hash, v, nodes - {Nearest(hash, v, nodes, x)}, x)
  }

  // ---- How the assignment moves ----

  lemma SubsetApart(hash: Hash, v: nat, some: set<string>, nodes: set<string>)
    requires NodesApart(hash, v, nodes) && some <= nodes
    ensures NodesApart(hash, v, some)
  {
  }

  lemma PairOfTwo(hash: Hash, v: nat, nodes: set<string>, x: u32)
    requires v > 0 && |nodes| >= 2
    ensures var p, r := PrimaryAt(hash, v, nodes, x), ReplicaAt(hash, v, nodes, x);
            p in nodes && r in nodes && p != r && PrimaryAt(hash, v, nodes - {p}, x) == r
  {
    var p := PrimaryAt(hash, v, nodes, x);
    assert nodes != {};
    assert |nodes - {p}| == |nodes| - 1;
    assert nodes - {p} != {};
  }

  lemma NearestAfterRemoval(hash: Hash, v: nat, nodes: set<string>, x: u32, n: string)
    requires v > 0 && NodesApart(hash, v, nodes) && n in nodes
    ensures PrimaryAt(hash, v, nodes, x) != n ==> PrimaryAt(hash, v, nodes - {n}, x) == PrimaryAt(hash, v, nodes, x)
    ensures PrimaryAt(hash, v, nodes, x) != n && ReplicaAt(hash, v, nodes, x) != n ==>
              ReplicaAt(hash, v, nodes - {n}, x) == ReplicaAt(hash, v, nodes, x)
  {
    hide NodesApart;
    SubsetApart(hash, v, nodes - {n}, nodes);
    var p, r := PrimaryAt(hash, v, nodes, x), ReplicaAt(hash, v, nodes, x);
    if p != n {
      NearestUnique(hash, v, nodes - {n}, x, p);
      if r != n {
        var others := nodes - {n} - {p};
        SubsetApart(hash, v, others, nodes);
        assert n in nodes - {p};
        assert IsNearest(hash, v, nodes - {p}, x, r);
        NearestUnique(hash, v, others, x, r);
      }
    }
  }

  lemma NearestAfterAddition(hash: Hash, v: nat, nodes: set<string>, x: u32, n: string)
    requires v > 0 && n !in nodes && NodesApart(hash, v, nodes + {n})
    ensures var p, q := PrimaryAt(hash, v, nodes + {n}, x), ReplicaAt(hash, v, nodes + {n}, x);
            && p in {n, PrimaryAt(hash, v, nodes, x)}
            && (n !in {p, q} ==> p == PrimaryAt(hash, v, nodes, x) && q == ReplicaAt(hash, v, nodes, x))
  {
    hide NodesApart;
    assert nodes + {n} - {n} == nodes;
    NearestAfterRemoval(hash, v, nodes + {n}, x, n);
  }

  // ---- The ring itself ----

  datatype Ring = Ring(points: seq<u32>, owner: map<u32, string>, nodes: set<string>)

  const EMPTY: Ring := Ring([], map[], {})

  /** A Go map read: a missing key reads as the empty string. */
  function OwnerOf(owner: map<u32, string>, h: u32): string {
    if h in owner then owner[h] else ""
  }

  predicate Sorted(s: seq<u32>) {
    forall i, j :: 0 <= i < j < |s| ==> s[i] <= s[j]
  }

  predicate StrictlySorted(s: seq<u32>) {
    forall i, j :: 0 <= i < j < |s| ==> s[i] < s[j]
  }

  function Insert(s: seq<u32>, x: u32): seq<u32> {
    if s == [] || x <= s[0] then [x] + s else [s[0]] + Insert(s[1..], x)
  }

  lemma SortedCons(x: u32, t: seq<u32>)
    requires Sorted(t) && forall y :: y in multiset(t) ==> x <= y
    ensures Sorted([x] + t)
  {
    assert forall j :: 0 <= j < |t| ==> t[j] in multiset(t);
  }

  lemma SortedTail(s: seq<u32>)
    requires Sorted(s) && s != []
    ensures Sorted(s[1..]) && (forall y :: y in multiset(s) ==> s[0] <= y)
    ensures multiset(s) == multiset{s[0]} + multiset(s[1..])
  {
    assert s == [s[0]] + s[1..];
    assert forall j :: 0 < j < |s| ==> s[0] <= s[j];
    assert forall y :: y in s[1..] ==> s[0] <= y;
  }

  lemma {:induction false} InsertSorted(s: seq<u32>, x: u32)
    requires Sorted(s)
    ensures Sorted(Insert(s, x)) && multiset(Insert(s, x)) == multiset(s) + multiset{x}
  {
    hide Sorted;
    if s == [] {
      SortedCons(x, s);
    } else {
      SortedTail(s);
      if x <= s[0] {
        SortedCons(x, s);
      } else {
        InsertSorted(s[1..], x);
        forall y | y in multiset(Insert(s[1..], x)) ensures s[0] <= y {
          assert y in multiset(s[1..]) || y == x;
          assert y in multiset(s) || y == x;
        }
        SortedCons(s[0], Insert(s[1..], x));
      }
    }
  }

  /** The ring after `sort.Slice`. */
  function Sort(s: seq<u32>): (t: seq<u32>)
    ensures Sorted(t) && multiset(t) == multiset(s)
  {
    if s == [] then [] else
    var t := Sort(s[1..]);
    InsertSorted(t, s[0]);
    assert s == [s[0]] + s[1..];
    Insert(t, s[0])
  }

  /** Sorting has one result. */
  lemma {:induction false} SortUnique(s: seq<u32>, t: seq<u32>)
    requires Sorted(s) && Sorted(t) && multiset(s) == multiset(t)
    ensures s == t
  {
    hide Sorted;
    assert |s| == |multiset(s)| && |t| == |multiset(t)|;
    if s != [] {
      SortedTail(s);
      SortedTail(t);
      assert s[0] in multiset(s) && t[0] in multiset(t);
      assert s[0] == t[0];
      assert multiset(s[1..]) == multiset(s) - multiset{s[0]};
      assert multiset(t[1..]) == multiset(t) - multiset{t[0]};
      SortUnique(s[1..], t[1..]);
    }
  }

  function Points(hash: Hash, v: nat, n: string): (s: seq<u32>)
    ensures |s| == v && forall i :: 0 <= i < v ==> s[i] == Point(hash, n, i)
  {
    seq(v, i requires 0 <= i < v => Point(hash, n, i))
  }

  function Owned(owner: map<u32, string>, hs: seq<u32>, n: string): map<u32, string> {
    map h | h in owner.Keys + (set g | g in hs) :: if h in hs then n else owner[h]
  }

  /** `AddNode`. */
  function Added(hash: Hash, v: nat, r: Ring, n: string): Ring {
    if n in r.nodes then r
    else Ring(Sort(r.points + Points(hash, v, n)), Owned(r.owner, Points(hash, v, n), n), r.nodes + {n})
  }

  /** The loop of `RemoveNode`: keep what another owns, drop what `n` owns and forget its owner. */
  function Sweep(points: seq<u32>, owner: map<u32, string>, n: string): (seq<u32>, map<u32, string>) {
    if points == [] then ([], owner)
    else if OwnerOf(owner, points[0]) != n then
      var rest := Sweep(points[1..], owner, n);
      ([points[0]] + rest.0, rest.1)
    else Sweep(points[1..], owner - {points[0]}, n)
  }

  /** `RemoveNode`. */
  function Removed(r: Ring, n: string): Ring {
    if n !in r.nodes then r
    else Ring(Sweep(r.points, r.owner, n).0, Sweep(r.points, r.owner, n).1, r.nodes - {n})
  }

  /** The ring holds exactly the virtual nodes of its nodes, each once, each owned by its node. */
  ghost predicate Consistent(hash: Hash, v: nat, r: Ring) {
    && StrictlySorted(r.points)
    && (forall h :: h in r.owner <==> h in r.points)
    && (forall h :: h in r.owner ==> r.owner[h] in r.nodes && h in Points(hash, v, r.owner[h]))
    && (forall n, i :: n in r.nodes && 0 <= i < v ==>
          Point(hash, n, i) in r.owner && r.owner[Point(hash, n, i)] == n)
  }

  lemma ConsistentUnique(hash: Hash, v: nat, r: Ring, s: Ring)
    requires Consistent(hash, v, r) && Consistent(hash, v, s) && r.nodes == s.nodes
    ensures r == s
  {
    ConsistentIncluded(hash, v, r, s);
    ConsistentIncluded(hash, v, s, r);
    assert r.owner == s.owner;
    DistinctCount(r.points);
    DistinctCount(s.points);
    assert multiset(r.points) == multiset(s.points);
    SortUnique(r.points, s.points);
  }

  lemma ConsistentIncluded(hash: Hash, v: nat, r: Ring, s: Ring)
    requires Consistent(hash, v, r) && Consistent(hash, v, s) && r.nodes == s.nodes
    ensures forall h :: h in r.owner ==> h in s.owner && r.owner[h] == s.owner[h]
  {
    forall h | h in r.owner ensures h in s.owner && r.owner[h] == s.owner[h] {
      var n := r.owner[h];
      var i :| 0 <= i < v && Points(hash, v, n)[i] == h;
      assert Point(hash, n, i) == h;
    }
  }

  lemma {:induction false} DistinctCount(s: seq<u32>)
    requires StrictlySorted(s)
    ensures forall h :: multiset(s)[h] == if h in s then 1 else 0
  {
    if s != [] {
      DistinctCount(s[1..]);
      assert s == [s[0]] + s[1..];
      assert s[0] !in s[1..];
    }
  }

  lemma ConsistentApart(hash: Hash, v: nat, r: Ring)
    requires Consistent(hash, v, r)
    ensures NodesApart(hash, v, r.nodes)
  {
  }

  // ---- Adding and removing ----

  /** The node's virtual nodes collide neither with each other nor with anything on the ring. */
  ghost predicate FreshPoints(hash: Hash, v: nat, r: Ring, n: string) {
    && (forall i, j :: 0 <= i < j < v ==> Point(hash, n, i) != Point(hash, n, j))
    && (forall i :: 0 <= i < v ==> Point(hash, n, i) !in r.owner)
  }

  lemma {:induction false} DistinctPoints(s: seq<u32>, h: u32)
    requires forall i, j :: 0 <= i < j < |s| ==> s[i] != s[j]
    ensures multiset(s)[h] == if h in s then 1 else 0
  {
    if s != [] {
      DistinctPoints(s[1..], h);
      assert s == [s[0]] + s[1..];
      assert s[0] !in s[1..];
    }
  }

  lemma SortedDistinct(s: seq<u32>)
    requires Sorted(s) && forall h :: multiset(s)[h] <= 1
    ensures StrictlySorted(s)
  {
    forall i, j | 0 <= i < j < |s| ensures s[i] < s[j] {
      if s[i] == s[j] {
        TwoCopies(s, i, j);
      }
    }
  }

  lemma TwoCopies(s: seq<u32>, i: nat, j: nat)
    requires i < j < |s| && s[i] == s[j]
    ensures multiset(s)[s[i]] >= 2
  {
    var a, b := s[..j], s[j..];
    assert s == a + b;
    assert a[i] == s[i] && b[0] == s[i];
    assert s[i] in multiset(a) && s[i] in multiset(b);
  }

  lemma AddedPoints(hash: Hash, v: nat, r: Ring, n: string)
    requires Consistent(hash, v, r) && n !in r.nodes && FreshPoints(hash, v, r, n)
    ensures var a := Added(hash, v, r, n);
            StrictlySorted(a.points) && forall h :: h in a.points <==> h in r.points || h in Points(hash, v, n)
  {
    hide Sorted, StrictlySorted;
    var a, ps := Added(hash, v, r, n), Points(hash, v, n);
    assert multiset(a.points) == multiset(r.points) + multiset(ps);
    DistinctCount(r.points);
    forall h
      ensures multiset(a.points)[h] <= 1
      ensures h in a.points <==> h in r.points || h in ps
    {
      DistinctPoints(ps, h);
      assert h in multiset(a.points) <==> h in multiset(r.points) || h in multiset(ps);
    }
    SortedDistinct(a.points);
  }

  lemma AddedOwners(hash: Hash, v: nat, r: Ring, n: string)
    requires Consistent(hash, v, r) && n !in r.nodes && FreshPoints(hash, v, r, n)
    ensures var a := Added(hash, v, r, n);
            forall m, i :: m in a.nodes && 0 <= i < v ==> Point(hash, m, i) in a.owner && a.owner[Point(hash, m, i)] == m
  {
    hide StrictlySorted, Sort, Point;
    var a, ps := Added(hash, v, r, n), Points(hash, v, n);
    forall m, i | m in a.nodes && 0 <= i < v ensures Point(hash, m, i) in a.owner && a.owner[Point(hash, m, i)] == m {
      if m == n {
        assert ps[i] == Point(hash, n, i);
      }
    }
  }

  /** Adding a node whose virtual nodes are fresh keeps the ring consistent. */
  lemma AddKeepsConsistent(hash: Hash, v: nat, r: Ring, n: string)
    requires Consistent(hash, v, r) && (n !in r.nodes ==> FreshPoints(hash, v, r, n))
    ensures Consistent(hash, v, Added(hash, v, r, n)) && Added(hash, v, r, n).nodes == r.nodes + {n}
  {
    hide Sorted, StrictlySorted, Sort, Point, FreshPoints;
    if n !in r.nodes {
      AddedPoints(hash, v, r, n);
      AddedOwners(hash, v, r, n);
    } else {
      assert r.nodes + {n} == r.nodes;
    }
  }

  /** What the removal loop leaves: one copy fewer of each position it finds owned by `n`. */
  lemma {:induction false} SweepCounts(points: seq<u32>, owner: map<u32, string>, n: string, h: u32)
    requires n != ""
    ensures var s := Sweep(points, owner, n);
            && multiset(s.0)[h] == multiset(points)[h] - (if h in points && OwnerOf(owner, h) == n then 1 else 0)
            && (h in s.1 <==> h in owner && !(h in points && owner[h] == n))
            && (h in s.1 ==> s.1[h] == owner[h])
  {
    if points != [] {
      assert points == [points[0]] + points[1..];
      if OwnerOf(owner, points[0]) != n {
        SweepCounts(points[1..], owner, n, h);
      } else {
        SweepCounts(points[1..], owner - {points[0]}, n, h);
      }
    }
  }

  lemma {:induction false} SweepSorted(points: seq<u32>, owner: map<u32, string>, n: string)
    requires Sorted(points)
    ensures Sorted(Sweep(points, owner, n).0)
    ensures forall h :: h in multiset(Sweep(points, owner, n).0) ==> h in multiset(points)
  {
    hide Sorted;
    if points != [] {
      SortedTail(points);
      if OwnerOf(owner, points[0]) != n {
        SweepSorted(points[1..], owner, n);
        forall y | y in multiset(Sweep(points[1..], owner, n).0) ensures points[0] <= y {
          assert y in multiset(points);
        }
        SortedCons(points[0], Sweep(points[1..], owner, n).0);
      } else {
        SweepSorted(points[1..], owner - {points[0]}, n);
      }
    } else {
      assert Sweep(points, owner, n).0 == points;
    }
  }

  lemma RemovedPoints(hash: Hash, v: nat, r: Ring, n: string)
    requires Consistent(hash, v, r) && n != "" && n in r.nodes
    ensures var s := Removed(r, n);
            && StrictlySorted(s.points)
            && (forall h :: h in s.points <==> h in r.points && r.owner[h] != n)
            && (forall h :: h in s.owner <==> h in r.owner && r.owner[h] != n)
            && (forall h :: h in s.owner ==> s.owner[h] == r.owner[h])
  {
    hide Sweep, Points;
    var s := Removed(r, n);
    SweepSorted(r.points, r.owner, n);
    DistinctCount(r.points);
    hide Sorted, StrictlySorted;
    forall h
      ensures multiset(s.points)[h] <= 1
      ensures h in s.points <==> h in r.points && r.owner[h] != n
      ensures h in s.owner <==> h in r.owner && r.owner[h] != n
      ensures h in s.owner ==> s.owner[h] == r.owner[h]
    {
      SweepCounts(r.points, r.owner, n, h);
      assert h in s.points <==> h in multiset(s.points);
    }
    SortedDistinct(s.points);
  }

  /** Removing a node from a consistent ring keeps it consistent. */
  lemma RemoveKeepsConsistent(hash: Hash, v: nat, r: Ring, n: string)
    requires Consistent(hash, v, r) && n != ""
    ensures Consistent(hash, v, Removed(r, n)) && Removed(r, n).nodes == r.nodes - {n}
  {
    hide Sweep, StrictlySorted;
    if n in r.nodes {
      RemovedPoints(hash, v, r, n);
    }
  }

  /**
   * `RemoveNode` undoes `AddNode` exactly when the added node's virtual nodes are free of
   * collisions; otherwise a position is left on the ring without its owner.
   */
  lemma RemoveUndoesAdd(hash: Hash, v: nat, r: Ring, n: string)
    requires Consistent(hash, v, r) && n !in r.nodes && n != ""
    ensures Removed(Added(hash, v, r, n), n) == r <==> FreshPoints(hash, v, r, n)
  {
    if FreshPoints(hash, v, r, n) {
      AddKeepsConsistent(hash, v, r, n);
      RemoveKeepsConsistent(hash, v, Added(hash, v, r, n), n);
      assert r.nodes + {n} - {n} == r.nodes;
      ConsistentUnique(hash, v, Removed(Added(hash, v, r, n), n), r);
    } else if Removed(Added(hash, v, r, n), n) == r {
      CollisionLeavesOrphan(hash, v, r, n);
    }
  }

  lemma CollisionLeavesOrphan(hash: Hash, v: nat, r: Ring, n: string)
    requires Consistent(hash, v, r) && n !in r.nodes && n != "" && !FreshPoints(hash, v, r, n)
    ensures exists h :: h in Removed(Added(hash, v, r, n), n).points && h !in Removed(Added(hash, v, r, n), n).owner
    ensures Removed(Added(hash, v, r, n), n) != r
  {
    var a, ps := Added(hash, v, r, n), Points(hash, v, n);
    var s := Removed(a, n);
    assert multiset(a.points) == multiset(r.points) + multiset(ps);
    var h: u32 := CollidingPoint(hash, v, r, n);
    assert h in ps;
    assert multiset(a.points)[h] >= 2;
    assert h in a.points by { assert h in multiset(a.points); }
    SweepCounts(a.points, a.owner, n, h);
    assert h in multiset(s.points);
    assert h in s.points && h !in s.owner;
  }

  lemma CollidingPoint(hash: Hash, v: nat, r: Ring, n: string) returns (h: u32)
    requires Consistent(hash, v, r) && !FreshPoints(hash, v, r, n)
    ensures h in Points(hash, v, n) && multiset(r.points)[h] + multiset(Points(hash, v, n))[h] >= 2
  {
    var ps := Points(hash, v, n);
    if i, j :| 0 <= i < j < v && Point(hash, n, i) == Point(hash, n, j) {
      h := ps[i];
      TwoCopies(ps, i, j);
    } else {
      var i :| 0 <= i < v && Point(hash, n, i) in r.owner;
      h := ps[i];
      assert h in multiset(ps) && h in multiset(r.points);
    }
  }

  // ---- Histories ----

  datatype Change = Add(node: string) | Remove(node: string)

  function Apply(hash: Hash, v: nat, r: Ring, c: Change): Ring {
    match c
    case Add(n) => Added(hash, v, r, n)
    case Remove(n) => Removed(r, n)
  }

  function Play(hash: Hash, v: nat, changes: seq<Change>): Ring {
    if changes == [] then EMPTY
    else Apply(hash, v, Play(hash, v, changes[..|changes| - 1]), changes[|changes| - 1])
  }

  /** Whatever the history of additions and removals, the ring is the consistent ring of its nodes. */
  lemma {:induction false} HistoryConsistent(hash: Hash, v: nat, changes: seq<Change>, universe: set<string>)
    requires CollisionFree(hash, v, universe) && "" !in universe
    requires forall i :: 0 <= i < |changes| ==> changes[i].node in universe
    ensures Consistent(hash, v, Play(hash, v, changes)) && Play(hash, v, changes).nodes <= universe
  {
    if changes != [] {
      var before, c := Play(hash, v, changes[..|changes| - 1]), changes[|changes| - 1];
      HistoryConsistent(hash, v, changes[..|changes| - 1], universe);
      if c.Remove? {
        RemoveKeepsConsistent(hash, v, before, c.node);
      } else {
        NewPointsFresh(hash, v, before, c.node, universe);
        AddKeepsConsistent(hash, v, before, c.node);
      }
    }
  }

  lemma NewPointsFresh(hash: Hash, v: nat, r: Ring, n: string, universe: set<string>)
    requires CollisionFree(hash, v, universe) && Consistent(hash, v, r) && r.nodes <= universe && n in universe
    ensures n !in r.nodes ==> FreshPoints(hash, v, r, n)
  {
    if n !in r.nodes {
      forall i | 0 <= i < v ensures Point(hash, n, i) !in r.owner {
      }
    }
  }

  /** Two histories that end with the same nodes end with the same ring. */
  lemma RingIsFunctionOfNodes(hash: Hash, v: nat, a: seq<Change>, b: seq<Change>, universe: set<string>)
    requires CollisionFree(hash, v, universe) && "" !in universe
    requires forall i :: 0 <= i < |a| ==> a[i].node in universe
    requires forall i :: 0 <= i < |b| ==> b[i].node in universe
    requires Play(hash, v, a).nodes == Play(hash, v, b).nodes
    ensures Play(hash, v, a) == Play(hash, v, b)
  {
    HistoryConsistent(hash, v, a, universe);
    HistoryConsistent(hash, v, b, universe);
    ConsistentUnique(hash, v, Play(hash, v, a), Play(hash, v, b));
  }
}
