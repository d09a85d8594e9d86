/**
 * Several writes of the route table in a row. Each starts from the router's copy, which the
 * watch sets to the table of some earlier write: it hands over every table on its own, late, and
 * drops some when its channel is full.
 */
module TableWrites {
  import opened HashRing
  import opened Routing

  // ---- Moves ----

  /** A promotion or a completed move of a partition in the table. */
  predicate IsMove(ps: Partitions, m: Mutation) {
    (m.Promote? || m.Complete?) && m.pid in ps
  }

  predicate AreMoves(ps: Partitions, ms: seq<Mutation>) {
    forall i :: 0 <= i < |ms| ==> IsMove(ps, ms[i])
  }

  function MovedOne(p: Partition, m: Mutation): Partition
    requires m.Promote? || m.Complete?
  {
    if m.Promote? then Swapped(p) else CompletedOne(p, m.node, m.isPrimary)
  }

  function Moved(ps: Partitions, m: Mutation): (r: Partitions)
    requires IsMove(ps, m)
    ensures r.Keys == ps.Keys
  {
    ps[m.pid := MovedOne(ps[m.pid], m)]
  }

  lemma MoveOutcome(hash: Hash, c: Cluster, m: Mutation)
    requires IsMove(c.cached.partitions, m)
    ensures Mutate(hash, c, m) == Routing.Write(c, Moved(c.cached.partitions, m))
  {
  }

  /** All of them, one after the other. */
  function MoveAll(ps: Partitions, ms: seq<Mutation>): (r: Partitions)
    requires AreMoves(ps, ms)
    ensures r.Keys == ps.Keys
  {
    if ms == [] then ps else Moved(MoveAll(ps, ms[..|ms| - 1]), ms[|ms| - 1])
  }

  // ---- Moves of one partition ----

  predicate AreLocal(ms: seq<Mutation>) {
    forall i :: 0 <= i < |ms| ==> ms[i].Promote? || ms[i].Complete?
  }

  function MoveEach(p: Partition, ms: seq<Mutation>): Partition
    requires AreLocal(ms)
  {
    if ms == [] then p else MovedOne(MoveEach(p, ms[..|ms| - 1]), ms[|ms| - 1])
  }

  function MovesOf(ms: seq<Mutation>, pid: nat): (r: seq<Mutation>)
    requires AreLocal(ms)
    ensures AreLocal(r)
  {
    if ms == [] then []
    else MovesOf(ms[..|ms| - 1], pid) + (if ms[|ms| - 1].pid == pid then [ms[|ms| - 1]] else [])
  }

  lemma {:induction false} MovesAreLocal(ps: Partitions, ms: seq<Mutation>, pid: nat)
    requires AreMoves(ps, ms) && pid in ps
    ensures MoveAll(ps, ms)[pid] == MoveEach(ps[pid], MovesOf(ms, pid))
  {
    hide MovedOne;
    if ms != [] {
      var init, last := ms[..|ms| - 1], ms[|ms| - 1];
      MovesAreLocal(ps, init, pid);
      var before := MovesOf(init, pid);
      if last.pid == pid {
        assert (before + [last])[..|before|] == before;
      } else {
        assert before + [] == before;
      }
    }
  }

  lemma {:induction false} MovesOfConcat(a: seq<Mutation>, b: seq<Mutation>, pid: nat)
    requires AreLocal(a) && AreLocal(b)
    ensures AreLocal(a + b) && MovesOf(a + b, pid) == MovesOf(a, pid) + MovesOf(b, pid)
  {
    if b == [] {
      assert a + b == a;
    } else {
      MovesOfConcat(a, b[..|b| - 1], pid);
      assert (a + b)[..|a + b| - 1] == a + b[..|b| - 1];
    }
  }

  lemma {:induction false} OwnMoves(ms: seq<Mutation>, pid: nat, q: nat)
    requires AreLocal(ms) && forall i :: 0 <= i < |ms| ==> ms[i].pid == pid
    ensures MovesOf(ms, q) == if q == pid then ms else []
  {
    if ms != [] {
      OwnMoves(ms[..|ms| - 1], pid, q);
    }
  }

  // ---- The tables a row of writes leaves ----

  /** `seen[i]` says which table the copy holds when write `i` starts: 0 the first copy, `k` the table of write `k - 1`. */
  predicate IsSeen(ms: seq<Mutation>, seen: seq<nat>) {
    |seen| == |ms| && forall i :: 0 <= i < |seen| ==> seen[i] <= i
  }

  function History(c: Cluster, ms: seq<Mutation>, seen: seq<nat>): (h: seq<RouteTable>)
    requires AreMoves(c.cached.partitions, ms) && IsSeen(ms, seen)
    ensures |h| == |ms| + 1 && forall i :: 0 <= i < |h| ==> h[i].partitions.Keys == c.cached.partitions.Keys
  {
    if ms == [] then [c.cached]
    else
      var n := |ms| - 1;
      var h := History(c, ms[..n], seen[..n]);
      h + [RouteTable(c.stored.version + n + 1, Moved(h[seen[n]].partitions, ms[n]))]
  }

  /** The cluster after the writes, with table `got` in the copy. */
  function Afterwards(c: Cluster, ms: seq<Mutation>, seen: seq<nat>, got: nat): Cluster
    requires AreMoves(c.cached.partitions, ms) && IsSeen(ms, seen) && got <= |ms|
  {
    var h := History(c, ms, seen);
    Cluster(if ms == [] then c.stored else h[|ms|], h[got])
  }

  /** One more write, started from the copy. */
  lemma OneMoreWrite(hash: Hash, c: Cluster, ms: seq<Mutation>, seen: seq<nat>, got: nat, m: Mutation)
    requires AreMoves(c.cached.partitions, ms) && IsSeen(ms, seen) && got <= |ms| && IsMove(c.cached.partitions, m)
    ensures AreMoves(c.cached.partitions, ms + [m]) && IsSeen(ms + [m], seen + [got])
    ensures History(c, ms + [m], seen + [got])[..|ms| + 1] == History(c, ms, seen)
    ensures Mutate(hash, Afterwards(c, ms, seen, got), m) == Afterwards(c, ms + [m], seen + [got], got)
  {
    var h := History(c, ms, seen);
    assert (ms + [m])[..|ms|] == ms && (seen + [got])[..|ms|] == seen;
    MoveOutcome(hash, Afterwards(c, ms, seen, got), m);
    assert History(c, ms + [m], seen + [got])[..|ms| + 1] == h;
  }

  // ---- What the last table still has ----

  /** The writes a table builds on: its own, those of the table that one saw, and so on. */
  function Kept(seen: seq<nat>, k: nat): (s: set<nat>)
    requires k <= |seen| && forall i :: 0 <= i < |seen| ==> seen[i] <= i
    ensures forall i :: i in s ==> i < k
  {
    if k == 0 then {} else Kept(seen, seen[k - 1]) + {k - 1}
  }

  /** The moves at these positions, in order. */
  function Pick(ms: seq<Mutation>, keep: set<nat>): (r: seq<Mutation>)
    ensures forall m :: m in r ==> m in ms
  {
    if ms == [] then []
    else Pick(ms[..|ms| - 1], keep) + (if |ms| - 1 in keep then [ms[|ms| - 1]] else [])
  }

  lemma PickMoves(ps: Partitions, ms: seq<Mutation>, keep: set<nat>)
    requires AreMoves(ps, ms)
    ensures AreMoves(ps, Pick(ms, keep))
  {
    var r := Pick(ms, keep);
    forall i | 0 <= i < |r| ensures IsMove(ps, r[i]) {
      assert r[i] in ms;
    }
  }

  /** Positions past the end of a row pick nothing. */
  lemma {:induction false} PickPrefix(ms: seq<Mutation>, keep: set<nat>, k: nat)
    requires k <= |ms| && forall i :: i in keep ==> i < k
    ensures Pick(ms, keep) == Pick(ms[..k], keep)
  {
    if k == |ms| {
      assert ms[..k] == ms;
    } else {
      var init := ms[..|ms| - 1];
      PickPrefix(init, keep, k);
      assert init[..k] == ms[..k];
      assert Pick(init, keep) + [] == Pick(init, keep);
    }
  }

  lemma {:induction false} PickSame(ms: seq<Mutation>, a: set<nat>, b: set<nat>)
    requires forall i: nat :: i < |ms| ==> (i in a <==> i in b)
    ensures Pick(ms, a) == Pick(ms, b)
  {
    if ms != [] {
      PickSame(ms[..|ms| - 1], a, b);
    }
  }

  /** Every table is the first copy with exactly the moves it builds on; the others are overwritten. */
  lemma {:induction false} MovesSurvive(c: Cluster, ms: seq<Mutation>, seen: seq<nat>, k: nat)
    requires AreMoves(c.cached.partitions, ms) && IsSeen(ms, seen) && k <= |ms|
    ensures AreMoves(c.cached.partitions, Pick(ms, Kept(seen, k)))
    ensures History(c, ms, seen)[k].partitions == MoveAll(c.cached.partitions, Pick(ms, Kept(seen, k)))
    decreases |ms|, k
  {
    hide Moved, MoveAll, History;
    var ps, n := c.cached.partitions, |ms|;
    PickMoves(ps, ms, Kept(seen, k));
    if k == 0 {
      FirstTable(c, ms, seen);
      PickPrefix(ms, {}, 0);
      assert ms[..0] == [];
      MoveNone(ps);
    } else if k < n {
      LastTable(c, ms, seen);
      MovesSurvive(c, ms[..n - 1], seen[..n - 1], k);
      KeptPrefix(seen, n - 1, k);
      PickPrefix(ms, Kept(seen, k), n - 1);
    } else {
      var init, base := ms[..n - 1], seen[n - 1];
      MovesSurvive(c, init, seen[..n - 1], base);
      KeptPrefix(seen, n - 1, base);
      PickSame(init, Kept(seen, base), Kept(seen, n));
      LastTable(c, ms, seen);
      PickMoves(ps, init, Kept(seen, n));
      MoveOneMore(ps, Pick(init, Kept(seen, n)), ms[n - 1]);
    }
  }

  lemma MoveNone(ps: Partitions)
    ensures MoveAll(ps, []) == ps
  {
  }

  lemma MoveOneMore(ps: Partitions, ms: seq<Mutation>, m: Mutation)
    requires AreMoves(ps, ms) && IsMove(ps, m)
    ensures AreMoves(ps, ms + [m]) && MoveAll(ps, ms + [m]) == Moved(MoveAll(ps, ms), m)
  {
    assert (ms + [m])[..|ms|] == ms;
  }

  lemma LastTable(c: Cluster, ms: seq<Mutation>, seen: seq<nat>)
    requires ms != [] && AreMoves(c.cached.partitions, ms) && IsSeen(ms, seen)
    ensures var n, h := |ms| - 1, History(c, ms, seen);
            && h[..n + 1] == History(c, ms[..n], seen[..n])
            && h[n + 1].partitions == Moved(h[seen[n]].partitions, ms[n])
  {
  }

  lemma {:induction false} FirstTable(c: Cluster, ms: seq<Mutation>, seen: seq<nat>)
    requires AreMoves(c.cached.partitions, ms) && IsSeen(ms, seen)
    ensures History(c, ms, seen)[0] == c.cached
  {
    if ms != [] {
      FirstTable(c, ms[..|ms| - 1], seen[..|ms| - 1]);
    }
  }

  lemma {:induction false} KeptPrefix(seen: seq<nat>, n: nat, k: nat)
    requires k <= n <= |seen| && forall i :: 0 <= i < |seen| ==> seen[i] <= i
    ensures Kept(seen[..n], k) == Kept(seen, k)
    decreases k
  {
    if k > 0 {
      KeptPrefix(seen, n, seen[k - 1]);
    }
  }

  /** The watch has handed over each table before the next write. */
  predicate UpToDate(seen: seq<nat>) {
    forall i :: 0 <= i < |seen| ==> seen[i] == i
  }

  lemma {:induction false} AllKept(seen: seq<nat>, k: nat)
    requires k <= |seen| && UpToDate(seen)
    ensures forall i: nat :: i < k ==> i in Kept(seen, k)
  {
    if k > 0 {
      AllKept(seen, k - 1);
    }
  }

  lemma {:induction false} PickAll(ms: seq<Mutation>, keep: set<nat>)
    requires forall i: nat :: i < |ms| ==> i in keep
    ensures Pick(ms, keep) == ms
  {
    if ms != [] {
      PickAll(ms[..|ms| - 1], keep);
      assert ms == ms[..|ms| - 1] + [ms[|ms| - 1]];
    }
  }

  /** A kept write builds on nothing between the table it saw and itself. */
  lemma {:induction false} Gap(seen: seq<nat>, k: nat, i: nat, j: nat)
    requires k <= |seen| && forall x :: 0 <= x < |seen| ==> seen[x] <= x
    requires i in Kept(seen, k) && seen[i] <= j < i
    ensures j !in Kept(seen, k)
    decreases k
  {
    if i != k - 1 {
      Gap(seen, seen[k - 1], i, j);
    }
  }

  /** The last table builds on all the writes. */
  predicate KeepsAll(seen: seq<nat>)
    requires forall x :: 0 <= x < |seen| ==> seen[x] <= x
  {
    forall i: nat :: i < |seen| ==> i in Kept(seen, |seen|)
  }

  /** Some write is lost exactly when some write started from a copy that was not up to date. */
  lemma LostIffBehind(seen: seq<nat>)
    requires forall x :: 0 <= x < |seen| ==> seen[x] <= x
    ensures KeepsAll(seen) <==> UpToDate(seen)
  {
    hide Kept;
    if UpToDate(seen) {
      AllKept(seen, |seen|);
    } else if KeepsAll(seen) {
      var i: nat :| i < |seen| && seen[i] != i;
      assert i in Kept(seen, |seen|);
      Gap(seen, |seen|, i, i - 1);
      assert false;
    }
  }

  // ---- A partition that misses moves ----

  /** `a` is `b` with some elements left out. */
  predicate LeftOver(a: seq<Mutation>, b: seq<Mutation>) {
    || a == []
    || (b != [] && (|| LeftOver(a, b[..|b| - 1])
                    || (a[|a| - 1] == b[|b| - 1] && LeftOver(a[..|a| - 1], b[..|b| - 1]))))
  }

  lemma LeftOverStep(m: Mutation, a: seq<Mutation>, b: seq<Mutation>)
    requires LeftOver(a, b)
    ensures LeftOver(a, b + [m]) && LeftOver(a + [m], b + [m])
  {
    assert (a + [m])[..|a|] == a && (b + [m])[..|b|] == b;
  }

  lemma {:induction false} LastIsIn(a: seq<Mutation>, b: seq<Mutation>)
    requires LeftOver(a, b) && a != []
    ensures a[|a| - 1] in b
  {
    if LeftOver(a, b[..|b| - 1]) {
      LastIsIn(a, b[..|b| - 1]);
    }
  }

  lemma OneMoreMove(ms: seq<Mutation>, m: Mutation, pid: nat)
    requires AreLocal(ms) && (m.Promote? || m.Complete?)
    ensures AreLocal(ms + [m])
    ensures MovesOf(ms + [m], pid) == if m.pid == pid then MovesOf(ms, pid) + [m] else MovesOf(ms, pid)
  {
    assert (ms + [m])[..|ms|] == ms;
  }

  lemma {:induction false} PickIsLeftOver(ms: seq<Mutation>, keep: set<nat>, pid: nat)
    requires AreLocal(ms)
    ensures AreLocal(Pick(ms, keep))
    ensures var a, b := MovesOf(Pick(ms, keep), pid), MovesOf(ms, pid);
            && LeftOver(a, b) && |a| <= |b|
            && ((exists j: nat :: j < |ms| && j !in keep && ms[j].pid == pid) ==> |a| < |b|)
  {
    var r := Pick(ms, keep);
    forall i | 0 <= i < |r| ensures r[i].Promote? || r[i].Complete? {
      assert r[i] in ms;
    }
    if ms != [] {
      hide LeftOver, MovesOf;
      var init, m := ms[..|ms| - 1], ms[|ms| - 1];
      PickIsLeftOver(init, keep, pid);
      var before := Pick(init, keep);
      LeftOverStep(m, MovesOf(before, pid), MovesOf(init, pid));
      assert ms == init + [m];
      OneMoreMove(init, m, pid);
      if |ms| - 1 in keep {
        OneMoreMove(before, m, pid);
      } else {
        assert before + [] == before;
      }
    }
  }
}
