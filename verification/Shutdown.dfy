/** Controlled shutdown: what draining a node does to each partition and to the whole table. */
module Shutdown {
  import opened Common
  import opened HashRing
  import opened Routing
  import opened TableWrites

  /**
   * What `ShutdownNode` makes of one partition when its moves complete: promote a usable
   * replica, else move the primary; then replace a replica on the drained node if the ring
   * over the other nodes has one to offer.
   */
  ghost function Drained(hash: Hash, targets: set<string>, node: string, pid: nat, p: Partition): Partition {
    var newPrimary, newReplica := PrimaryFor(hash, targets, pid), ReplicaFor(hash, targets, pid);
    if p.primary == node then
      var q := if p.replica != "" && p.replica != node then Swapped(p) else CompletedOne(p, newPrimary, true);
      if p.replica == node && newReplica != "" then CompletedOne(q, newReplica, false) else q
    else if p.replica == node && newReplica != "" then CompletedOne(p, newReplica, false)
    else p
  }

  ghost function DrainedSet(hash: Hash, targets: set<string>, node: string, ps: Partitions, pids: set<nat>): Partitions {
    map pid | pid in ps :: if pid in pids then Drained(hash, targets, node, pid, ps[pid]) else ps[pid]
  }

  /** Whatever the table looked like, the drained node ends up primary of nothing. */
  lemma DrainedIsNoPrimary(hash: Hash, targets: set<string>, node: string, ps: Partitions)
    requires targets != {} && node !in targets
    ensures forall pid :: pid in ps ==> DrainedSet(hash, targets, node, ps, ps.Keys)[pid].primary != node
  {
    forall pid | pid in ps ensures Drained(hash, targets, node, pid, ps[pid]).primary != node {
      assert PrimaryFor(hash, targets, pid) in targets;
    }
  }

  /**
   * Partition by partition: a usable replica takes over and the drained node becomes replica;
   * without one the ring's primary takes over; a replica on the drained node moves to the ring's
   * replica if there is one, without touching primary and epoch; nothing else changes.
   */
  lemma DrainedCases(hash: Hash, targets: set<string>, node: string, pid: nat, p: Partition)
    ensures var q, r := Drained(hash, targets, node, pid, p), ReplicaFor(hash, targets, pid);
            && (p.primary == node && p.replica !in {"", node} ==>
                  q.primary == p.replica && q.replica == node && q.epoch == p.epoch + 1 && q.status == p.status)
            && (p.primary == node && p.replica == node ==>
                  && q.primary == PrimaryFor(hash, targets, pid) && q.epoch == p.epoch + 1 && q.status == Normal
                  && (r != "" ==> q.replica == r) && (r == "" && q.primary != node ==> q.replica == node))
            && (p.primary == node && p.replica == "" != node ==>
                  q.primary == PrimaryFor(hash, targets, pid) && q.epoch == p.epoch + 1 && (q.primary != node ==> q.replica == node))
            && (p.primary != node && p.replica == node && r != "" ==>
                  q.primary == p.primary && q.replica == r && q.epoch == p.epoch && q.status == Normal)
            && (p.primary != node && (p.replica != node || r == "") ==> q == p)
  {
  }

  lemma DrainedFollowsRing(hash: Hash, nodes: set<string>, node: string, pid: nat, p: Partition)
    requires |nodes| >= 2 && node in nodes && "" !in nodes && NodesApart(hash, VIRTUAL_NODES, nodes)
    requires p.primary == PrimaryFor(hash, nodes, pid) && p.replica == ReplicaFor(hash, nodes, pid)
    ensures var q := Drained(hash, nodes - {node}, node, pid, p);
            && q.primary == PrimaryFor(hash, nodes - {node}, pid)
            && q.primary != q.replica
            && q.epoch == p.epoch + (if p.primary == node then 1 else 0)
            && (q.replica == node <==> p.primary == node || |nodes| == 2)
  {
    var rest, x := nodes - {node}, hash(PartitionLabel(pid));
    PairApart(hash, nodes, pid);
    PairOfTwo(hash, VIRTUAL_NODES, nodes, x);
    NearestAfterRemoval(hash, VIRTUAL_NODES, nodes, x, node);
    assert |rest| == |nodes| - 1;
    if |nodes| >= 3 {
      PairApart(hash, rest, pid);
    } else {
      assert rest - {PrimaryFor(hash, rest, pid)} == {} by {
        LastOne(rest, PrimaryFor(hash, rest, pid));
      }
    }
  }

  lemma LastOne(s: set<string>, x: string)
    requires |s| == 1
    ensures x in s ==> s - {x} == {}
  {
    if x in s {
      assert |s - {x}| == 0;
    }
  }

  /**
   * From a ring-aligned table a completed shutdown makes every primary that of the ring
   * without the node and raises by one exactly the epochs of the partitions the node was
   * primary of. With three or more nodes the node stays on as replica of exactly those: the
   * promotion swapped the roles and nothing replaces it there. With two nodes it stays on as
   * replica of everything. Scheduled replica moves that never complete (`pids` lacks them)
   * change none of the primaries.
   */
  lemma ShutdownFollowsRing(hash: Hash, nodes: set<string>, node: string, ps: Partitions, pids: set<nat>)
    requires |nodes| >= 2 && node in nodes && "" !in nodes && NodesApart(hash, VIRTUAL_NODES, nodes)
    requires Aligned(hash, nodes, ps) && forall pid :: pid in ps && ps[pid].primary == node ==> pid in pids
    ensures var after := DrainedSet(hash, nodes - {node}, node, ps, pids);
            && after.Keys == ps.Keys && Apart(after)
            && forall pid :: pid in ps ==>
                 && after[pid].primary == PrimaryFor(hash, nodes - {node}, pid) != node
                 && after[pid].epoch == ps[pid].epoch + (if ps[pid].primary == node then 1 else 0)
                 && (ps.Keys <= pids ==> (after[pid].replica == node <==> ps[pid].primary == node || |nodes| == 2))
  {
    hide Drained, NodesApart, PrimaryFor, ReplicaFor;
    var after := DrainedSet(hash, nodes - {node}, node, ps, pids);
    forall pid | pid in ps
      ensures after[pid].primary != after[pid].replica
      ensures after[pid].primary == PrimaryFor(hash, nodes - {node}, pid) != node
      ensures after[pid].epoch == ps[pid].epoch + (if ps[pid].primary == node then 1 else 0)
      ensures ps.Keys <= pids ==> (after[pid].replica == node <==> ps[pid].primary == node || |nodes| == 2)
    {
      DrainedFollowsRing(hash, nodes, node, pid, ps[pid]);
      PairApart(hash, nodes, pid);
      OthersKeepPrimary(hash, nodes, node, pid);
    }
  }

  lemma OthersKeepPrimary(hash: Hash, nodes: set<string>, node: string, pid: nat)
    requires |nodes| >= 2 && node in nodes && NodesApart(hash, VIRTUAL_NODES, nodes)
    ensures PrimaryFor(hash, nodes, pid) != node ==> PrimaryFor(hash, nodes - {node}, pid) == PrimaryFor(hash, nodes, pid)
    ensures PrimaryFor(hash, nodes - {node}, pid) != node
  {
    NearestAfterRemoval(hash, VIRTUAL_NODES, nodes, hash(PartitionLabel(pid)), node);
    assert |nodes - {node}| == |nodes| - 1;
    assert nodes - {node} != {};
  }

  // ---- A whole shutdown ----

  /** The writes `ShutdownNode` makes for one partition. */
  ghost function DrainMoves(hash: Hash, targets: set<string>, node: string, pid: nat, p: Partition): (ms: seq<Mutation>)
    ensures forall i :: 0 <= i < |ms| ==> (ms[i].Promote? || ms[i].Complete?) && ms[i].pid == pid
  {
    var newPrimary, newReplica := PrimaryFor(hash, targets, pid), ReplicaFor(hash, targets, pid);
    (if p.primary != node then []
     else if p.replica != "" && p.replica != node then [Promote(pid)]
     else [Complete(pid, newPrimary, true)]) +
    (if p.replica == node && newReplica != "" then [Complete(pid, newReplica, false)] else [])
  }

  lemma MoveOnce(p: Partition, m: Mutation)
    requires m.Promote? || m.Complete?
    ensures MoveEach(p, [m]) == MovedOne(p, m)
  {
    assert [m][..0] == [];
  }

  lemma MoveTwice(p: Partition, a: Mutation, b: Mutation)
    requires (a.Promote? || a.Complete?) && (b.Promote? || b.Complete?)
    ensures MoveEach(p, [a, b]) == MovedOne(MovedOne(p, a), b)
  {
    assert [a, b][..1] == [a];
    MoveOnce(p, a);
  }

  lemma DrainMovesDrain(hash: Hash, targets: set<string>, node: string, pid: nat, p: Partition)
    ensures MoveEach(p, DrainMoves(hash, targets, node, pid, p)) == Drained(hash, targets, node, pid, p)
  {
    hide PrimaryFor, ReplicaFor;
    var ms := DrainMoves(hash, targets, node, pid, p);
    if |ms| == 1 {
      assert ms == [ms[0]];
      MoveOnce(p, ms[0]);
    } else if |ms| == 2 {
      assert ms == [ms[0], ms[1]];
      MoveTwice(p, ms[0], ms[1]);
    }
  }

  /** The writes of a shutdown, the partitions in any order. */
  ghost predicate IsDrain(hash: Hash, targets: set<string>, node: string, ps: Partitions, ms: seq<Mutation>) {
    AreMoves(ps, ms) && forall pid :: pid in ps ==> MovesOf(ms, pid) == DrainMoves(hash, targets, node, pid, ps[pid])
  }

  /** A partition that misses one of its writes is not drained. */
  lemma MissingMoveShows(hash: Hash, targets: set<string>, node: string, pid: nat, p: Partition, ms: seq<Mutation>)
    requires node !in targets && targets != {} && AreLocal(ms)
    requires var all := DrainMoves(hash, targets, node, pid, p); LeftOver(ms, all) && |ms| < |all|
    ensures MoveEach(p, ms) != Drained(hash, targets, node, pid, p)
  {
    var all := DrainMoves(hash, targets, node, pid, p);
    ReplicaElsewhere(hash, targets, node, pid);
    hide PrimaryFor, ReplicaFor;
    if ms != [] {
      assert |all| == 2 && ms == [ms[0]];
      LastIsIn(ms, all);
      MoveOnce(p, ms[0]);
    }
  }

  lemma ReplicaElsewhere(hash: Hash, targets: set<string>, node: string, pid: nat)
    requires node !in targets && targets != {}
    ensures ReplicaFor(hash, targets, pid) != "" ==> ReplicaFor(hash, targets, pid) != node
  {
    var rest := targets - {PrimaryFor(hash, targets, pid)};
    assert rest != {} ==> ReplicaFor(hash, targets, pid) in rest;
  }

  /**
   * A shutdown drains every partition exactly when each of its writes starts from the table the
   * one before has left: otherwise moves are lost.
   */
  lemma ShutdownNeedsDeliveries(hash: Hash, c: Cluster, targets: set<string>, node: string, ms: seq<Mutation>, seen: seq<nat>, got: nat)
    requires c.cached == c.stored && IsDrain(hash, targets, node, c.cached.partitions, ms) && IsSeen(ms, seen) && got <= |ms|
    requires node !in targets && targets != {}
    ensures var ps := c.cached.partitions;
            Afterwards(c, ms, seen, got).stored.partitions == DrainedSet(hash, targets, node, ps, ps.Keys) <==> UpToDate(seen)
  {
    hide Drained, DrainMoves, History, MoveAll, MovesOf, MoveEach, Kept, Pick, LeftOver;
    var ps, kept := c.cached.partitions, Kept(seen, |ms|);
    StoredAfter(c, ms, seen, got);
    LostIffBehind(seen);
    if KeepsAll(seen) {
      PickAll(ms, kept);
      forall pid | pid in ps ensures MoveAll(ps, ms)[pid] == Drained(hash, targets, node, pid, ps[pid]) {
        MovesAreLocal(ps, ms, pid);
        DrainMovesDrain(hash, targets, node, pid, ps[pid]);
      }
    } else {
      var i: nat :| i < |seen| && i !in kept;
      var pid := ms[i].pid;
      assert IsMove(ps, ms[i]);
      PickIsLeftOver(ms, kept, pid);
      PickMoves(ps, ms, kept);
      MovesAreLocal(ps, Pick(ms, kept), pid);
      MissingMoveShows(hash, targets, node, pid, ps[pid], MovesOf(Pick(ms, kept), pid));
    }
  }

  lemma StoredAfter(c: Cluster, ms: seq<Mutation>, seen: seq<nat>, got: nat)
    requires c.cached == c.stored && AreMoves(c.cached.partitions, ms) && IsSeen(ms, seen) && got <= |ms|
    ensures AreMoves(c.cached.partitions, Pick(ms, Kept(seen, |ms|)))
    ensures Afterwards(c, ms, seen, got).stored.partitions == MoveAll(c.cached.partitions, Pick(ms, Kept(seen, |ms|)))
  {
    hide History, MoveAll;
    MovesSurvive(c, ms, seen, |ms|);
    if ms == [] {
      MoveNone(c.cached.partitions);
    }
  }
}
