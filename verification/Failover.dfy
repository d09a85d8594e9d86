/** Node failure: promoting replicas one table write at a time, and the rebalance that follows. */
module Failover {
  import opened Common
  import opened HashRing
  import opened Routing
  import opened TableWrites

  /** The partitions the failed node is primary of, by the router's copy. */
  function Affected(ps: Partitions, node: string): set<nat> {
    set pid | pid in ps && ps[pid].primary == node
  }

  /** The table with these partitions promoted. */
  function PromotedSet(ps: Partitions, pids: set<nat>): Partitions {
    map pid | pid in ps :: if pid in pids then Swapped(ps[pid]) else ps[pid]
  }

  /** The writes of `handleNodeFailure`. */
  function Promotions(order: seq<nat>): (ms: seq<Mutation>)
    ensures |ms| == |order| && forall i :: 0 <= i < |ms| ==> ms[i] == Promote(order[i])
  {
    seq(|order|, i requires 0 <= i < |order| => Promote(order[i]))
  }

  lemma PromoteInSet(ps: Partitions, done: set<nat>, pid: nat)
    requires pid in ps && pid !in done
    ensures Promoted(PromotedSet(ps, done), pid) == PromotedSet(ps, done + {pid})
  {
  }

  /** The partitions at these positions. */
  function Listed(order: seq<nat>, keep: set<nat>): set<nat> {
    set i | 0 <= i < |order| && i in keep :: order[i]
  }

  lemma ListedOneMore(order: seq<nat>, keep: set<nat>)
    requires order != []
    ensures var n := |order| - 1;
            Listed(order, keep) == Listed(order[..n], keep) + (if n in keep then {order[n]} else {})
  {
    var n := |order| - 1;
    var init := order[..n];
    forall p | p in Listed(order, keep) ensures p in Listed(init, keep) || (n in keep && p == order[n]) {
      var i :| 0 <= i < |order| && i in keep && order[i] == p;
      assert i < n ==> init[i] == p;
    }
    forall p | p in Listed(init, keep) ensures p in Listed(order, keep) {
      var i :| 0 <= i < |init| && i in keep && init[i] == p;
      assert order[i] == p;
    }
  }

  /** Promotions of different partitions amount to promoting them all at once. */
  lemma {:induction false} PickedPromotions(ps: Partitions, order: seq<nat>, keep: set<nat>)
    requires Distinct(order) && forall i :: 0 <= i < |order| ==> order[i] in ps
    ensures AreMoves(ps, Pick(Promotions(order), keep))
    ensures MoveAll(ps, Pick(Promotions(order), keep)) == PromotedSet(ps, Listed(order, keep))
  {
    hide PromotedSet, Listed, Moved;
    PickMoves(ps, Promotions(order), keep);
    if order == [] {
      NothingPromoted(ps);
      NothingListed(keep);
      MoveNone(ps);
    } else {
      var n := |order| - 1;
      var init := order[..n];
      PickedPromotions(ps, init, keep);
      ListedOneMore(order, keep);
      assert Promotions(order)[..n] == Promotions(init);
      var before, done := Pick(Promotions(init), keep), Listed(init, keep);
      if n in keep {
        NotListed(order, keep);
        PromotedSetKeys(ps, done);
        MoveOneMore(ps, before, Promote(order[n]));
        PromoteInSet(ps, done, order[n]);
        PromoteMoves(PromotedSet(ps, done), order[n]);
      } else {
        assert before + [] == before && done + {} == done;
      }
    }
  }

  lemma PromoteMoves(ps: Partitions, pid: nat)
    requires pid in ps
    ensures Moved(ps, Promote(pid)) == Promoted(ps, pid)
  {
  }

  lemma NothingListed(keep: set<nat>)
    ensures Listed([], keep) == {}
  {
  }

  lemma NotListed(order: seq<nat>, keep: set<nat>)
    requires order != [] && Distinct(order)
    ensures order[|order| - 1] !in Listed(order[..|order| - 1], keep)
  {
  }

  /** Every promotion the last table does not build on is lost. */
  lemma PromotionsSurvive(c: Cluster, order: seq<nat>, seen: seq<nat>)
    requires Distinct(order) && (forall i :: 0 <= i < |order| ==> order[i] in c.cached.partitions) && IsSeen(Promotions(order), seen)
    ensures AreMoves(c.cached.partitions, Promotions(order))
    ensures History(c, Promotions(order), seen)[|order|].partitions ==
            PromotedSet(c.cached.partitions, Listed(order, Kept(seen, |order|)))
  {
    hide PromotedSet, Listed, History, MoveAll, Pick, Kept;
    MovesSurvive(c, Promotions(order), seen, |order|);
    PickedPromotions(c.cached.partitions, order, Kept(seen, |order|));
  }

  lemma PromotedSetKeys(ps: Partitions, done: set<nat>)
    ensures PromotedSet(ps, done).Keys == ps.Keys
  {
  }

  /** `order` lists the partitions the node is primary of, each once. */
  ghost predicate Lists(order: seq<nat>, ps: Partitions, node: string) {
    && Distinct(order) && (forall pid :: pid in order <==> pid in Affected(ps, node))
    && forall i :: 0 <= i < |order| ==> order[i] in ps
  }

  /** The cluster after a failover, with table `got` in the copy. */
  ghost function FailedOver(c: Cluster, order: seq<nat>, seen: seq<nat>, got: nat): Cluster
    requires (forall i :: 0 <= i < |order| ==> order[i] in c.cached.partitions) && IsSeen(Promotions(order), seen) && got <= |order|
  {
    Afterwards(c, Promotions(order), seen, got)
  }

  /** What a failover leaves in the store. */
  lemma StoredAfterFailover(c: Cluster, node: string, order: seq<nat>, seen: seq<nat>, got: nat)
    requires c.cached == c.stored && Lists(order, c.cached.partitions, node) && IsSeen(Promotions(order), seen) && got <= |order|
    ensures var ps, done := c.cached.partitions, Listed(order, Kept(seen, |order|));
            && done <= Affected(ps, node)
            && FailedOver(c, order, seen, got).stored.partitions == PromotedSet(ps, done)
            && FailedOver(c, order, seen, got).stored.version == c.stored.version + |order|
  {
    hide PromotedSet, Affected, Kept;
    var ps := c.cached.partitions;
    PromotionsSurvive(c, order, seen);
    forall pid | pid in Listed(order, Kept(seen, |order|)) ensures pid in Affected(ps, node) {
      assert pid in order;
    }
    if order == [] {
      NothingPromoted(ps);
      NothingListed(Kept(seen, 0));
    }
  }

  /**
   * A failover promotes every affected partition exactly when each of its writes starts from
   * the table the one before has left: otherwise promotions are lost.
   */
  lemma FailoverNeedsDeliveries(c: Cluster, node: string, order: seq<nat>, seen: seq<nat>, got: nat)
    requires c.cached == c.stored && Lists(order, c.cached.partitions, node) && IsSeen(Promotions(order), seen) && got <= |order|
    ensures var ps := c.cached.partitions;
            FailedOver(c, order, seen, got).stored.partitions == PromotedSet(ps, Affected(ps, node)) <==> UpToDate(seen)
  {
    hide PromotedSet, Affected, FailedOver, Kept, Listed;
    var ps, all, kept := c.cached.partitions, Affected(c.cached.partitions, node), Kept(seen, |order|);
    StoredAfterFailover(c, node, order, seen, got);
    LostIffBehind(seen);
    if KeepsAll(seen) {
      AllListed(order, kept, all);
    } else {
      var i: nat :| i < |seen| && i !in kept;
      NotListedAt(order, kept, i);
      assert order[i] in order;
      Untouched(ps, node, Listed(order, kept), order[i]);
    }
  }

  lemma AllListed(order: seq<nat>, keep: set<nat>, all: set<nat>)
    requires (forall i: nat :: i < |order| ==> i in keep) && forall pid :: pid in order <==> pid in all
    ensures Listed(order, keep) == all
  {
    forall pid | pid in all ensures pid in Listed(order, keep) {
      assert pid in order;
    }
    forall pid | pid in Listed(order, keep) ensures pid in all {
      assert pid in order;
    }
  }

  lemma NotListedAt(order: seq<nat>, keep: set<nat>, i: nat)
    requires i < |order| && i !in keep && Distinct(order)
    ensures order[i] !in Listed(order, keep)
  {
  }

  lemma NothingPromoted(ps: Partitions)
    ensures PromotedSet(ps, {}) == ps
  {
  }

  // ---- Failover, then rebalance ----

  /** From a ring-aligned table, failover alone already puts every primary where the ring without the node puts it. */
  lemma FailoverFollowsRing(hash: Hash, nodes: set<string>, ps: Partitions, node: string, pid: nat)
    requires |nodes| >= 2 && node in nodes && NodesApart(hash, VIRTUAL_NODES, nodes)
    requires Aligned(hash, nodes, ps) && pid in ps
    ensures PromotedSet(ps, Affected(ps, node))[pid].primary == PrimaryFor(hash, nodes - {node}, pid)
  {
    var x := hash(PartitionLabel(pid));
    PairOfTwo(hash, VIRTUAL_NODES, nodes, x);
    NearestAfterRemoval(hash, VIRTUAL_NODES, nodes, x, node);
  }

  /**
   * Failing a node and rebalancing over the others moves the primary of exactly the node's
   * partitions, each once, raising exactly those epochs by one, and ends ring-aligned.
   */
  lemma FailoverThenRebalance(hash: Hash, nodes: set<string>, ps: Partitions, node: string)
    requires |nodes| >= 2 && node in nodes && NodesApart(hash, VIRTUAL_NODES, nodes) && Aligned(hash, nodes, ps)
    ensures var failed := PromotedSet(ps, Affected(ps, node));
            var after := Rebalanced(hash, nodes - {node}, failed);
            && after.Keys == ps.Keys
            && Aligned(hash, nodes - {node}, after)
            && forall pid :: pid in ps ==>
                 && after[pid].primary == failed[pid].primary
                 && (after[pid].primary != ps[pid].primary <==> ps[pid].primary == node)
                 && after[pid].epoch == ps[pid].epoch + (if ps[pid].primary == node then 1 else 0)
                 && after[pid].status == ps[pid].status
  {
    hide PrimaryFor, ReplicaFor, NodesApart;
    var failed := PromotedSet(ps, Affected(ps, node));
    var after := Rebalanced(hash, nodes - {node}, failed);
    forall pid | pid in ps
      ensures after[pid].primary == failed[pid].primary
      ensures after[pid].primary != ps[pid].primary <==> ps[pid].primary == node
      ensures after[pid].epoch == ps[pid].epoch + (if ps[pid].primary == node then 1 else 0)
    {
      FailoverFollowsRing(hash, nodes, ps, node, pid);
      PairApart(hash, nodes, pid);
    }
  }

  lemma UnchangedPairs(hash: Hash, nodes: set<string>, ps: Partitions)
    requires SamePairs(ps, Rebalanced(hash, nodes, ps))
    ensures Rebalanced(hash, nodes, ps) == ps
  {
  }

  /**
   * The same through the store: three or more nodes, every write reported before the next.
   * The failover writes once per affected partition, the rebalance at most once more.
   */
  lemma FailoverRun(hash: Hash, nodes: set<string>, c: Cluster, node: string, order: seq<nat>, seen: seq<nat>)
    requires |nodes| >= 3 && node in nodes && NodesApart(hash, VIRTUAL_NODES, nodes)
    requires c.cached == c.stored && Aligned(hash, nodes, c.stored.partitions)
    requires Lists(order, c.stored.partitions, node) && IsSeen(Promotions(order), seen) && UpToDate(seen)
    ensures var ps := c.stored.partitions;
            var failed := Deliver(FailedOver(c, order, seen, |order|));
            var after := Mutate(hash, failed, Rebalance(nodes - {node}));
            && failed.stored.partitions == PromotedSet(ps, Affected(ps, node))
            && after.stored.partitions == Rebalanced(hash, nodes - {node}, PromotedSet(ps, Affected(ps, node)))
            && failed.stored.version == c.stored.version + |order| <= after.stored.version <= failed.stored.version + 1
  {
    hide PromotedSet, Affected, Rebalanced, SamePairs, FailedOver;
    FailoverNeedsDeliveries(c, node, order, seen, |order|);
    StoredAfterFailover(c, node, order, seen, |order|);
    var failed := Deliver(FailedOver(c, order, seen, |order|));
    assert |nodes - {node}| == |nodes| - 1;
    if SamePairs(failed.cached.partitions, Rebalanced(hash, nodes - {node}, failed.cached.partitions)) {
      UnchangedPairs(hash, nodes - {node}, failed.cached.partitions);
    }
  }

  lemma StillAffected(ps: Partitions, node: string, done: set<nat>)
    requires Apart(ps) && done <= Affected(ps, node)
    ensures Affected(PromotedSet(ps, done), node) == Affected(ps, node) - done
  {
  }

  /**
   * A second failover of the same node before the rebalance has nothing to write exactly when
   * the first one lost no promotion.
   */
  lemma SecondFailoverChangesNothing(c: Cluster, node: string, order: seq<nat>, seen: seq<nat>, order2: seq<nat>)
    requires c.cached == c.stored && Apart(c.cached.partitions)
    requires Lists(order, c.cached.partitions, node) && IsSeen(Promotions(order), seen)
    requires var failed := Deliver(FailedOver(c, order, seen, 0)); Lists(order2, failed.cached.partitions, node)
    ensures order2 == [] <==> UpToDate(seen)
    ensures var failed := Deliver(FailedOver(c, order, seen, 0));
            UpToDate(seen) ==> FailedOver(failed, order2, [], 0) == failed
  {
    hide PromotedSet, Affected, FailedOver, Apart, Kept, Listed;
    var ps, done := c.cached.partitions, Listed(order, Kept(seen, |order|));
    FailoverNeedsDeliveries(c, node, order, seen, 0);
    StoredAfterFailover(c, node, order, seen, 0);
    StillAffected(ps, node, done);
    assert order2 == [] <==> Affected(ps, node) - done == {} by {
      if order2 != [] {
        assert order2[0] in order2;
      }
    }
    if Affected(ps, node) - done == {} {
      NothingLeft(Affected(ps, node), done);
    } else {
      var pid :| pid in Affected(ps, node) - done;
      Untouched(ps, node, done, pid);
    }
    if order2 == [] {
      NoFailover(Deliver(FailedOver(c, order, seen, 0)));
    }
  }

  lemma NoFailover(c: Cluster)
    requires c.cached == c.stored
    ensures FailedOver(c, [], [], 0) == c
  {
    assert Promotions([]) == [];
  }

  lemma NothingLeft(all: set<nat>, done: set<nat>)
    requires done <= all && all - done == {}
    ensures done == all
  {
    forall x | x in all ensures x in done {
      assert x !in all - done;
    }
  }

  lemma Untouched(ps: Partitions, node: string, done: set<nat>, pid: nat)
    requires pid in Affected(ps, node) && pid !in done
    ensures PromotedSet(ps, done) != PromotedSet(ps, Affected(ps, node))
  {
    assert PromotedSet(ps, done)[pid] != PromotedSet(ps, Affected(ps, node))[pid];
  }
}
