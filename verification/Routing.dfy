/** The route table, the operations that rewrite it, and what they keep over whole runs. */
module Routing {
  import opened Common
  import opened HashRing

  const VIRTUAL_NODES: nat := 150
  const MIN_REPLICA_NODES: nat := 2

  datatype Partition = Partition(primary: string, replica: string, status: PartitionStatus, epoch: nat)
  type Partitions = map<nat, Partition>
  datatype RouteTable = RouteTable(version: nat, partitions: Partitions)

  /** The table in etcd, and the router's copy of it, which only a watch delivery refreshes. */
  datatype Cluster = Cluster(stored: RouteTable, cached: RouteTable)

  // ---- The ring's assignment ----

  ghost function PrimaryFor(hash: Hash, nodes: set<string>, pid: nat): string {
    PrimaryAt(hash, VIRTUAL_NODES, nodes, hash(PartitionLabel(pid)))
  }

  ghost function ReplicaFor(hash: Hash, nodes: set<string>, pid: nat): string {
    ReplicaAt(hash, VIRTUAL_NODES, nodes, hash(PartitionLabel(pid)))
  }

  /** Every partition is where the ring over `nodes` puts it. */
  ghost predicate Aligned(hash: Hash, nodes: set<string>, ps: Partitions) {
    forall pid :: pid in ps ==> ps[pid].primary == PrimaryFor(hash, nodes, pid) && ps[pid].replica == ReplicaFor(hash, nodes, pid)
  }

  lemma PairApart(hash: Hash, nodes: set<string>, pid: nat)
    requires |nodes| >= 2
    ensures PrimaryFor(hash, nodes, pid) in nodes && ReplicaFor(hash, nodes, pid) in nodes
    ensures PrimaryFor(hash, nodes, pid) != ReplicaFor(hash, nodes, pid)
  {
    PairOfTwo(hash, VIRTUAL_NODES, nodes, hash(PartitionLabel(pid)));
  }

  // ---- Operations on the partitions ----

  /** `allocatePartitions`. */
  ghost function Allocated(hash: Hash, nodes: set<string>): Partitions {
    map pid | 0 <= pid < TOTAL_PARTITIONS :: Partition(PrimaryFor(hash, nodes, pid), ReplicaFor(hash, nodes, pid), Normal, 1)
  }

  ghost function RebalancedOne(hash: Hash, nodes: set<string>, pid: nat, p: Partition): Partition {
    var newPrimary := PrimaryFor(hash, nodes, pid);
    Partition(newPrimary, ReplicaFor(hash, nodes, pid), p.status, if p.primary == newPrimary then p.epoch else p.epoch + 1)
  }

  /** The table `RebalancePartitions` builds. */
  ghost function Rebalanced(hash: Hash, nodes: set<string>, ps: Partitions): Partitions {
    map pid | pid in ps :: RebalancedOne(hash, nodes, pid, ps[pid])
  }

  function Swapped(p: Partition): Partition {
    Partition(p.replica, p.primary, p.status, p.epoch + 1)
  }

  /** `PromoteReplica`: the two roles swap. */
  function Promoted(ps: Partitions, pid: nat): Partitions
    requires pid in ps
  {
    ps[pid := Swapped(ps[pid])]
  }

  function CompletedOne(p: Partition, node: string, isPrimary: bool): Partition {
    if isPrimary then
      Partition(node, if p.primary != node then p.primary else p.replica, Normal, p.epoch + 1)
    else
      Partition(p.primary, node, Normal, p.epoch)
  }

  /** `CompleteMigration`. */
  function Completed(ps: Partitions, pid: nat, node: string, isPrimary: bool): Partitions
    requires pid in ps
  {
    ps[pid := CompletedOne(ps[pid], node, isPrimary)]
  }

  datatype Mutation =
    | Rebalance(nodes: set<string>)
    | Promote(pid: nat)
    | SetStatus(pid: nat, status: PartitionStatus)
    | Complete(pid: nat, node: string, isPrimary: bool)

  /** The partitions an operation writes, or `None` when it fails or finds nothing to change. */
  ghost function Outcome(hash: Hash, ps: Partitions, m: Mutation): Option<Partitions> {
    match m
    case Rebalance(nodes) =>
      if |nodes| < MIN_REPLICA_NODES || SamePairs(ps, Rebalanced(hash, nodes, ps)) then None
      else Some(Rebalanced(hash, nodes, ps))
    case Promote(pid) => if pid in ps then Some(Promoted(ps, pid)) else None
    case SetStatus(pid, status) => if pid in ps then Some(ps[pid := ps[pid].(status := status)]) else None
    case Complete(pid, node, isPrimary) => if pid in ps then Some(Completed(ps, pid, node, isPrimary)) else None
  }

  /** No primary and no replica differs. */
  predicate SamePairs(a: Partitions, b: Partitions) {
    a.Keys == b.Keys && forall pid :: pid in a ==> a[pid].primary == b[pid].primary && a[pid].replica == b[pid].replica
  }

  /** `UpdateRouteTable`: the version is taken from the store, the rest overwritten without comparing. */
  function Write(c: Cluster, ps: Partitions): Cluster {
    c.(stored := RouteTable(c.stored.version + 1, ps))
  }

  function Deliver(c: Cluster): Cluster {
    c.(cached := c.stored)
  }

  /** Every operation starts from the router's copy. */
  ghost function Mutate(hash: Hash, c: Cluster, m: Mutation): Cluster {
    match Outcome(hash, c.cached.partitions, m)
    case None => c
    case Some(ps) => Write(c, ps)
  }

  // ---- Invariants of single operations ----

  /** No partition has one node in both roles. */
  predicate Apart(ps: Partitions) {
    forall pid :: pid in ps ==> ps[pid].primary != ps[pid].replica
  }

  /** Epochs never fall, and rise wherever the primary changes. */
  predicate Fenced(before: Partitions, after: Partitions) {
    && before.Keys == after.Keys
    && forall pid :: pid in before ==>
         && before[pid].epoch <= after[pid].epoch
         && (before[pid].primary != after[pid].primary ==> before[pid].epoch < after[pid].epoch)
  }

  /** A replica move keeps the roles apart exactly when it does not target the primary. */
  lemma CompletionKeepsApart(ps: Partitions, pid: nat, node: string, isPrimary: bool)
    requires Apart(ps) && pid in ps
    ensures Apart(Completed(ps, pid, node, isPrimary)) <==> isPrimary || node != ps[pid].primary
  {
    var after := Completed(ps, pid, node, isPrimary);
    assert after[pid] == CompletedOne(ps[pid], node, isPrimary);
  }

  ghost predicate Safe(ps: Partitions, m: Mutation) {
    m.Complete? && m.pid in ps && !m.isPrimary ==> m.node != ps[m.pid].primary
  }

  lemma OutcomeKeeps(hash: Hash, ps: Partitions, m: Mutation)
    requires Apart(ps) && Safe(ps, m)
    ensures var out := Outcome(hash, ps, m);
            out.Some? ==> Apart(out.value) && Fenced(ps, out.value)
  {
    match m {
      case Rebalance(nodes) =>
        if |nodes| >= MIN_REPLICA_NODES {
          forall pid | pid in ps ensures Rebalanced(hash, nodes, ps)[pid].primary != Rebalanced(hash, nodes, ps)[pid].replica {
            PairApart(hash, nodes, pid);
          }
        }
      case Promote(pid) =>
      case SetStatus(pid, status) =>
      case Complete(pid, node, isPrimary) =>
    }
  }

  lemma FencedTransitive(a: Partitions, b: Partitions, c: Partitions)
    requires Fenced(a, b) && Fenced(b, c)
    ensures Fenced(a, c)
  {
  }

  // ---- Whole runs ----

  /** The watch hands the router the table that was stored after the first `k` events. */
  datatype Event = Mutates(m: Mutation) | Delivers(k: nat)

  /** Runs after the one initial allocation; the watch may be late, and skip tables. */
  ghost predicate IsTableRun(hash: Hash, nodes: set<string>, cs: seq<Cluster>, events: seq<Event>) {
    && |cs| == |events| + 1
    && cs[0] == Cluster(RouteTable(2, Allocated(hash, nodes)), RouteTable(2, Allocated(hash, nodes)))
    && forall i :: 0 <= i < |events| ==> IsTableStep(hash, cs, events[i], i)
  }

  ghost predicate IsTableStep(hash: Hash, cs: seq<Cluster>, e: Event, i: nat)
    requires i + 1 < |cs|
  {
    match e
    case Delivers(k) => k <= i && cs[i + 1] == cs[i].(cached := cs[k].stored)
    case Mutates(m) => Safe(cs[i].cached.partitions, m) && cs[i + 1] == Mutate(hash, cs[i], m)
  }

  /** Every operation starts from an up-to-date copy. */
  ghost predicate IsCaughtUpRun(hash: Hash, nodes: set<string>, cs: seq<Cluster>, events: seq<Event>) {
    IsTableRun(hash, nodes, cs, events) &&
    forall i :: 0 <= i < |events| && events[i].Mutates? ==> cs[i].cached == cs[i].stored
  }

  /** How many of the first `n` events wrote the table. */
  ghost function WritesUpTo(hash: Hash, cs: seq<Cluster>, events: seq<Event>, n: nat): nat
    requires n <= |events| < |cs|
  {
    if n == 0 then 0
    else WritesUpTo(hash, cs, events, n - 1) +
         (if events[n - 1].Mutates? && Outcome(hash, cs[n - 1].cached.partitions, events[n - 1].m).Some? then 1 else 0)
  }

  lemma AllocatedApart(hash: Hash, nodes: set<string>)
    requires |nodes| >= MIN_REPLICA_NODES
    ensures Apart(Allocated(hash, nodes)) && Aligned(hash, nodes, Allocated(hash, nodes))
  {
    forall pid | 0 <= pid < TOTAL_PARTITIONS ensures PrimaryFor(hash, nodes, pid) != ReplicaFor(hash, nodes, pid) {
      PairApart(hash, nodes, pid);
    }
  }

  /**
   * Over every run, however late the watch is: the partition set stays, no partition has one
   * node in both roles, and the version goes up by one per write.
   */
  lemma {:induction false} RunKeepsTable(hash: Hash, nodes: set<string>, cs: seq<Cluster>, events: seq<Event>, j: nat)
    requires |nodes| >= MIN_REPLICA_NODES && IsTableRun(hash, nodes, cs, events) && j < |cs|
    ensures Apart(cs[j].stored.partitions) && cs[j].stored.partitions.Keys == Allocated(hash, nodes).Keys
    ensures Apart(cs[j].cached.partitions) && cs[j].cached.partitions.Keys == Allocated(hash, nodes).Keys
    ensures cs[j].stored.version == 2 + WritesUpTo(hash, cs, events, j)
    decreases j
  {
    hide Outcome, Allocated, Safe, Apart, Fenced;
    if j == 0 {
      AllocatedApart(hash, nodes);
    } else {
      RunKeepsTable(hash, nodes, cs, events, j - 1);
      assert IsTableStep(hash, cs, events[j - 1], j - 1);
      match events[j - 1] {
        case Delivers(k) => RunKeepsTable(hash, nodes, cs, events, k);
        case Mutates(m) =>
          OutcomeKeeps(hash, cs[j - 1].cached.partitions, m);
          FencedKeys(cs[j - 1].cached.partitions, cs[j].stored.partitions);
      }
    }
  }

  /** Over every caught-up run no epoch falls, and whenever a partition has a different primary its epoch is strictly higher. */
  lemma {:induction false} CaughtUpRunFences(hash: Hash, nodes: set<string>, cs: seq<Cluster>, events: seq<Event>, i: nat, j: nat)
    requires |nodes| >= MIN_REPLICA_NODES && IsCaughtUpRun(hash, nodes, cs, events) && i <= j < |cs|
    ensures Fenced(cs[i].stored.partitions, cs[j].stored.partitions)
    decreases j
  {
    hide Outcome, Allocated, Safe, Apart, Fenced;
    FencedReflexive(cs[j].stored.partitions);
    if i < j {
      CaughtUpRunFences(hash, nodes, cs, events, i, j - 1);
      RunKeepsTable(hash, nodes, cs, events, j - 1);
      var before := cs[j - 1].stored.partitions;
      assert IsTableStep(hash, cs, events[j - 1], j - 1);
      match events[j - 1] {
        case Delivers(_) =>
        case Mutates(m) =>
          OutcomeKeeps(hash, before, m);
          if Outcome(hash, before, m).Some? {
            FencedTransitive(cs[i].stored.partitions, before, cs[j].stored.partitions);
          }
      }
    }
  }

  /**
   * From a copy that is behind, a write takes epochs back: any partition promoted, then the status
   * of any other set before the watch reports the promotion.
   */
  lemma StaleWriteLowersEpoch(hash: Hash, nodes: set<string>, p: nat, q: nat, status: PartitionStatus)
      returns (cs: seq<Cluster>, events: seq<Event>)
    requires p < TOTAL_PARTITIONS && q < TOTAL_PARTITIONS && p != q
    ensures IsTableRun(hash, nodes, cs, events) && events == [Mutates(Promote(p)), Mutates(SetStatus(q, status))]
    ensures p in cs[1].stored.partitions && p in cs[2].stored.partitions
    ensures cs[2].stored.partitions[p].epoch < cs[1].stored.partitions[p].epoch
  {
    hide PrimaryFor, ReplicaFor;
    var c0 := Cluster(RouteTable(2, Allocated(hash, nodes)), RouteTable(2, Allocated(hash, nodes)));
    var c1 := Mutate(hash, c0, Promote(p));
    var c2 := Mutate(hash, c1, SetStatus(q, status));
    cs, events := [c0, c1, c2], [Mutates(Promote(p)), Mutates(SetStatus(q, status))];
    assert IsTableStep(hash, cs, events[0], 0) && IsTableStep(hash, cs, events[1], 1);
  }

  /**
   * From a copy of an earlier table of a fenced history, writing one partition takes no epoch
   * back exactly when no other epoch has risen since the copy and the written one is not behind.
   */
  lemma CopyFencesIff(stored: Partitions, copy: Partitions, pid: nat, p: Partition)
    requires Fenced(copy, stored) && pid in copy
    ensures Fenced(stored, copy[pid := p]) <==>
            && (forall q :: q in stored && q != pid ==> stored[q].epoch == copy[q].epoch)
            && stored[pid].epoch <= p.epoch && (stored[pid].primary != p.primary ==> stored[pid].epoch < p.epoch)
  {
    var after := copy[pid := p];
    assert after[pid] == p && forall q :: q in copy && q != pid ==> after[q] == copy[q];
    if Fenced(stored, after) {
      forall q | q in stored && q != pid ensures stored[q].epoch == copy[q].epoch {
        assert stored[q].epoch <= after[q].epoch;
      }
    }
  }

  lemma FencedReflexive(ps: Partitions)
    ensures Fenced(ps, ps)
  {
  }

  lemma FencedKeys(a: Partitions, b: Partitions)
    ensures Fenced(a, b) ==> a.Keys == b.Keys
  {
  }
}
