/** The router as an object: its copy of the table, the store, and the loops that rebuild tables. */
module RouterStore {
  import opened Common
  import opened HashRing
  import opened RingLookup
  import opened RingStore
  import opened Routing
  import opened TableWrites
  import opened Failover
  import opened MigrationPlan
  import opened Shutdown

  function SetOf(addrs: seq<string>): set<string> {
    set a | a in addrs
  }

  lemma {:induction false} DistinctAddrs(addrs: seq<string>)
    requires Distinct(addrs)
    ensures |SetOf(addrs)| == |addrs|
  {
    if addrs != [] {
      var init, last := addrs[..|addrs| - 1], addrs[|addrs| - 1];
      DistinctAddrs(init);
      assert SetOf(addrs) == SetOf(init) + {last};
      assert last !in init;
    }
  }

  /** Storage nodes have distinct non-empty addresses whose virtual nodes do not collide. */
  ghost predicate ProperNodes(hash: Hash, addrs: seq<string>) {
    Distinct(addrs) && "" !in addrs && CollisionFree(hash, VIRTUAL_NODES, SetOf(addrs))
  }

  ghost predicate IsRingOf(ring: ConsistentHash, hash: Hash, nodes: set<string>)
    reads ring
  {
    && ring.hash == hash && ring.virtualNodes == VIRTUAL_NODES
    && Consistent(hash, VIRTUAL_NODES, ring.View()) && ring.nodes == nodes
  }

  /** A ring over these nodes, added one by one. */
  method BuildRing(hash: Hash, addrs: seq<string>) returns (ring: ConsistentHash)
    requires ProperNodes(hash, addrs)
    ensures fresh(ring) && IsRingOf(ring, hash, SetOf(addrs))
  {
    hide Consistent, Added, CollisionFree;
    ring := new ConsistentHash(hash, DEFAULT_VIRTUAL_NODES);
    EmptyConsistent(hash, VIRTUAL_NODES);
    for i := 0 to |addrs|
      invariant fresh(ring) && ring.hash == hash && ring.virtualNodes == VIRTUAL_NODES
      invariant Consistent(hash, VIRTUAL_NODES, ring.View()) && ring.nodes == SetOf(addrs[..i])
    {
      assert addrs[i] in SetOf(addrs);
      NewPointsFresh(hash, VIRTUAL_NODES, ring.View(), addrs[i], SetOf(addrs));
      AddKeepsConsistent(hash, VIRTUAL_NODES, ring.View(), addrs[i]);
      ring.AddNode(addrs[i]);
      assert SetOf(addrs[..i + 1]) == SetOf(addrs[..i]) + {addrs[i]};
    }
    assert addrs[..|addrs|] == addrs;
  }

  method PairFor(ring: ConsistentHash, pid: nat, ghost hash: Hash, ghost nodes: set<string>)
    returns (primary: string, replica: string)
    requires IsRingOf(ring, hash, nodes)
    ensures primary == PrimaryFor(hash, nodes, pid) && replica == ReplicaFor(hash, nodes, pid)
  {
    StartsSorted(hash, VIRTUAL_NODES, ring.View());
    LookupIsNearest(hash, VIRTUAL_NODES, ring.View(), hash(PartitionLabel(pid)));
    primary, replica := ring.GetNodes(pid);
  }

  lemma EmptyConsistent(hash: Hash, v: nat)
    ensures Consistent(hash, v, EMPTY)
  {
  }

  function Clamp(k: nat, n: nat): (r: nat)
    ensures r <= n
  {
    if k <= n then k else n
  }

  /** Which table the copy holds at each of the first `n` writes, as the watch has it: no later one than there is. */
  function Seen(sees: nat -> nat, n: nat): (s: seq<nat>)
    ensures |s| == n && forall i :: 0 <= i < n ==> s[i] == Clamp(sees(i), i)
  {
    if n == 0 then [] else Seen(sees, n - 1) + [Clamp(sees(n - 1), n - 1)]
  }

  /** Only `pid` may differ. */
  predicate OthersKept(before: Partitions, after: Partitions, pid: nat) {
    before.Keys == after.Keys && forall q :: q in before && q != pid ==> after[q] == before[q]
  }

  /** High before normal before low. */
  predicate HighestFirst(a: Priority, b: Priority) {
    (b == High ==> a == High) && (a == Low ==> b == Low)
  }

  /**
   * An item moves its partition's primary or replica off the node that has the role now. A lost
   * primary is urgent, a lost replica comes with the primaries that merely move, the rest last.
   */
  predicate FitsItem(item: Item, p: Partition, online: set<string>) {
    && item.source == (if item.isPrimary then p.primary else p.replica) && item.source != item.target
    && (item.priority == High <==> item.isPrimary && p.primary !in online)
    && (item.priority == Low <==> !item.isPrimary && p.replica in online)
  }

  class Router {
    const hash: Hash
    var stored: RouteTable
    var cached: RouteTable

    ghost function View(): Cluster
      reads this
    {
      Cluster(stored, cached)
    }

    /** A router starts with an empty table, which is also what an empty store reads as. */
    constructor (hash: Hash)
      ensures this.hash == hash && View() == Cluster(RouteTable(1, map[]), RouteTable(1, map[]))
    {
      this.hash := hash;
      stored, cached := RouteTable(1, map[]), RouteTable(1, map[]);
    }

    method UpdateRouteTable(ps: Partitions)
      modifies this`stored
      ensures View() == Routing.Write(old(View()), ps)
    {
      stored := RouteTable(stored.version + 1, ps);
    }

    /** The watch hands the router the stored table. */
    method Deliver()
      modifies this`cached
      ensures View() == Routing.Deliver(old(View()))
    {
      cached := stored;
    }

    method AllocatePartitions(nodes: seq<string>)
      requires ProperNodes(hash, nodes)
      modifies this
      ensures stored == RouteTable(old(stored).version + 1, Allocated(hash, SetOf(nodes))) && cached == stored
      ensures forall pid :: pid in stored.partitions <==> 0 <= pid < 4096
      ensures forall pid :: pid in stored.partitions ==>
                && stored.partitions[pid].primary == PrimaryFor(hash, SetOf(nodes), pid)
                && stored.partitions[pid].replica == ReplicaFor(hash, SetOf(nodes), pid)
                && stored.partitions[pid].status == Normal && stored.partitions[pid].epoch == 1
    {
      hide PrimaryFor, ReplicaFor, IsRingOf;
      var ring := BuildRing(hash, nodes);
      var table: Partitions := map[];
      for i := 0 to TOTAL_PARTITIONS
        invariant IsRingOf(ring, hash, SetOf(nodes))
        invariant forall pid :: pid in table <==> 0 <= pid < i
        invariant forall pid :: pid in table ==> table[pid] == Allocated(hash, SetOf(nodes))[pid]
        invariant this.stored == old(stored)
      {
        var primary, replica := PairFor(ring, i, hash, SetOf(nodes));
        table := table[i := Partition(primary, replica, Normal, 1)];
      }
      assert table == Allocated(hash, SetOf(nodes));
      UpdateRouteTable(table);
      cached := stored;
    }

    method RebalancePartitions(online: seq<string>) returns (ok: bool)
      requires ProperNodes(hash, online)
      modifies this`stored
      ensures ok <==> |online| >= 2
      ensures View() == Mutate(hash, old(View()), Rebalance(SetOf(online)))
    {
      hide PrimaryFor, ReplicaFor, IsRingOf, CollisionFree;
      DistinctAddrs(online);
      if |online| < MIN_REPLICA_NODES {
        return false;
      }
      var ring := BuildRing(hash, online);
      var table, changes := RebalanceLoop(ring, cached.partitions, hash, SetOf(online));
      if changes > 0 {
        UpdateRouteTable(table);
      }
      return true;
    }

    static method RebalanceOne(ring: ConsistentHash, pid: nat, p: Partition, ghost hash: Hash, ghost nodes: set<string>)
      returns (q: Partition)
      requires IsRingOf(ring, hash, nodes)
      ensures q == RebalancedOne(hash, nodes, pid, p)
    {
      hide PrimaryFor, ReplicaFor, IsRingOf;
      var newPrimary, newReplica := PairFor(ring, pid, hash, nodes);
      q := Partition(newPrimary, newReplica, p.status, if p.primary != newPrimary then p.epoch + 1 else p.epoch);
    }

    /** The new table, and how many primaries and replicas differ from the old one. */
    static method RebalanceLoop(ring: ConsistentHash, ps: Partitions, ghost hash: Hash, ghost nodes: set<string>)
      returns (table: Partitions, changes: nat)
      requires IsRingOf(ring, hash, nodes)
      ensures table == Rebalanced(hash, nodes, ps)
      ensures changes == 0 <==> SamePairs(ps, table)
    {
      hide PrimaryFor, ReplicaFor, IsRingOf, RebalancedOne, SameSide, SamePairs;
      table := map[];
      SameSides(ps, map[]);
      var primaryChanges, replicaChanges := 0, 0;
      var todo := ps.Keys;
      while todo != {}
        invariant forall pid :: pid in todo ==> pid in ps
        invariant forall pid :: pid in table <==> pid in ps && pid !in todo
        invariant forall pid :: pid in table ==> table[pid] == RebalancedOne(hash, nodes, pid, ps[pid])
        invariant primaryChanges >= 0 && replicaChanges >= 0
        invariant primaryChanges == 0 <==> SameSide(ps, table, true)
        invariant replicaChanges == 0 <==> SameSide(ps, table, false)
        decreases |todo|
      {
        var pid :| pid in todo;
        var q := RebalanceOne(ring, pid, ps[pid], hash, nodes);
        if ps[pid].primary != q.primary {
          primaryChanges := primaryChanges + 1;
        }
        if ps[pid].replica != q.replica {
          replicaChanges := replicaChanges + 1;
        }
        SameSideStep(ps, table, pid, q, true);
        SameSideStep(ps, table, pid, q, false);
        table := table[pid := q];
        todo := todo - {pid};
      }
      assert table.Keys == ps.Keys;
      SameSides(ps, table);
      changes := primaryChanges + replicaChanges;
    }

    method PromoteReplica(pid: nat) returns (ok: bool)
      modifies this`stored
      ensures ok <==> pid in cached.partitions
      ensures View() == Mutate(hash, old(View()), Promote(pid))
      ensures stored.version == old(stored).version + if ok then 1 else 0
      ensures ok ==> Fenced(cached.partitions, stored.partitions) && OthersKept(cached.partitions, stored.partitions, pid)
      ensures ok && Apart(cached.partitions) ==> Apart(stored.partitions)
      ensures ok ==>
                var p, q := cached.partitions[pid], stored.partitions[pid];
                q.primary == p.replica && q.replica == p.primary && q.epoch == p.epoch + 1 && q.status == p.status
    {
      if pid !in cached.partitions {
        return false;
      }
      var p := cached.partitions[pid];
      UpdateRouteTable(cached.partitions[pid := Partition(p.replica, p.primary, p.status, p.epoch + 1)]);
      return true;
    }

    method SetPartitionStatus(pid: nat, status: PartitionStatus) returns (ok: bool)
      modifies this`stored
      ensures ok <==> pid in cached.partitions
      ensures View() == Mutate(hash, old(View()), SetStatus(pid, status))
      ensures stored.version == old(stored).version + if ok then 1 else 0
      ensures ok ==> Fenced(cached.partitions, stored.partitions) && SamePairs(cached.partitions, stored.partitions)
      ensures ok ==> stored.partitions[pid].status == status && stored.partitions[pid].epoch == cached.partitions[pid].epoch
      ensures ok ==> OthersKept(cached.partitions, stored.partitions, pid)
    {
      if pid !in cached.partitions {
        return false;
      }
      UpdateRouteTable(cached.partitions[pid := cached.partitions[pid].(status := status)]);
      return true;
    }

    method CompleteMigration(pid: nat, node: string, isPrimary: bool) returns (ok: bool)
      modifies this`stored
      ensures ok <==> pid in cached.partitions
      ensures View() == Mutate(hash, old(View()), Complete(pid, node, isPrimary))
      ensures stored.version == old(stored).version + if ok then 1 else 0
      ensures ok ==> Fenced(cached.partitions, stored.partitions) && OthersKept(cached.partitions, stored.partitions, pid)
      ensures ok && Apart(cached.partitions) ==>
                (Apart(stored.partitions) <==> isPrimary || node != cached.partitions[pid].primary)
      ensures ok ==>
                var p, q := cached.partitions[pid], stored.partitions[pid];
                && q.status == Normal
                && (isPrimary ==> q.primary == node && q.epoch == p.epoch + 1)
                && (isPrimary && p.primary != node ==> q.replica == p.primary)
                && (isPrimary && p.primary == node ==> q.replica == p.replica)
                && (!isPrimary ==> q.replica == node && q.primary == p.primary && q.epoch == p.epoch)
    {
      if pid !in cached.partitions {
        return false;
      }
      var p := cached.partitions[pid];
      var q := p;
      if isPrimary {
        q := q.(primary := node);
        if p.primary != node {
          q := q.(replica := p.primary);
        }
        q := q.(epoch := p.epoch + 1);
      } else {
        q := q.(replica := node);
      }
      q := q.(status := Normal);
      UpdateRouteTable(cached.partitions[pid := q]);
      return true;
    }

    /** What the writes `ms` of one operation have left so far: `tables` is all of it, from the first copy on. */
    ghost predicate Wrote(was: Cluster, ms: seq<Mutation>, sees: nat -> nat, tables: seq<RouteTable>)
      reads this
    {
      && AreMoves(was.cached.partitions, ms)
      && tables == History(was, ms, Seen(sees, |ms|))
      && stored == if ms == [] then was.stored else tables[|ms|]
    }

    /** The watch sets the copy to some earlier table, then one more write starts from it. */
    method WriteNext(m: Mutation, sees: nat -> nat, tables: seq<RouteTable>, ghost was: Cluster, ghost ms: seq<Mutation>)
      returns (next: seq<RouteTable>)
      requires IsMove(was.cached.partitions, m) && Wrote(was, ms, sees, tables)
      modifies this
      ensures Wrote(was, ms + [m], sees, next)
    {
      hide History, Mutate, Seen, Fenced, SamePairs, Apart, OthersKept;
      var n := |tables| - 1;
      var got := Clamp(sees(n), n);
      cached := tables[got];
      SeenOneMore(sees, |ms|);
      NextTable(hash, was, ms, Seen(sees, |ms|), got, m);
      assert View() == Afterwards(was, ms, Seen(sees, |ms|), got);
      Move(m);
      next := tables + [stored];
    }

    method Move(m: Mutation)
      requires IsMove(cached.partitions, m)
      modifies this`stored
      ensures View() == Mutate(hash, old(View()), m)
    {
      if m.Promote? {
        var _ := PromoteReplica(m.pid);
      } else {
        var _ := CompleteMigration(m.pid, m.node, m.isPrimary);
      }
    }

    /** And once more after the last write. */
    method WatchLast(sees: nat -> nat, tables: seq<RouteTable>, ghost was: Cluster, ghost ms: seq<Mutation>)
      requires Wrote(was, ms, sees, tables)
      modifies this`cached
      ensures View() == Afterwards(was, ms, Seen(sees, |ms|), Clamp(sees(|ms|), |ms|))
    {
      cached := tables[Clamp(sees(|tables| - 1), |tables| - 1)];
    }

    /**
     * `handleNodeFailure`: note the partitions led by the node, then promote them one by one, from
     * whatever table the watch has the copy at by then.
     */
    method HandleNodeFailure(node: string, sees: nat -> nat) returns (order: seq<nat>)
      modifies this
      ensures Lists(order, old(cached).partitions, node)
      ensures View() == FailedOver(old(View()), order, Seen(sees, |order|), Clamp(sees(|order|), |order|))
    {
      hide History;
      order := ListLed(node);
      var tables := [cached];
      FirstOnly(View());
      assert Promotions(order[..0]) == [];
      for i := 0 to |order|
        invariant Wrote(old(View()), Promotions(order[..i]), sees, tables)
      {
        assert Promotions(order[..i + 1]) == Promotions(order[..i]) + [Promote(order[i])];
        tables := WriteNext(Promote(order[i]), sees, tables, old(View()), Promotions(order[..i]));
      }
      assert order[..|order|] == order;
      WatchLast(sees, tables, old(View()), Promotions(order));
    }

    method ListLed(node: string) returns (order: seq<nat>)
      ensures Lists(order, cached.partitions, node)
    {
      order := [];
      var todo := cached.partitions.Keys;
      while todo != {}
        invariant todo <= cached.partitions.Keys
        invariant Distinct(order) && forall pid :: pid in order <==> pid in Affected(cached.partitions, node) && pid !in todo
        decreases |todo|
      {
        var pid :| pid in todo;
        if cached.partitions[pid].primary == node {
          order := order + [pid];
        }
        todo := todo - {pid};
      }
      forall i | 0 <= i < |order| ensures order[i] in cached.partitions {
        assert order[i] in order;
      }
    }

    /** `calculateMigrationPlan`: compare every partition with the ring, then put high priorities first. */
    method CalculateMigrationPlan(online: seq<string>) returns (plan: seq<Item>)
      requires ProperNodes(hash, online)
      ensures |online| < 2 ==> plan == []
      ensures |online| >= 2 ==> IsPlan(hash, SetOf(online), cached.partitions, plan)
      ensures forall i, j :: 0 <= i < j < |plan| ==> HighestFirst(plan[i].priority, plan[j].priority)
      ensures |online| >= 2 ==> forall i :: 0 <= i < |plan| ==>
                plan[i].pid in cached.partitions && FitsItem(plan[i], cached.partitions[plan[i].pid], SetOf(online))
    {
      hide PrimaryFor, ReplicaFor, IsRingOf, CollisionFree, ItemsOf, ItemsFor, SortItems;
      plan := [];
      if |online| < MIN_REPLICA_NODES {
        return;
      }
      var ring := BuildRing(hash, online);
      var addrSet := SetOf(online);
      var todo := cached.partitions.Keys;
      NoItems(cached.partitions);
      while todo != {}
        invariant IsRingOf(ring, hash, SetOf(online)) && todo <= cached.partitions.Keys
        invariant forall i :: 0 <= i < |plan| ==> plan[i].pid in cached.partitions
        invariant forall pid :: pid in cached.partitions ==>
                    ItemsOf(plan, pid) == if pid in todo then [] else ItemsFor(hash, SetOf(online), pid, cached.partitions[pid])
        decreases |todo|
      {
        var pid :| pid in todo;
        var items := PlanOne(ring, pid, cached.partitions[pid], addrSet, hash, SetOf(online));
        AppendItems(plan, items, pid);
        plan := plan + items;
        todo := todo - {pid};
      }
      SortedPlan(hash, SetOf(online), cached.partitions, plan);
      plan := SortItems(plan);
      ItemsFit(hash, SetOf(online), cached.partitions, plan);
      hide ByPriority;
      SortedHighestFirst(plan);
    }

    static method PlanOne(ring: ConsistentHash, pid: nat, p: Partition, addrSet: set<string>,
                          ghost hash: Hash, ghost nodes: set<string>) returns (items: seq<Item>)
      requires IsRingOf(ring, hash, nodes) && addrSet == nodes
      ensures items == ItemsFor(hash, nodes, pid, p)
      ensures forall i :: 0 <= i < |items| ==> items[i].pid == pid
    {
      hide PrimaryFor, ReplicaFor, IsRingOf;
      items := [];
      var newPrimary, newReplica := PairFor(ring, pid, hash, nodes);
      if p.primary != newPrimary {
        var priority := NormalPriority;
        if p.primary !in addrSet {
          priority := High;
        }
        // promoting the replica and migrating to a third node make the same item
        items := items + [Item(pid, p.primary, if p.replica == newPrimary then p.replica else newPrimary, true, priority)];
      }
      if p.replica != newReplica && p.primary != newReplica {
        var priority := Low;
        if p.replica !in addrSet {
          priority := NormalPriority;
        }
        items := items + [Item(pid, p.replica, newReplica, false, priority)];
      }
    }

    /**
     * `ShutdownNode` without a scheduler; `sees` says which table the watch has the copy at when
     * each write starts.
     */
    method ShutdownNode(node: string, targets: seq<string>, sees: nat -> nat)
      returns (migrated: Option<nat>, ghost ms: seq<Mutation>)
      requires ProperNodes(hash, targets) && node !in targets
      modifies this
      ensures migrated.None? <==> targets == []
      ensures migrated.None? ==> View() == old(View())
      ensures migrated.Some? ==>
                var ps, rest := old(cached).partitions, SetOf(targets);
                && IsDrain(hash, rest, node, ps, ms)
                && View() == Afterwards(old(View()), ms, Seen(sees, |ms|), Clamp(sees(|ms|), |ms|))
                && migrated.value == |Affected(ps, node)| + |ReplicaMoves(hash, rest, ps, node)|
    {
      hide PrimaryFor, ReplicaFor, IsRingOf, CollisionFree, ReplicaMoves, Affected, DrainMoves, History;
      ms := [];
      if |targets| < MIN_REPLICA_NODES - 1 {
        return None, ms;
      }
      var table := cached.partitions;
      var ring := BuildRing(hash, targets);
      var promoted, moved, tables;
      promoted, tables, ms := DrainPrimaries(ring, node, table, sees, SetOf(targets), View());
      moved, tables, ms := DrainReplicas(ring, node, table, sees, tables, SetOf(targets), old(View()), ms);
      WatchLast(sees, tables, old(View()), ms);
      return Some(promoted + moved), ms;
    }

    /** The primary loop. */
    method DrainPrimaries(ring: ConsistentHash, node: string, table: Partitions, sees: nat -> nat,
                          ghost rest: set<string>, ghost was: Cluster)
      returns (count: nat, tables: seq<RouteTable>, ghost ms: seq<Mutation>)
      requires IsRingOf(ring, hash, rest) && ring != this as object
      requires was == View() && table == cached.partitions
      modifies this
      ensures IsRingOf(ring, hash, rest) && Wrote(was, ms, sees, tables) && count == |Affected(table, node)|
      ensures Covers(hash, rest, node, table, ms, Affected(table, node))
    {
      hide PrimaryFor, ReplicaFor, IsRingOf, DrainMoves, Covers, Wrote, Progress;
      count, tables, ms := 0, [cached], [];
      var todo := set pid | pid in table && table[pid].primary == node;
      ghost var led, done: set<nat> := Affected(table, node), {};
      CoversNothing(hash, rest, node, table);
      WroteNothing(was, sees);
      ProgressStarts({}, led, todo);
      while todo != {}
        invariant IsRingOf(ring, hash, rest) && Wrote(was, ms, sees, tables)
        invariant todo <= led && Covers(hash, rest, node, table, ms, done)
        invariant Progress({}, led, todo, done) && count == |done|
        decreases |todo|
      {
        var pid :| pid in todo;
        ProgressOne({}, led, todo, done, pid);
        CoversOneMore(hash, rest, node, table, ms, done, pid);
        tables, ms := DrainPrimary(ring, node, pid, table, sees, tables, rest, was, ms);
        todo, done := todo - {pid}, done + {pid};
        count := count + 1;
      }
      ProgressEnds({}, led, done);
      assert {} + led == led;
    }

    /** The replica loop, over the partitions not handled above. */
    method DrainReplicas(ring: ConsistentHash, node: string, table: Partitions, sees: nat -> nat, tables0: seq<RouteTable>,
                         ghost rest: set<string>, ghost was: Cluster, ghost ms0: seq<Mutation>)
      returns (count: nat, tables: seq<RouteTable>, ghost ms: seq<Mutation>)
      requires IsRingOf(ring, hash, rest) && ring != this as object && table == was.cached.partitions
      requires Wrote(was, ms0, sees, tables0) && Covers(hash, rest, node, table, ms0, Affected(table, node))
      modifies this
      ensures Wrote(was, ms, sees, tables) && count == |ReplicaMoves(hash, rest, table, node)|
      ensures IsDrain(hash, rest, node, table, ms)
    {
      hide PrimaryFor, ReplicaFor, IsRingOf, DrainMoves, Covers, Wrote, Affected, ReplicaMoves, Progress, IsDrain;
      count, tables, ms := 0, tables0, ms0;
      var todo := set pid | pid in table && table[pid].replica == node && table[pid].primary != node;
      ghost var held, led, moves := todo, Affected(table, node), ReplicaMoves(hash, rest, table, node);
      ghost var done, shifted: set<nat> := led, {};
      MovesAmong(hash, rest, table, node);
      NotLed(table, node);
      ProgressStarts(led, held, todo);
      ProgressStarts({}, moves, todo);
      while todo != {}
        invariant IsRingOf(ring, hash, rest) && Wrote(was, ms, sees, tables)
        invariant todo <= held && Covers(hash, rest, node, table, ms, done)
        invariant Progress(led, held, todo, done) && Progress({}, moves, todo, shifted) && count == |shifted|
        decreases |todo|
      {
        var pid :| pid in todo;
        ProgressOne(led, held, todo, done, pid);
        ProgressOne({}, moves, todo, shifted, pid);
        CoversOneMore(hash, rest, node, table, ms, done, pid);
        var moved;
        moved, tables, ms := DrainReplica(ring, node, pid, table, sees, tables, rest, was, ms);
        todo, done := todo - {pid}, done + {pid};
        if moved {
          count, shifted := count + 1, shifted + {pid};
        }
      }
      ProgressEnds(led, held, done);
      ProgressEnds({}, moves, shifted);
      CoversAll(hash, rest, node, table, ms);
    }

    /** The primary loop's body for one partition. */
    method DrainPrimary(ring: ConsistentHash, node: string, pid: nat, table: Partitions, sees: nat -> nat, tables0: seq<RouteTable>,
                        ghost rest: set<string>, ghost was: Cluster, ghost ms0: seq<Mutation>)
      returns (tables: seq<RouteTable>, ghost ms: seq<Mutation>)
      requires IsRingOf(ring, hash, rest) && ring != this as object && table == was.cached.partitions
      requires Wrote(was, ms0, sees, tables0) && pid in table && table[pid].primary == node
      modifies this
      ensures IsRingOf(ring, hash, rest) && Wrote(was, ms, sees, tables)
      ensures ms == ms0 + DrainMoves(hash, rest, node, pid, table[pid])
    {
      hide PrimaryFor, ReplicaFor, IsRingOf, Wrote;
      var p := table[pid];
      var newPrimary, newReplica := PairFor(ring, pid, hash, rest);
      var first := if p.replica != "" && p.replica != node then Promote(pid) else Complete(pid, newPrimary, true);
      tables := WriteNext(first, sees, tables0, was, ms0);
      ms := ms0 + [first];
      if p.replica == node && newReplica != "" {
        var second := Complete(pid, newReplica, false);
        tables := WriteNext(second, sees, tables, was, ms);
        assert ms + [second] == ms0 + ([first] + [second]);
        ms := ms + [second];
      }
      assert ms0 + ([first] + []) == ms0 + [first];
    }

    /** The replica loop's body for one partition. */
    method DrainReplica(ring: ConsistentHash, node: string, pid: nat, table: Partitions, sees: nat -> nat, tables0: seq<RouteTable>,
                        ghost rest: set<string>, ghost was: Cluster, ghost ms0: seq<Mutation>)
      returns (moved: bool, tables: seq<RouteTable>, ghost ms: seq<Mutation>)
      requires IsRingOf(ring, hash, rest) && ring != this as object && table == was.cached.partitions
      requires Wrote(was, ms0, sees, tables0)
      requires pid in table && table[pid].primary != node && table[pid].replica == node
      modifies this
      ensures IsRingOf(ring, hash, rest) && Wrote(was, ms, sees, tables)
      ensures ms == ms0 + DrainMoves(hash, rest, node, pid, table[pid])
      ensures moved <==> ReplicaFor(hash, rest, pid) != ""
    {
      hide PrimaryFor, ReplicaFor, IsRingOf, Wrote;
      var _, newReplica := PairFor(ring, pid, hash, rest);
      if newReplica == "" {
        assert ms0 + [] == ms0;
        return false, tables0, ms0;
      }
      var m := Complete(pid, newReplica, false);
      tables := WriteNext(m, sees, tables0, was, ms0);
      assert [] + [m] == [m];
      return true, tables, ms0 + [m];
    }

    lemma WroteNothing(was: Cluster, sees: nat -> nat)
      requires was == View()
      ensures Wrote(was, [], sees, [cached])
    {
    }
  }

  lemma SeenOneMore(sees: nat -> nat, n: nat)
    ensures Seen(sees, n + 1) == Seen(sees, n) + [Clamp(sees(n), n)]
  {
  }

  lemma NextTable(hash: Hash, c: Cluster, ms: seq<Mutation>, seen: seq<nat>, got: nat, m: Mutation)
    requires AreMoves(c.cached.partitions, ms) && IsSeen(ms, seen) && got <= |ms| && IsMove(c.cached.partitions, m)
    ensures AreMoves(c.cached.partitions, ms + [m]) && IsSeen(ms + [m], seen + [got])
    ensures var now := Mutate(hash, Afterwards(c, ms, seen, got), m).stored;
            History(c, ms + [m], seen + [got]) == History(c, ms, seen) + [now]
  {
    hide History, Mutate;
    OneMoreWrite(hash, c, ms, seen, got, m);
    var h := History(c, ms + [m], seen + [got]);
    assert h == h[..|ms| + 1] + [h[|ms| + 1]];
  }

  lemma FirstOnly(c: Cluster)
    ensures History(c, [], []) == [c.cached]
  {
  }

  /** No primary, or no replica, in `b` differs from the one in `a`. */
  ghost predicate SameSide(a: Partitions, b: Partitions, isPrimary: bool) {
    forall pid :: pid in b && pid in a ==> if isPrimary then b[pid].primary == a[pid].primary else b[pid].replica == a[pid].replica
  }

  lemma SameSideStep(a: Partitions, b: Partitions, pid: nat, q: Partition, isPrimary: bool)
    requires pid in a && pid !in b
    ensures SameSide(a, b[pid := q], isPrimary) <==>
            SameSide(a, b, isPrimary) && if isPrimary then q.primary == a[pid].primary else q.replica == a[pid].replica
  {
    assert forall x :: x in b ==> b[pid := q][x] == b[x];
    assert b[pid := q][pid] == q;
  }

  lemma SameSides(a: Partitions, b: Partitions)
    ensures a.Keys == b.Keys ==> (SamePairs(a, b) <==> SameSide(a, b, true) && SameSide(a, b, false))
    ensures b == map[] ==> SameSide(a, b, true) && SameSide(a, b, false)
  {
  }

  // ---- Plans ----

  predicate ByPriority(plan: seq<Item>) {
    forall i, j :: 0 <= i < j < |plan| ==> Rank(plan[i].priority) >= Rank(plan[j].priority)
  }

  function InsertItem(plan: seq<Item>, x: Item): seq<Item> {
    if plan == [] || Rank(x.priority) >= Rank(plan[0].priority) then [x] + plan else [plan[0]] + InsertItem(plan[1..], x)
  }

  function SortItems(plan: seq<Item>): seq<Item> {
    if plan == [] then [] else InsertItem(SortItems(plan[1..]), plan[0])
  }

  lemma {:induction false} InsertItemKeeps(plan: seq<Item>, x: Item)
    requires ByPriority(plan)
    ensures ByPriority(InsertItem(plan, x)) && multiset(InsertItem(plan, x)) == multiset(plan) + multiset{x}
    ensures InsertItem(plan, x)[0] == x || (plan != [] && InsertItem(plan, x)[0] == plan[0])
  {
    if plan == [] || Rank(x.priority) >= Rank(plan[0].priority) {
      ByPriorityCons(x, plan);
    } else {
      hide Rank;
      assert ByPriority(plan[1..]);
      InsertItemKeeps(plan[1..], x);
      assert plan == [plan[0]] + plan[1..];
      hide ByPriority;
      ByPriorityCons(plan[0], InsertItem(plan[1..], x));
    }
  }

  lemma ByPriorityCons(x: Item, plan: seq<Item>)
    requires ByPriority(plan) && (plan != [] ==> Rank(x.priority) >= Rank(plan[0].priority))
    ensures ByPriority([x] + plan)
  {
    assert forall i :: 0 <= i < |plan| ==> Rank(plan[0].priority) >= Rank(plan[i].priority);
  }

  lemma {:induction false} SortItemsKeeps(plan: seq<Item>)
    ensures ByPriority(SortItems(plan)) && multiset(SortItems(plan)) == multiset(plan)
  {
    if plan != [] {
      SortItemsKeeps(plan[1..]);
      InsertItemKeeps(SortItems(plan[1..]), plan[0]);
      assert plan == [plan[0]] + plan[1..];
    }
  }

  /** Reordering a plan leaves a plan. */
  lemma PermutationIsPlan(hash: Hash, nodes: set<string>, ps: Partitions, plan: seq<Item>, other: seq<Item>)
    requires IsPlan(hash, nodes, ps, plan) && multiset(other) == multiset(plan)
    ensures IsPlan(hash, nodes, ps, other)
  {
    hide ItemsFor, ItemsOf;
    forall i | 0 <= i < |other| ensures other[i].pid in ps {
      assert other[i] in multiset(other);
      assert other[i] in plan;
    }
    forall pid | pid in ps ensures multiset(ItemsOf(other, pid)) == multiset(ItemsOf(plan, pid)) {
      forall x ensures multiset(ItemsOf(other, pid))[x] == multiset(ItemsOf(plan, pid))[x] {
        ItemsOfCount(other, pid, x);
        ItemsOfCount(plan, pid, x);
      }
    }
  }

  lemma SortedHighestFirst(plan: seq<Item>)
    requires ByPriority(plan)
    ensures forall i, j :: 0 <= i < j < |plan| ==> HighestFirst(plan[i].priority, plan[j].priority)
  {
  }

  lemma ItemsFit(hash: Hash, nodes: set<string>, ps: Partitions, plan: seq<Item>)
    requires IsPlan(hash, nodes, ps, plan)
    ensures forall i :: 0 <= i < |plan| ==> plan[i].pid in ps && FitsItem(plan[i], ps[plan[i].pid], nodes)
  {
    hide IsPlan, PrimaryFor, ReplicaFor;
    forall i | 0 <= i < |plan| ensures plan[i].pid in ps && FitsItem(plan[i], ps[plan[i].pid], nodes) {
      PlanInTable(hash, nodes, ps, plan, i);
      SameItems(hash, nodes, ps, plan, plan[i].pid, plan[i]);
    }
  }

  lemma SortedPlan(hash: Hash, nodes: set<string>, ps: Partitions, plan: seq<Item>)
    requires IsPlan(hash, nodes, ps, plan)
    ensures IsPlan(hash, nodes, ps, SortItems(plan)) && ByPriority(SortItems(plan))
  {
    SortItemsKeeps(plan);
    PermutationIsPlan(hash, nodes, ps, plan, SortItems(plan));
  }

  lemma NoItems(ps: Partitions)
    ensures forall pid :: pid in ps ==> ItemsOf([], pid) == []
  {
  }

  lemma {:induction false} ItemsOfConcat(a: seq<Item>, b: seq<Item>, pid: nat)
    ensures ItemsOf(a + b, pid) == ItemsOf(a, pid) + ItemsOf(b, pid)
  {
    if a == [] {
      assert a + b == b;
    } else {
      ItemsOfConcat(a[1..], b, pid);
      assert (a + b)[1..] == a[1..] + b;
      Assoc(if a[0].pid == pid then [a[0]] else [], ItemsOf(a[1..], pid), ItemsOf(b, pid));
    }
  }

  lemma {:induction false} OwnItems(items: seq<Item>, pid: nat, q: nat)
    requires forall i :: 0 <= i < |items| ==> items[i].pid == pid
    ensures ItemsOf(items, q) == if q == pid then items else []
  {
    if items != [] {
      OwnItems(items[1..], pid, q);
    }
  }

  lemma AppendItems(plan: seq<Item>, items: seq<Item>, pid: nat)
    requires forall i :: 0 <= i < |items| ==> items[i].pid == pid
    ensures forall q :: ItemsOf(plan + items, q) == ItemsOf(plan, q) + (if q == pid then items else [])
  {
    forall q ensures ItemsOf(plan + items, q) == ItemsOf(plan, q) + (if q == pid then items else []) {
      ItemsOfConcat(plan, items, q);
      OwnItems(items, pid, q);
    }
  }

  // ---- Draining ----

  ghost function ReplicaMoves(hash: Hash, rest: set<string>, ps: Partitions, node: string): set<nat> {
    set pid | pid in ps && ps[pid].replica == node && ps[pid].primary != node && ReplicaFor(hash, rest, pid) != ""
  }

  /** These writes are the ones the partitions in `done` ask for, and no others. */
  ghost predicate Covers(hash: Hash, rest: set<string>, node: string, ps: Partitions, ms: seq<Mutation>, done: set<nat>) {
    AreMoves(ps, ms) &&
    forall pid :: pid in ps ==> MovesOf(ms, pid) == if pid in done then DrainMoves(hash, rest, node, pid, ps[pid]) else []
  }

  lemma CoversNothing(hash: Hash, rest: set<string>, node: string, ps: Partitions)
    ensures Covers(hash, rest, node, ps, [], {})
  {
  }

  lemma CoversOneMore(hash: Hash, rest: set<string>, node: string, ps: Partitions, ms: seq<Mutation>, done: set<nat>, pid: nat)
    requires Covers(hash, rest, node, ps, ms, done) && pid in ps && pid !in done
    ensures Covers(hash, rest, node, ps, ms + DrainMoves(hash, rest, node, pid, ps[pid]), done + {pid})
  {
    hide DrainMoves, MovesOf;
    var more := DrainMoves(hash, rest, node, pid, ps[pid]);
    forall q | q in ps
      ensures MovesOf(ms + more, q) == if q in done + {pid} then DrainMoves(hash, rest, node, q, ps[q]) else []
    {
      MovesOfConcat(ms, more, q);
      OwnMoves(more, pid, q);
      assert [] + more == more && MovesOf(ms, q) + [] == MovesOf(ms, q);
    }
  }

  lemma CoversAll(hash: Hash, rest: set<string>, node: string, ps: Partitions, ms: seq<Mutation>)
    requires var held := set pid | pid in ps && ps[pid].replica == node && ps[pid].primary != node;
             Covers(hash, rest, node, ps, ms, Affected(ps, node) + held)
    ensures IsDrain(hash, rest, node, ps, ms)
  {
  }

  lemma NotLed(ps: Partitions, node: string)
    ensures forall pid :: pid in Affected(ps, node) ==> pid in ps && ps[pid].primary == node
  {
  }

  /** A loop over `todo` has added to `start` the members of `goal` it has visited. */
  ghost predicate Progress(start: set<nat>, goal: set<nat>, todo: set<nat>, done: set<nat>) {
    forall x :: x in done <==> x in start || (x in goal && x !in todo)
  }

  lemma ProgressStarts(start: set<nat>, goal: set<nat>, todo: set<nat>)
    requires goal <= todo
    ensures Progress(start, goal, todo, start)
  {
  }

  lemma ProgressOne(start: set<nat>, goal: set<nat>, todo: set<nat>, done: set<nat>, x: nat)
    requires Progress(start, goal, todo, done) && x in todo && x !in start
    ensures x !in done
    ensures Progress(start, goal, todo - {x}, if x in goal then done + {x} else done)
  {
  }

  lemma ProgressEnds(start: set<nat>, goal: set<nat>, done: set<nat>)
    requires Progress(start, goal, {}, done)
    ensures done == start + goal
  {
  }

  lemma MovesAmong(hash: Hash, rest: set<string>, ps: Partitions, node: string)
    ensures var held := set pid | pid in ps && ps[pid].replica == node && ps[pid].primary != node;
            ReplicaMoves(hash, rest, ps, node) <= held
    ensures forall pid :: pid in ps && ps[pid].replica == node && ps[pid].primary != node ==>
              (pid in ReplicaMoves(hash, rest, ps, node) <==> ReplicaFor(hash, rest, pid) != "")
  {
  }
}
