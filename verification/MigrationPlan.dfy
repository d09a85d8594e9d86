/** Migration planning: what a plan holds, and where completing plans leads. */
module MigrationPlan {
  import opened HashRing
  import opened Routing
  import opened TableWrites

  datatype Priority = Low | NormalPriority | High

  function Rank(p: Priority): nat {
    match p case Low => 0 case NormalPriority => 1 case High => 2
  }

  datatype Item = Item(pid: nat, source: string, target: string, isPrimary: bool, priority: Priority)

  ghost function PrimaryItem(hash: Hash, nodes: set<string>, pid: nat, p: Partition): seq<Item> {
    var newPrimary := PrimaryFor(hash, nodes, pid);
    if p.primary == newPrimary then []
    else [Item(pid, p.primary, newPrimary, true, if p.primary in nodes then NormalPriority else High)]
  }

  ghost function ReplicaItem(hash: Hash, nodes: set<string>, pid: nat, p: Partition): seq<Item> {
    var newReplica := ReplicaFor(hash, nodes, pid);
    if p.replica == newReplica || p.primary == newReplica then []
    else [Item(pid, p.replica, newReplica, false, if p.replica in nodes then Low else NormalPriority)]
  }

  /** What `calculateMigrationPlan` appends for one partition. */
  ghost function ItemsFor(hash: Hash, nodes: set<string>, pid: nat, p: Partition): seq<Item> {
    PrimaryItem(hash, nodes, pid, p) + ReplicaItem(hash, nodes, pid, p)
  }

  /** The items of one partition, in plan order. */
  function ItemsOf(plan: seq<Item>, pid: nat): seq<Item> {
    if plan == [] then []
    else (if plan[0].pid == pid then [plan[0]] else []) + ItemsOf(plan[1..], pid)
  }

  /**
   * A plan for a table, in any order: the sort by priority is not stable and items run
   * concurrently, so nothing is assumed of the order in which they complete.
   */
  ghost predicate IsPlan(hash: Hash, nodes: set<string>, ps: Partitions, plan: seq<Item>) {
    && (forall i :: 0 <= i < |plan| ==> plan[i].pid in ps)
    && (forall pid :: pid in ps ==> multiset(ItemsOf(plan, pid)) == multiset(ItemsFor(hash, nodes, pid, ps[pid])))
  }

  function CompleteItem(ps: Partitions, item: Item): Partitions {
    if item.pid in ps then Completed(ps, item.pid, item.target, item.isPrimary) else ps
  }

  /** Completing items one after the other, each from an up-to-date table. */
  function CompleteAll(ps: Partitions, items: seq<Item>): Partitions
    decreases |items|
  {
    if items == [] then ps else CompleteAll(CompleteItem(ps, items[0]), items[1..])
  }

  function CompleteEach(p: Partition, items: seq<Item>): Partition
    decreases |items|
  {
    if items == [] then p else CompleteEach(CompletedOne(p, items[0].target, items[0].isPrimary), items[1..])
  }

  /** A partition sees only its own items. */
  lemma {:induction false} CompletionIsLocal(ps: Partitions, items: seq<Item>, pid: nat)
    requires pid in ps
    ensures CompleteAll(ps, items).Keys == ps.Keys
    ensures CompleteAll(ps, items)[pid] == CompleteEach(ps[pid], ItemsOf(items, pid))
    decreases |items|
  {
    hide CompletedOne;
    if items != [] {
      var next := CompleteItem(ps, items[0]);
      CompletionIsLocal(next, items[1..], pid);
      if items[0].pid == pid {
        assert ItemsOf(items, pid)[1..] == ItemsOf(items[1..], pid);
      } else {
        assert ItemsOf(items, pid) == ItemsOf(items[1..], pid);
      }
    }
  }

  lemma {:induction false} KeysKept(ps: Partitions, items: seq<Item>)
    ensures CompleteAll(ps, items).Keys == ps.Keys
    decreases |items|
  {
    if items != [] {
      KeysKept(CompleteItem(ps, items[0]), items[1..]);
    }
  }

  lemma {:induction false} ItemsOfPrefix(items: seq<Item>, k: nat, pid: nat)
    requires k <= |items|
    ensures ItemsOf(items[..k], pid) <= ItemsOf(items, pid)
  {
    if k > 0 {
      ItemsOfPrefix(items[1..], k - 1, pid);
      assert items[..k][1..] == items[1..][..k - 1];
    }
  }

  // ---- One partition ----

  lemma SmallPermutation(s: seq<Item>, t: seq<Item>)
    requires multiset(s) == multiset(t) && |t| <= 2
    ensures s == t || (|t| == 2 && s == [t[1], t[0]])
  {
    assert |s| == |multiset(s)| == |multiset(t)| == |t|;
    if |t| == 1 {
      assert s[0] in multiset(s) && t == [t[0]] && s == [s[0]];
    } else if |t| == 2 {
      assert t == [t[0], t[1]] && s == [s[0], s[1]];
      assert multiset(s) == multiset{s[0], s[1]} && multiset(t) == multiset{t[0], t[1]};
      SmallMultiset(s[0], s[1], t[0], t[1]);
    }
  }

  lemma SmallMultiset(a: Item, b: Item, c: Item, d: Item)
    requires multiset{a, b} == multiset{c, d}
    ensures (a == c && b == d) || (a == d && b == c)
  {
    assert multiset{a, b}[a] == multiset{c, d}[a];
    assert multiset{a, b}[b] == multiset{c, d}[b];
  }

  /** One round for one partition, whatever the order of its items, seen after any number of them. */
  lemma RoundOne(hash: Hash, nodes: set<string>, pid: nat, p: Partition, items: seq<Item>, k: nat)
    requires |nodes| >= 2 && p.primary != p.replica && k <= |items|
    requires multiset(items) == multiset(ItemsFor(hash, nodes, pid, p))
    ensures var q := CompleteEach(p, items[..k]); q.primary != q.replica
    ensures var q := CompleteEach(p, items);
            && q.primary == PrimaryFor(hash, nodes, pid)
            && q.epoch == p.epoch + (if p.primary == PrimaryFor(hash, nodes, pid) then 0 else 1)
            && (p.primary == PrimaryFor(hash, nodes, pid) ==> q.replica == ReplicaFor(hash, nodes, pid))
  {
    hide PrimaryFor, ReplicaFor, CompleteEach;
    PairApart(hash, nodes, pid);
    var moves, fills := PrimaryItem(hash, nodes, pid, p), ReplicaItem(hash, nodes, pid, p);
    SmallPermutation(items, moves + fills);
    if moves == [] || fills == [] {
      assert items == moves + fills;
      AtMostOne(p, items, k);
    } else {
      assert moves + fills == [moves[0], fills[0]];
      hide CompletedOne;
      BothOrders(p, moves[0], fills[0]);
      CompleteNone(p);
      CompleteOne(p, items[0]);
      CompleteTwo(p, items[0], items[1]);
      Prefixes(items, k);
    }
  }

  lemma AtMostOne(p: Partition, items: seq<Item>, k: nat)
    requires |items| <= 1 && k <= |items|
    ensures CompleteEach(p, items) == if items == [] then p else CompletedOne(p, items[0].target, items[0].isPrimary)
    ensures CompleteEach(p, items[..k]) == if k == 0 then p else CompleteEach(p, items)
  {
    hide CompletedOne;
    CompleteNone(p);
    if items != [] {
      CompleteOne(p, items[0]);
      Prefixes(items, k);
    }
  }

  /** A primary item and a replica item of one partition, in either order and after each. */
  lemma BothOrders(p: Partition, move: Item, fill: Item)
    requires move.isPrimary && !fill.isPrimary && p.primary != p.replica
    requires move.target != fill.target && p.primary != move.target && p.primary != fill.target
    ensures var a, b := CompletedOne(p, move.target, true), CompletedOne(p, fill.target, false);
            && a.primary != a.replica && b.primary != b.replica
            && CompletedOne(a, fill.target, false).primary == move.target == CompletedOne(b, move.target, true).primary
            && CompletedOne(a, fill.target, false).replica != move.target
            && CompletedOne(b, move.target, true).replica != move.target
            && CompletedOne(a, fill.target, false).epoch == p.epoch + 1 == CompletedOne(b, move.target, true).epoch
  {
  }

  lemma Prefixes(items: seq<Item>, k: nat)
    requires 1 <= |items| <= 2 && k <= |items|
    ensures |items| == 1 ==> items == [items[0]]
    ensures |items| == 2 ==> items == [items[0], items[1]]
    ensures items[..k] == if k == 0 then [] else if k == 1 then [items[0]] else items
  {
  }

  lemma CompleteNone(p: Partition)
    ensures CompleteEach(p, []) == p
  {
  }

  lemma CompleteOne(p: Partition, a: Item)
    ensures CompleteEach(p, [a]) == CompletedOne(p, a.target, a.isPrimary)
  {
    assert [a][1..] == [];
  }

  lemma CompleteTwo(p: Partition, a: Item, b: Item)
    ensures CompleteEach(p, [a, b]) == CompletedOne(CompletedOne(p, a.target, a.isPrimary), b.target, b.isPrimary)
  {
    assert [a, b][1..] == [b];
    CompleteOne(CompletedOne(p, a.target, a.isPrimary), b);
  }

  // ---- The whole table ----

  ghost predicate PrimariesAligned(hash: Hash, nodes: set<string>, ps: Partitions) {
    forall pid :: pid in ps ==> ps[pid].primary == PrimaryFor(hash, nodes, pid)
  }

  /** The roles stay apart after every single item of a plan. */
  lemma PlanKeepsApart(hash: Hash, nodes: set<string>, ps: Partitions, plan: seq<Item>, k: nat)
    requires |nodes| >= 2 && Apart(ps) && IsPlan(hash, nodes, ps, plan) && k <= |plan|
    ensures Apart(CompleteAll(ps, plan[..k]))
  {
    hide CompleteAll, CompleteEach, ItemsFor, ItemsOf;
    KeysKept(ps, plan[..k]);
    forall pid | pid in ps ensures CompleteAll(ps, plan[..k])[pid].primary != CompleteAll(ps, plan[..k])[pid].replica {
      CompletionIsLocal(ps, plan[..k], pid);
      ItemsOfPrefix(plan, k, pid);
      var own, some := ItemsOf(plan, pid), ItemsOf(plan[..k], pid);
      assert some == own[..|some|];
      RoundOne(hash, nodes, pid, ps[pid], own, |some|);
    }
  }

  /** One round: primaries are where the ring puts them, and each moved primary's epoch rose by one. */
  lemma RoundAligns(hash: Hash, nodes: set<string>, ps: Partitions, plan: seq<Item>)
    requires |nodes| >= 2 && Apart(ps) && IsPlan(hash, nodes, ps, plan)
    ensures var after := CompleteAll(ps, plan);
            && after.Keys == ps.Keys && Apart(after) && PrimariesAligned(hash, nodes, after)
            && (PrimariesAligned(hash, nodes, ps) ==> Aligned(hash, nodes, after))
            && forall pid :: pid in ps ==>
                 after[pid].epoch == ps[pid].epoch + (if ps[pid].primary == PrimaryFor(hash, nodes, pid) then 0 else 1)
  {
    hide CompleteAll, CompleteEach, ItemsFor, ItemsOf, PrimaryFor, ReplicaFor;
    var after := CompleteAll(ps, plan);
    KeysKept(ps, plan);
    assert plan[..|plan|] == plan;
    PlanKeepsApart(hash, nodes, ps, plan, |plan|);
    forall pid | pid in ps
      ensures after[pid].primary == PrimaryFor(hash, nodes, pid)
      ensures ps[pid].primary == PrimaryFor(hash, nodes, pid) ==> after[pid].replica == ReplicaFor(hash, nodes, pid)
      ensures after[pid].epoch == ps[pid].epoch + (if ps[pid].primary == PrimaryFor(hash, nodes, pid) then 0 else 1)
    {
      CompletionIsLocal(ps, plan, pid);
      RoundOne(hash, nodes, pid, ps[pid], ItemsOf(plan, pid), 0);
    }
  }

  lemma AlignedNeedsNothing(hash: Hash, nodes: set<string>, ps: Partitions, plan: seq<Item>)
    requires Aligned(hash, nodes, ps) && IsPlan(hash, nodes, ps, plan)
    ensures plan == []
  {
    if plan != [] {
      FirstIsItsOwn(plan);
    }
  }

  lemma FirstIsItsOwn(plan: seq<Item>)
    requires plan != []
    ensures plan[0] in multiset(ItemsOf(plan, plan[0].pid))
  {
    assert ItemsOf(plan, plan[0].pid)[0] == plan[0];
  }

  /**
   * Planning converges: any order of a first plan aligns every primary, any order of a second
   * aligns every replica, the third plan is empty; over both rounds an epoch rises by one where
   * the primary moved and nowhere else.
   */
  lemma PlanningConverges(hash: Hash, nodes: set<string>, ps: Partitions, plan1: seq<Item>, plan2: seq<Item>, plan3: seq<Item>)
    requires |nodes| >= 2 && Apart(ps)
    requires IsPlan(hash, nodes, ps, plan1)
    requires IsPlan(hash, nodes, CompleteAll(ps, plan1), plan2)
    requires IsPlan(hash, nodes, CompleteAll(CompleteAll(ps, plan1), plan2), plan3)
    ensures PrimariesAligned(hash, nodes, CompleteAll(ps, plan1))
    ensures var after := CompleteAll(CompleteAll(ps, plan1), plan2);
            && after.Keys == ps.Keys && Aligned(hash, nodes, after) && plan3 == []
            && forall pid :: pid in ps ==>
                 after[pid].epoch == ps[pid].epoch + (if ps[pid].primary == after[pid].primary then 0 else 1)
  {
    hide CompleteAll, ItemsFor, ItemsOf, PrimaryFor, ReplicaFor, IsPlan;
    var once := CompleteAll(ps, plan1);
    RoundAligns(hash, nodes, ps, plan1);
    RoundAligns(hash, nodes, once, plan2);
    AlignedNeedsNothing(hash, nodes, CompleteAll(once, plan2), plan3);
  }

  // ---- Completions that overwrite each other ----

  lemma {:induction false} ItemsOfCount(plan: seq<Item>, pid: nat, x: Item)
    ensures multiset(ItemsOf(plan, pid))[x] == if x.pid == pid then multiset(plan)[x] else 0
  {
    if plan != [] {
      ItemsOfCount(plan[1..], pid, x);
      assert plan == [plan[0]] + plan[1..];
    }
  }

  /** The table writes of a round, in the order in which its items complete. */
  function Completions(plan: seq<Item>): (ms: seq<Mutation>)
    ensures |ms| == |plan| && forall i :: 0 <= i < |ms| ==> ms[i] == Complete(plan[i].pid, plan[i].target, plan[i].isPrimary)
  {
    seq(|plan|, i requires 0 <= i < |plan| => Complete(plan[i].pid, plan[i].target, plan[i].isPrimary))
  }

  /** Position `i` is a kept move of the primary of `pid`. */
  predicate MovesPrimary(plan: seq<Item>, keep: set<nat>, pid: nat, i: nat) {
    i < |plan| && i in keep && plan[i].pid == pid && plan[i].isPrimary
  }

  /** A partition's primary is the target of its primary items if one is kept, and stays otherwise. */
  lemma {:induction false} PrimaryAfter(ps: Partitions, plan: seq<Item>, keep: set<nat>, pid: nat, target: string)
    requires AreMoves(ps, Completions(plan)) && pid in ps
    requires forall i :: 0 <= i < |plan| && plan[i].pid == pid && plan[i].isPrimary ==> plan[i].target == target
    ensures AreMoves(ps, Pick(Completions(plan), keep))
    ensures MoveAll(ps, Pick(Completions(plan), keep))[pid].primary ==
            if exists i: nat :: MovesPrimary(plan, keep, pid, i) then target else ps[pid].primary
  {
    hide MoveAll;
    PickMoves(ps, Completions(plan), keep);
    if plan == [] {
      MoveNone(ps);
    } else {
      var n := |plan| - 1;
      var init := plan[..n];
      assert Completions(plan)[..n] == Completions(init);
      forall i | 0 <= i < n ensures IsMove(ps, Completions(init)[i]) {
        assert IsMove(ps, Completions(plan)[i]);
      }
      PrimaryAfter(ps, init, keep, pid, target);
      var before := Pick(Completions(init), keep);
      forall i: nat | MovesPrimary(init, keep, pid, i) ensures MovesPrimary(plan, keep, pid, i) {
      }
      forall i: nat | MovesPrimary(plan, keep, pid, i) && i < n ensures MovesPrimary(init, keep, pid, i) {
      }
      if n in keep {
        assert IsMove(ps, Completions(plan)[n]);
        MoveOneMore(ps, before, Completions(plan)[n]);
        if plan[n].pid == pid && plan[n].isPrimary {
          assert MovesPrimary(plan, keep, pid, n);
        }
      } else {
        assert before + [] == before;
      }
    }
  }

  lemma {:induction false} InItemsOf(plan: seq<Item>, pid: nat, x: Item)
    ensures x in ItemsOf(plan, pid) <==> x in plan && x.pid == pid
  {
    if plan != [] {
      InItemsOf(plan[1..], pid, x);
      assert plan == [plan[0]] + plan[1..];
    }
  }

  lemma SameItems(hash: Hash, nodes: set<string>, ps: Partitions, plan: seq<Item>, pid: nat, x: Item)
    requires IsPlan(hash, nodes, ps, plan) && pid in ps
    ensures x in ItemsFor(hash, nodes, pid, ps[pid]) <==> x in plan && x.pid == pid
  {
    hide ItemsFor, ItemsOf;
    InItemsOf(plan, pid, x);
    assert x in multiset(ItemsOf(plan, pid)) <==> x in ItemsOf(plan, pid);
    assert x in multiset(ItemsFor(hash, nodes, pid, ps[pid])) <==> x in ItemsFor(hash, nodes, pid, ps[pid]);
  }

  /** A primary item of a plan is the one its partition asks for, and there is one for each that asks. */
  lemma PrimaryItems(hash: Hash, nodes: set<string>, ps: Partitions, plan: seq<Item>, i: nat)
    requires IsPlan(hash, nodes, ps, plan) && i < |plan| && plan[i].isPrimary
    ensures var pid := plan[i].pid;
            && ps[pid].primary != PrimaryFor(hash, nodes, pid)
            && [plan[i]] == PrimaryItem(hash, nodes, pid, ps[pid]) && plan[i].target == PrimaryFor(hash, nodes, pid)
  {
    hide PrimaryFor, ReplicaFor, IsPlan;
    PlanInTable(hash, nodes, ps, plan, i);
    SameItems(hash, nodes, ps, plan, plan[i].pid, plan[i]);
  }

  lemma PlanInTable(hash: Hash, nodes: set<string>, ps: Partitions, plan: seq<Item>, i: nat)
    requires IsPlan(hash, nodes, ps, plan) && i < |plan|
    ensures plan[i].pid in ps
  {
  }

  lemma PrimaryItemOnce(hash: Hash, nodes: set<string>, ps: Partitions, plan: seq<Item>, i: nat, j: nat)
    requires IsPlan(hash, nodes, ps, plan) && i < |plan| && j < |plan|
    requires plan[i].isPrimary && plan[j].isPrimary && plan[i].pid == plan[j].pid
    ensures i == j
  {
    var pid, x := plan[i].pid, plan[i];
    PrimaryItems(hash, nodes, ps, plan, i);
    PrimaryItems(hash, nodes, ps, plan, j);
    hide PrimaryFor, ReplicaFor, ItemsOf;
    assert plan[j] == x;
    ItemsOfCount(plan, pid, x);
    assert multiset(ItemsFor(hash, nodes, pid, ps[pid]))[x] <= 1;
    if i != j {
      TwiceIn(plan, i, j);
    }
  }

  lemma TwiceIn(plan: seq<Item>, i: nat, j: nat)
    requires i < |plan| && j < |plan| && i != j && plan[i] == plan[j]
    ensures multiset(plan)[plan[i]] >= 2
  {
    var a, b := if i < j then i else j, if i < j then j else i;
    assert plan == plan[..a] + [plan[a]] + plan[a + 1..b] + [plan[b]] + plan[b + 1..];
  }

  /**
   * A round whose completions start from copies that are behind: it still aligns every primary
   * exactly when no primary item is overwritten.
   */
  lemma RoundNeedsItsPrimaryItems(hash: Hash, nodes: set<string>, c: Cluster, plan: seq<Item>, seen: seq<nat>)
    requires IsPlan(hash, nodes, c.cached.partitions, plan) && IsSeen(Completions(plan), seen)
    ensures AreMoves(c.cached.partitions, Completions(plan))
    ensures PrimariesAligned(hash, nodes, History(c, Completions(plan), seen)[|plan|].partitions) <==>
            forall i: nat :: i < |plan| && plan[i].isPrimary ==> i in Kept(seen, |plan|)
  {
    hide PrimaryFor, IsPlan, History, Kept, Pick, MoveAll;
    var ps, ms, kept := c.cached.partitions, Completions(plan), Kept(seen, |plan|);
    forall i | 0 <= i < |ms| ensures IsMove(ps, ms[i]) {
      PlanInTable(hash, nodes, ps, plan, i);
    }
    MovesSurvive(c, ms, seen, |plan|);
    var after := History(c, ms, seen)[|plan|].partitions;
    forall pid | pid in ps
      ensures after[pid].primary == PrimaryFor(hash, nodes, pid) <==>
              forall i: nat :: i < |plan| && plan[i].pid == pid && plan[i].isPrimary ==> i in kept
    {
      PrimaryAligned(hash, nodes, ps, plan, kept, pid);
    }
    if PrimariesAligned(hash, nodes, after) {
      forall i: nat | i < |plan| && plan[i].isPrimary ensures i in kept {
        assert IsMove(ps, ms[i]);
      }
    }
  }

  lemma PrimaryAligned(hash: Hash, nodes: set<string>, ps: Partitions, plan: seq<Item>, keep: set<nat>, pid: nat)
    requires IsPlan(hash, nodes, ps, plan) && AreMoves(ps, Completions(plan)) && pid in ps
    ensures AreMoves(ps, Pick(Completions(plan), keep))
    ensures MoveAll(ps, Pick(Completions(plan), keep))[pid].primary == PrimaryFor(hash, nodes, pid) <==>
            forall i: nat :: i < |plan| && plan[i].pid == pid && plan[i].isPrimary ==> i in keep
  {
    hide PrimaryFor, ReplicaFor, IsPlan, Pick, MoveAll;
    var goal := PrimaryFor(hash, nodes, pid);
    forall i | 0 <= i < |plan| && plan[i].pid == pid && plan[i].isPrimary
      ensures plan[i].target == goal && ps[pid].primary != goal
    {
      PrimaryItems(hash, nodes, ps, plan, i);
    }
    PrimaryAfter(ps, plan, keep, pid, goal);
    if ps[pid].primary != goal {
      var x := PrimaryItem(hash, nodes, pid, ps[pid])[0];
      SameItems(hash, nodes, ps, plan, pid, x);
      var i: nat :| i < |plan| && plan[i] == x;
      forall j: nat | j < |plan| && plan[j].pid == pid && plan[j].isPrimary ensures j == i {
        PrimaryItemOnce(hash, nodes, ps, plan, i, j);
      }
      assert MovesPrimary(plan, keep, pid, i) <==> i in keep;
    }
  }
}
