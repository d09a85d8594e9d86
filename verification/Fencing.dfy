/** The guards a storage node puts before a write, and what they refuse over whole runs of the node. */
module Fencing {
  import opened Common

  /** One partition as the node keeps it. */
  datatype Held = Held(status: PartitionStatus, isPrime: bool, epoch: nat)
  type Holdings = map<u32, Held>

  /** One line of a route update. */
  datatype Info = Info(pid: u32, primary: string, replica: string, epoch: nat)

  /** A node with the address it goes by; `lease` is the etcd lease, 0 when there is none. */
  datatype Node = Node(addr: string, holdings: Holdings, lease: int, lost: bool)

  datatype Kind = Put | Delete | BatchPut | SetFields | DeleteField
  datatype Reply = Ok | InternalError | PartitionNotFound | NotPrimary | EpochFenced

  /** `dbOk` is whether the database takes the write once the guards let it through. */
  datatype Request = Request(kind: Kind, pid: u32, epoch: nat, dbOk: bool)

  datatype Event =
    | Route(infos: seq<Info>)
    | ExportSST(pid: u32)
    | IngestEmpty(pid: u32)
    | LeaseLost
    | Stop
    | Serve(request: Request)

  // ---- One request ----

  /** Field writes go to the database without looking at the partition's status. */
  predicate Writable(kind: Kind, status: PartitionStatus) {
    match kind
    case Put => status.Normal? || status.MigratingIn?
    case BatchPut => status.Normal? || status.MigratingIn?
    case Delete => status.Normal?
    case SetFields => true
    case DeleteField => true
  }

  function Answer(node: Node, q: Request): Reply {
    if node.lost || node.lease == 0 then InternalError
    else if q.pid !in node.holdings then PartitionNotFound
    else if !node.holdings[q.pid].isPrime then NotPrimary
    else if node.holdings[q.pid].epoch != q.epoch then EpochFenced
    else if !Writable(q.kind, node.holdings[q.pid].status) || !q.dbOk then InternalError
    else Ok
  }

  // ---- Route updates ----

  predicate Names(info: Info, addr: string) {
    info.primary == addr || info.replica == addr
  }

  function AppliedOne(held: Holdings, info: Info, addr: string): Holdings {
    if !Names(info, addr) then held
    else if info.pid !in held then held[info.pid := Held(Normal, info.primary == addr, info.epoch)]
    else if info.epoch > held[info.pid].epoch then held[info.pid := held[info.pid].(epoch := info.epoch)]
    else held
  }

  function Applied(held: Holdings, infos: seq<Info>, addr: string): Holdings {
    if infos == [] then held else AppliedOne(Applied(held, infos[..|infos| - 1], addr), infos[|infos| - 1], addr)
  }

  function Listed(infos: seq<Info>, addr: string): set<u32> {
    set i | 0 <= i < |infos| && Names(infos[i], addr) :: infos[i].pid
  }

  function Routed(held: Holdings, infos: seq<Info>, addr: string): Holdings {
    map pid | pid in Applied(held, infos, addr) && pid in Listed(infos, addr) :: Applied(held, infos, addr)[pid]
  }

  /** The first line that gives `pid` to this node. */
  function FirstNaming(infos: seq<Info>, pid: u32, addr: string): Option<Info> {
    if infos == [] then None
    else
      var before := FirstNaming(infos[..|infos| - 1], pid, addr);
      if before.Some? then before
      else if infos[|infos| - 1].pid == pid && Names(infos[|infos| - 1], addr) then Some(infos[|infos| - 1])
      else None
  }

  /** The epochs a route update shows this node for `pid`. */
  function EpochsShown(infos: seq<Info>, pid: u32, addr: string): set<nat> {
    set i | 0 <= i < |infos| && infos[i].pid == pid && Names(infos[i], addr) :: infos[i].epoch
  }

  function EpochsKnown(held: Holdings, pid: u32): set<nat> {
    if pid in held then {held[pid].epoch} else {}
  }

  ghost predicate IsMax(m: nat, s: set<nat>) {
    m in s && forall x :: x in s ==> x <= m
  }

  lemma ShownExtends(infos: seq<Info>, pid: u32, addr: string)
    requires infos != []
    ensures var last := infos[|infos| - 1];
            EpochsShown(infos, pid, addr) == EpochsShown(infos[..|infos| - 1], pid, addr) +
              if last.pid == pid && Names(last, addr) then {last.epoch} else {}
  {
    var init, last := infos[..|infos| - 1], infos[|infos| - 1];
    forall x | x in EpochsShown(infos, pid, addr)
      ensures x in EpochsShown(init, pid, addr) || (last.pid == pid && Names(last, addr) && x == last.epoch)
    {
      var i :| 0 <= i < |infos| && infos[i].pid == pid && Names(infos[i], addr) && infos[i].epoch == x;
      assert i < |init| ==> init[i] == infos[i];
    }
    forall x | x in EpochsShown(init, pid, addr) ensures x in EpochsShown(infos, pid, addr) {
      var i :| 0 <= i < |init| && init[i].pid == pid && Names(init[i], addr) && init[i].epoch == x;
      assert infos[i] == init[i];
    }
  }

  lemma {:induction false} AppliedEffect(held: Holdings, infos: seq<Info>, addr: string, pid: u32)
    ensures var first := FirstNaming(infos, pid, addr); var r := Applied(held, infos, addr);
            && (first.Some? <==> EpochsShown(infos, pid, addr) != {})
            && (pid in r <==> pid in held || first.Some?)
            && (pid in held ==> r[pid].isPrime == held[pid].isPrime && r[pid].status == held[pid].status)
            && (pid !in held && first.Some? ==> r[pid].isPrime == (first.value.primary == addr) && r[pid].status == Normal)
            && (pid in r ==> IsMax(r[pid].epoch, EpochsKnown(held, pid) + EpochsShown(infos, pid, addr)))
  {
    if infos != [] {
      AppliedEffect(held, infos[..|infos| - 1], addr, pid);
      ShownExtends(infos, pid, addr);
    }
  }

  lemma {:induction false} ListedIff(infos: seq<Info>, addr: string, pid: u32)
    ensures pid in Listed(infos, addr) <==> EpochsShown(infos, pid, addr) != {}
  {
    if pid in Listed(infos, addr) {
      var i :| 0 <= i < |infos| && Names(infos[i], addr) && infos[i].pid == pid;
      assert infos[i].epoch in EpochsShown(infos, pid, addr);
    }
    if EpochsShown(infos, pid, addr) != {} {
      var x :| x in EpochsShown(infos, pid, addr);
      var i :| 0 <= i < |infos| && infos[i].pid == pid && Names(infos[i], addr) && infos[i].epoch == x;
      assert infos[i].pid in Listed(infos, addr);
    }
  }

  /**
   * After a route update the node holds exactly the partitions some line gives it. Each carries
   * the highest epoch it ever carried or was shown. A partition it held keeps its status and its
   * role whatever the lines say; a new one takes the role of its first line.
   */
  lemma RoutedEffect(held: Holdings, infos: seq<Info>, addr: string, pid: u32)
    ensures var first := FirstNaming(infos, pid, addr); var r := Routed(held, infos, addr);
            && (pid in r <==> first.Some?)
            && (pid in r && pid in held ==> r[pid].isPrime == held[pid].isPrime && r[pid].status == held[pid].status)
            && (pid in r && pid !in held ==> r[pid].isPrime == (first.value.primary == addr) && r[pid].status == Normal)
            && (pid in r ==> IsMax(r[pid].epoch, EpochsKnown(held, pid) + EpochsShown(infos, pid, addr)))
  {
    AppliedEffect(held, infos, addr, pid);
    ListedIff(infos, addr, pid);
  }

  /**
   * A node's role follows the route exactly when it did not hold the partition before or held it
   * in that role already: the update never turns a replica into a primary or back.
   */
  lemma RoleFollowsRoute(held: Holdings, infos: seq<Info>, addr: string, pid: u32)
    requires FirstNaming(infos, pid, addr).Some?
    ensures var isPrimary := FirstNaming(infos, pid, addr).value.primary == addr;
            && pid in Routed(held, infos, addr)
            && (Routed(held, infos, addr)[pid].isPrime == isPrimary <==> pid in held ==> held[pid].isPrime == isPrimary)
  {
    RoutedEffect(held, infos, addr, pid);
  }

  // ---- Runs ----

  function Do(node: Node, e: Event): Node {
    match e
    case Route(infos) => node.(holdings := Routed(node.holdings, infos, node.addr))
    case ExportSST(pid) =>
      if pid in node.holdings then node.(holdings := node.holdings[pid := node.holdings[pid].(status := MigratingOut)]) else node
    case IngestEmpty(pid) =>
      if pid != 0 && pid !in node.holdings then node.(holdings := node.holdings[pid := Held(Normal, false, 0)]) else node
    case LeaseLost => node.(lost := true)
    case Stop => node.(lease := 0, lost := true)
    case Serve(_) => node
  }

  ghost predicate IsRun(nodes: seq<Node>, events: seq<Event>) {
    && |nodes| == |events| + 1
    && nodes[0].holdings == map[]
    && forall i :: 0 <= i < |events| ==> nodes[i + 1] == Do(nodes[i], events[i])
  }

  predicate HeldThroughout(nodes: seq<Node>, pid: u32, i: nat, j: nat) {
    forall k :: i <= k <= j < |nodes| ==> pid in nodes[k].holdings
  }

  predicate Accepted(nodes: seq<Node>, events: seq<Event>, i: nat, pid: u32) {
    i < |events| && i < |nodes| && events[i].Serve? && events[i].request.pid == pid && Answer(nodes[i], events[i].request).Ok?
  }

  lemma StepKeeps(node: Node, e: Event, pid: u32)
    requires pid in node.holdings && pid in Do(node, e).holdings
    ensures node.holdings[pid].epoch <= Do(node, e).holdings[pid].epoch
    ensures node.holdings[pid].isPrime == Do(node, e).holdings[pid].isPrime
  {
    if e.Route? {
      RoutedEffect(node.holdings, e.infos, node.addr, pid);
    }
  }

  lemma {:induction false} HeldKeeps(nodes: seq<Node>, events: seq<Event>, pid: u32, i: nat, j: nat)
    requires IsRun(nodes, events) && i <= j < |nodes| && HeldThroughout(nodes, pid, i, j)
    ensures nodes[i].holdings[pid].epoch <= nodes[j].holdings[pid].epoch
    ensures nodes[i].holdings[pid].isPrime == nodes[j].holdings[pid].isPrime
    decreases j
  {
    if i < j {
      HeldKeeps(nodes, events, pid, i, j - 1);
      assert nodes[j - 1 + 1] == Do(nodes[j - 1], events[j - 1]);
      StepKeeps(nodes[j - 1], events[j - 1], pid);
    }
  }

  lemma {:induction false} AddressKept(nodes: seq<Node>, events: seq<Event>, i: nat)
    requires IsRun(nodes, events) && i < |nodes|
    ensures nodes[i].addr == nodes[0].addr
  {
    if i > 0 {
      AddressKept(nodes, events, i - 1);
    }
  }

  /** The epochs of the writes a node accepts on a partition never go down while it holds the partition. */
  lemma AcceptedEpochsRise(nodes: seq<Node>, events: seq<Event>, pid: u32, i: nat, j: nat)
    requires IsRun(nodes, events) && i <= j
    requires Accepted(nodes, events, i, pid) && Accepted(nodes, events, j, pid) && HeldThroughout(nodes, pid, i, j)
    ensures events[i].request.epoch <= events[j].request.epoch
  {
    HeldKeeps(nodes, events, pid, i, j);
  }

  /** Once a route update has shown the node an epoch for a partition, no write below it is accepted while it is held. */
  lemma RouteFences(nodes: seq<Node>, events: seq<Event>, pid: u32, i: nat, j: nat, k: nat)
    requires IsRun(nodes, events) && i < j && i < |events| && events[i].Route? && k < |events[i].infos|
    requires events[i].infos[k].pid == pid && Names(events[i].infos[k], nodes[0].addr)
    requires Accepted(nodes, events, j, pid) && HeldThroughout(nodes, pid, i + 1, j)
    ensures events[i].infos[k].epoch <= events[j].request.epoch
  {
    AddressKept(nodes, events, i);
    var infos, addr := events[i].infos, nodes[0].addr;
    RoutedEffect(nodes[i].holdings, infos, addr, pid);
    assert infos[k].epoch in EpochsShown(infos, pid, addr);
    HeldKeeps(nodes, events, pid, i + 1, j);
  }

  /** The epochs route updates `i` to `j - 1` show this node for a partition. */
  function ShownSince(events: seq<Event>, addr: string, pid: u32, i: nat, j: nat): set<nat>
    requires i <= j <= |events|
  {
    if i == j then {}
    else ShownSince(events, addr, pid, i, j - 1) + ShownIn(events[j - 1], pid, addr)
  }

  /** Event `i` is the one by which the node took the partition on, and it has held it up to `j`. */
  predicate TakenOn(nodes: seq<Node>, pid: u32, i: nat, j: nat) {
    i < j < |nodes| && pid !in nodes[i].holdings && HeldThroughout(nodes, pid, i + 1, j)
  }

  lemma MaxOfBoth(m: nat, before: nat, s: set<nat>, t: set<nat>)
    requires IsMax(before, s) && IsMax(m, {before} + t)
    ensures IsMax(m, s + t)
  {
  }

  /**
   * The epoch a node holds is the highest one shown since it last took the partition on, a
   * partition taken on by an empty migration counting from 0.
   */
  lemma {:induction false} HeldIsHighestShown(nodes: seq<Node>, events: seq<Event>, pid: u32, i: nat, j: nat)
    requires IsRun(nodes, events) && TakenOn(nodes, pid, i, j)
    ensures IsMax(nodes[j].holdings[pid].epoch,
                  (if events[i].IngestEmpty? then {0} else {}) + ShownSince(events, nodes[0].addr, pid, i, j))
    decreases j
  {
    hide Do, EpochsShown, IsMax;
    AddressKept(nodes, events, j - 1);
    var addr, node, e := nodes[0].addr, nodes[j - 1], events[j - 1];
    assert nodes[j - 1 + 1] == Do(node, e);
    if i + 1 == j {
      assert ShownSince(events, addr, pid, i, i) == {};
      FirstEpoch(node, e, pid);
      assert (if e.IngestEmpty? then {0} else {}) + ({} + ShownIn(e, pid, addr)) == FirstShown(e, pid, addr);
    } else {
      HeldIsHighestShown(nodes, events, pid, i, j - 1);
      NextEpoch(node, e, pid);
      var base, since := if events[i].IngestEmpty? then {0} else {}, ShownSince(events, addr, pid, i, j - 1);
      MaxOfBoth(nodes[j].holdings[pid].epoch, node.holdings[pid].epoch, base + since, ShownIn(e, pid, addr));
      assert base + since + ShownIn(e, pid, addr) == base + (since + ShownIn(e, pid, addr));
    }
  }

  function ShownIn(e: Event, pid: u32, addr: string): set<nat> {
    if e.Route? then EpochsShown(e.infos, pid, addr) else {}
  }

  function FirstShown(e: Event, pid: u32, addr: string): set<nat> {
    (if e.IngestEmpty? then {0} else {}) + ShownIn(e, pid, addr)
  }

  lemma FirstEpoch(node: Node, e: Event, pid: u32)
    requires pid !in node.holdings && pid in Do(node, e).holdings
    ensures IsMax(Do(node, e).holdings[pid].epoch, FirstShown(e, pid, node.addr))
  {
    if e.Route? {
      RoutedEffect(node.holdings, e.infos, node.addr, pid);
      assert {} + EpochsShown(e.infos, pid, node.addr) == FirstShown(e, pid, node.addr);
    }
  }

  lemma NextEpoch(node: Node, e: Event, pid: u32)
    requires pid in node.holdings && pid in Do(node, e).holdings
    ensures IsMax(Do(node, e).holdings[pid].epoch, {node.holdings[pid].epoch} + ShownIn(e, pid, node.addr))
  {
    if e.Route? {
      RoutedEffect(node.holdings, e.infos, node.addr, pid);
    }
  }

  /** Across a removal epochs can fall: any two, the second below the first, are both accepted. */
  lemma RetakenEpochFalls(addr: string, other: string, pid: u32, e1: nat, e2: nat) returns (nodes: seq<Node>, events: seq<Event>)
    requires addr != other && e2 < e1
    ensures IsRun(nodes, events) && |events| == 5
    ensures Accepted(nodes, events, 1, pid) && events[1].request.epoch == e1
    ensures Accepted(nodes, events, 4, pid) && events[4].request.epoch == e2
  {
    var first, second := Info(pid, addr, other, e1), Info(pid, addr, other, e2);
    events := [Route([first]), Serve(Request(Put, pid, e1, true)), Route([]), Route([second]), Serve(Request(Put, pid, e2, true))];
    var n0 := Node(addr, map[], 1, false);
    var n1 := Do(n0, events[0]);
    var n2 := Do(n1, events[2]);
    var n3 := Do(n2, events[3]);
    nodes := [n0, n1, n1, n2, n3, n3];
    OneLine(first, addr);
    OneLine(second, addr);
    RoutedEffect(n0.holdings, [first], addr, pid);
    RoutedEffect(n1.holdings, [], addr, pid);
    RoutedEffect(n2.holdings, [second], addr, pid);
  }

  lemma {:induction false} LostForGood(nodes: seq<Node>, events: seq<Event>, i: nat, j: nat)
    requires IsRun(nodes, events) && i <= j < |nodes| && nodes[i].lost
    ensures nodes[j].lost
    decreases j
  {
    if i < j {
      LostForGood(nodes, events, i, j - 1);
    }
  }

  /** After the lease is marked lost, or the node stopped, every write gets an internal error. */
  lemma NothingAfterLeaseLost(nodes: seq<Node>, events: seq<Event>, i: nat, j: nat)
    requires IsRun(nodes, events) && i < j < |events| && (events[i].LeaseLost? || events[i].Stop?)
    requires events[j].Serve?
    ensures Answer(nodes[j], events[j].request) == InternalError
  {
    LostForGood(nodes, events, i + 1, j);
  }

  /** `i` is where the node took the partition on as a primary and has held it since. */
  predicate TakenOnAsPrimary(nodes: seq<Node>, events: seq<Event>, pid: u32, i: nat, j: nat) {
    && i < j < |nodes| && i < |events| && events[i].Route? && pid !in nodes[i].holdings
    && HeldThroughout(nodes, pid, i + 1, j)
    && FirstNaming(events[i].infos, pid, nodes[0].addr).Some?
    && FirstNaming(events[i].infos, pid, nodes[0].addr).value.primary == nodes[0].addr
  }

  lemma {:induction false} PrimeWasTakenOn(nodes: seq<Node>, events: seq<Event>, pid: u32, j: nat) returns (i: nat)
    requires IsRun(nodes, events) && j < |nodes| && pid in nodes[j].holdings && nodes[j].holdings[pid].isPrime
    ensures TakenOnAsPrimary(nodes, events, pid, i, j)
  {
    AddressKept(nodes, events, j - 1);
    var e := events[j - 1];
    if pid in nodes[j - 1].holdings {
      StepKeeps(nodes[j - 1], e, pid);
      i := PrimeWasTakenOn(nodes, events, pid, j - 1);
    } else {
      i := j - 1;
      if e.Route? {
        RoutedEffect(nodes[i].holdings, e.infos, nodes[0].addr, pid);
      }
    }
  }

  /**
   * A node is primary for a partition exactly when the update by which it took the partition on
   * named it primary, however the route has changed since.
   */
  lemma PrimeIffTakenOn(nodes: seq<Node>, events: seq<Event>, pid: u32, j: nat)
    requires IsRun(nodes, events) && j < |nodes|
    ensures (pid in nodes[j].holdings && nodes[j].holdings[pid].isPrime) <==>
            exists i: nat :: TakenOnAsPrimary(nodes, events, pid, i, j)
  {
    if pid in nodes[j].holdings && nodes[j].holdings[pid].isPrime {
      var i := PrimeWasTakenOn(nodes, events, pid, j);
    }
    if i: nat :| TakenOnAsPrimary(nodes, events, pid, i, j) {
      AddressKept(nodes, events, i);
      RoutedEffect(nodes[i].holdings, events[i].infos, nodes[0].addr, pid);
      HeldKeeps(nodes, events, pid, i + 1, j);
    }
  }

  /**
   * A primary that the route made a replica goes on accepting writes, at whichever of the two
   * routes' epochs is higher, also when neither carries one.
   */
  lemma DemotedPrimaryStillAccepts(addr: string, other: string, pid: u32, e1: nat, e2: nat)
      returns (nodes: seq<Node>, events: seq<Event>)
    requires addr != other
    ensures IsRun(nodes, events) && |events| == 3 && nodes[0].addr == addr
    ensures events[0] == Route([Info(pid, addr, other, e1)]) && events[1] == Route([Info(pid, other, addr, e2)])
    ensures Accepted(nodes, events, 2, pid) && events[2].request.epoch == if e1 < e2 then e2 else e1
  {
    var first, second := [Info(pid, addr, other, e1)], [Info(pid, other, addr, e2)];
    var q := Request(Put, pid, if e1 < e2 then e2 else e1, true);
    events := [Route(first), Route(second), Serve(q)];
    var n0 := Node(addr, map[], 1, false);
    var n1 := Do(n0, events[0]);
    var n2 := Do(n1, events[1]);
    nodes := [n0, n1, n2, n2];
    OneLine(first[0], addr);
    OneLine(second[0], addr);
    RoutedEffect(n0.holdings, first, addr, pid);
    RoutedEffect(n1.holdings, second, addr, pid);
  }

  lemma OneLine(info: Info, addr: string)
    requires Names(info, addr)
    ensures FirstNaming([info], info.pid, addr) == Some(info)
    ensures EpochsShown([info], info.pid, addr) == {info.epoch}
  {
    assert [info][..0] == [];
    assert [info][0] == info;
  }
}
