/** The storage node as an object: its partition table, its lease, and the handlers that consult them. */
module NodeStore {
  import opened Common
  import opened Fencing

  predicate CanServe(node: Node) {
    !node.lost && node.lease != 0
  }

  class StorageNode {
    const addr: string
    var partitions: Holdings
    var nodeLease: int
    var nodeLeaseLost: bool

    ghost function View(): Node
      reads this
    {
      Node(addr, partitions, nodeLease, nodeLeaseLost)
    }

    /** The lease is acquired once, before the node serves anything. */
    constructor (addr: string, lease: int)
      ensures View() == Node(addr, map[], lease, false)
    {
      this.addr := addr;
      partitions := map[];
      nodeLease, nodeLeaseLost := lease, false;
    }

    method CanWrite() returns (can: bool)
      ensures can <==> !nodeLeaseLost && nodeLease != 0
    {
      can := !nodeLeaseLost && nodeLease != 0;
    }

    /** Refused when the partition is already held. */
    method AddPartitionWithEpoch(pid: u32, isPrimary: bool, epoch: nat) returns (added: bool)
      modifies this`partitions
      ensures added <==> pid !in old(partitions)
      ensures partitions == if added then old(partitions)[pid := Held(Normal, isPrimary, epoch)] else old(partitions)
      ensures forall q: Request :: q.pid != pid || !added ==> Answer(View(), q) == Answer(old(View()), q)
      ensures added ==> forall q: Request :: q.pid == pid ==>
                (Answer(View(), q).Ok? <==> CanServe(View()) && isPrimary && q.epoch == epoch && q.dbOk)
    {
      if pid in partitions {
        return false;
      }
      partitions := partitions[pid := Held(Normal, isPrimary, epoch)];
      return true;
    }

    /** Raises the epoch, never lowers it. */
    method UpdatePartitionEpoch(pid: u32, epoch: nat) returns (found: bool)
      modifies this`partitions
      ensures found <==> pid in old(partitions)
      ensures partitions.Keys == old(partitions).Keys
      ensures forall p :: p in partitions && p != pid ==> partitions[p] == old(partitions)[p]
      ensures found ==> IsMax(partitions[pid].epoch, {old(partitions)[pid].epoch, epoch})
      ensures found ==> partitions[pid] == old(partitions)[pid].(epoch := partitions[pid].epoch)
    {
      if pid !in partitions {
        return false;
      }
      if epoch > partitions[pid].epoch {
        partitions := partitions[pid := partitions[pid].(epoch := epoch)];
      }
      return true;
    }

    method ValidateEpoch(pid: u32, epoch: nat) returns (valid: bool)
      ensures valid <==> pid in partitions && partitions[pid].epoch == epoch
    {
      valid := pid in partitions && partitions[pid].epoch == epoch;
    }

    method RemovePartition(pid: u32) returns (removed: bool)
      modifies this`partitions
      ensures removed <==> pid in old(partitions)
      ensures partitions == old(partitions) - {pid}
      ensures forall q: Request :: q.pid != pid ==> Answer(View(), q) == Answer(old(View()), q)
      ensures forall q: Request :: q.pid == pid && CanServe(View()) ==> Answer(View(), q) == PartitionNotFound
    {
      removed := pid in partitions;
      partitions := partitions - {pid};
    }

    method UpdatePartitionsFromRoute(infos: seq<Info>)
      modifies this`partitions
      ensures View() == Do(old(View()), Route(infos))
    {
      var shouldExist: set<u32> := {};
      var i := 0;
      while i < |infos|
        invariant 0 <= i <= |infos|
        invariant shouldExist == Listed(infos[..i], addr)
        invariant partitions == Applied(old(partitions), infos[..i], addr)
      {
        var p := infos[i];
        ghost var before := partitions;
        assert infos[..i + 1] == infos[..i] + [p];
        ListedExtends(infos[..i], p, addr);
        AppliedExtends(old(partitions), infos[..i], p, addr);
        if p.primary == addr || p.replica == addr {
          shouldExist := shouldExist + {p.pid};
          if p.pid !in partitions {
            var _ := AddPartitionWithEpoch(p.pid, p.primary == addr, p.epoch);
          } else {
            var _ := UpdatePartitionEpoch(p.pid, p.epoch);
          }
        }
        assert partitions == AppliedOne(before, p, addr);
        i := i + 1;
      }
      assert infos[..i] == infos;
      ghost var applied := partitions;
      var current := partitions.Keys;
      while current != {}
        invariant current <= applied.Keys
        invariant forall pid :: pid in partitions <==> pid in applied && (pid in current || pid in shouldExist)
        invariant forall pid :: pid in partitions ==> partitions[pid] == applied[pid]
        decreases current
      {
        var pid :| pid in current;
        if pid !in shouldExist {
          var _ := RemovePartition(pid);
        }
        current := current - {pid};
      }
      assert partitions == Routed(old(partitions), infos, addr);
    }

    /** ExportSST leaves the partition in this status; nothing on the node puts it back. */
    method ExportSST(pid: u32) returns (found: bool)
      modifies this`partitions
      ensures found <==> pid in old(partitions)
      ensures View() == Do(old(View()), Event.ExportSST(pid))
      ensures found ==> partitions == old(partitions)[pid := Held(MigratingOut, old(partitions)[pid].isPrime, old(partitions)[pid].epoch)]
      ensures forall q: Request :: q.pid != pid || q.kind.SetFields? || q.kind.DeleteField? ==>
                Answer(View(), q) == Answer(old(View()), q)
      ensures forall q: Request :: q.pid == pid && !q.kind.SetFields? && !q.kind.DeleteField? ==> !Answer(View(), q).Ok?
    {
      found := pid in partitions;
      if found {
        partitions := partitions[pid := partitions[pid].(status := MigratingOut)];
      }
    }

    method IngestEmpty(pid: u32)
      modifies this`partitions
      ensures View() == Do(old(View()), Event.IngestEmpty(pid))
      ensures pid in partitions <==> pid in old(partitions) || pid != 0
      ensures forall q: Request :: (q.pid != pid || pid in old(partitions)) ==> Answer(View(), q) == Answer(old(View()), q)
      ensures forall q: Request :: q.pid == pid && pid !in old(partitions) ==> !Answer(View(), q).Ok?
    {
      if pid != 0 && pid !in partitions {
        var _ := AddPartitionWithEpoch(pid, false, 0);
      }
    }

    /** The keepalive channel closed or delivered nothing. */
    method LoseLease()
      modifies this`nodeLeaseLost
      ensures View() == Do(old(View()), LeaseLost)
      ensures forall q: Request :: Answer(View(), q) == InternalError
    {
      nodeLeaseLost := true;
    }

    method ReleaseAllLeases()
      modifies this`nodeLease, this`nodeLeaseLost
      ensures View() == Do(old(View()), Stop)
      ensures forall q: Request :: Answer(View(), q) == InternalError
    {
      nodeLease := 0;
      nodeLeaseLost := true;
    }

    /** The guards shared by the five write handlers, in their order. */
    method Handle(q: Request) returns (r: Reply)
      ensures r == Answer(View(), q)
      ensures r.PartitionNotFound? <==> !nodeLeaseLost && nodeLease != 0 && q.pid !in partitions
      ensures r.NotPrimary? <==> !nodeLeaseLost && nodeLease != 0 && q.pid in partitions && !partitions[q.pid].isPrime
      ensures r.EpochFenced? <==>
                !nodeLeaseLost && nodeLease != 0 && q.pid in partitions && partitions[q.pid].isPrime && partitions[q.pid].epoch != q.epoch
      ensures r.Ok? <==>
                && !nodeLeaseLost && nodeLease != 0 && q.pid in partitions
                && partitions[q.pid].isPrime && partitions[q.pid].epoch == q.epoch && q.dbOk
                && (q.kind.Put? || q.kind.BatchPut? ==> partitions[q.pid].status in {Normal, MigratingIn})
                && (q.kind.Delete? ==> partitions[q.pid].status == Normal)
      ensures r.InternalError? <==> !r.PartitionNotFound? && !r.NotPrimary? && !r.EpochFenced? && !r.Ok?
    {
      var can := CanWrite();
      if !can {
        return InternalError;
      }
      if q.pid !in partitions {
        return PartitionNotFound;
      }
      if !partitions[q.pid].isPrime {
        return NotPrimary;
      }
      var valid := ValidateEpoch(q.pid, q.epoch);
      if !valid {
        return EpochFenced;
      }
      var status := partitions[q.pid].status;
      if (q.kind.Put? || q.kind.BatchPut?) && !status.Normal? && !status.MigratingIn? {
        return InternalError;
      }
      if q.kind.Delete? && !status.Normal? {
        return InternalError;
      }
      return if q.dbOk then Ok else InternalError;
    }
  }

  lemma ListedExtends(infos: seq<Info>, p: Info, addr: string)
    ensures Listed(infos + [p], addr) == Listed(infos, addr) + if Names(p, addr) then {p.pid} else {}
  {
    var all := infos + [p];
    forall pid | pid in Listed(all, addr) ensures pid in Listed(infos, addr) || (Names(p, addr) && pid == p.pid) {
      var i :| 0 <= i < |all| && Names(all[i], addr) && all[i].pid == pid;
      assert i < |infos| ==> infos[i] == all[i];
    }
    forall pid | pid in Listed(infos, addr) ensures pid in Listed(all, addr) {
      var i :| 0 <= i < |infos| && Names(infos[i], addr) && infos[i].pid == pid;
      assert all[i] == infos[i];
    }
    assert all[|infos|] == p;
  }

  lemma AppliedExtends(held: Holdings, infos: seq<Info>, p: Info, addr: string)
    ensures Applied(held, infos + [p], addr) == AppliedOne(Applied(held, infos, addr), p, addr)
  {
    assert (infos + [p])[..|infos|] == infos;
  }
}
