/** The sender and the replica as objects. */
module Shipping {
  import opened Common
  import opened CommandCodec
  import opened FieldCodec
  import opened KeySpace
  import opened FieldStore
  import opened LogModel
  import opened LogTheorems
  import opened LogStore
  import opened Replication

  /** The replica's side of one partition. */
  class Replica {
    const pid: u32
    var held: bool
    var status: PartitionStatus
    var content: Db

    constructor (pid: u32, held: bool, status: PartitionStatus, content: Db)
      ensures this.pid == pid && this.held == held && this.status == status && this.content == content
    {
      this.pid, this.held, this.status, this.content := pid, held, status, content;
    }

    /** `Replicate`: apply entries in order up to the first that fails. */
    method Replicate(entries: seq<Entry>) returns (success: bool, lastApplied: nat)
      modifies this`content
      ensures var n := AppliedCount(pid, held, status, entries);
              && content == Replay(pid, old(content), entries[..n])
              && (success <==> held && n == |entries|)
              && lastApplied == if n == 0 then 0 else entries[n - 1].sequence
      ensures success <==> held && forall i :: 0 <= i < |entries| ==>
                (entries[i].cmdType == CMD_DELETE ==> status == Normal) &&
                (entries[i].cmdType == CMD_FIELD_BATCH ==> DecodeFieldBatch(entries[i].value).Some?) &&
                (entries[i].cmdType !in {CMD_DELETE, CMD_FIELD_BATCH} ==> status in {Normal, MigratingIn})
      ensures success ==> content == Replay(pid, old(content), entries)
    {
      hide *;
      AllAppliedWhen(pid, held, status, entries);
      assert entries[..|entries|] == entries;
      lastApplied := 0;
      ReplayNothing(pid, content);
      assert entries[..0] == [] && entries[0..] == entries;
      if !held {
        AppliedFrom(pid, held, status, entries, 0);
        return false, 0;
      }
      var i := 0;
      while i < |entries|
        invariant i <= |entries|
        invariant content == Replay(pid, old(content), entries[..i])
        invariant AppliedCount(pid, held, status, entries) == i + AppliedCount(pid, held, status, entries[i..])
        invariant lastApplied == if i == 0 then 0 else entries[i - 1].sequence
      {
        AppliedFrom(pid, held, status, entries, i);
        var ok := ApplyEntry(entries[i]);
        if !ok {
          return false, lastApplied;
        }
        ReplaySnoc(pid, old(content), entries, i);
        lastApplied := entries[i].sequence;
        i := i + 1;
      }
      AppliedFrom(pid, held, status, entries, i);
      return true, lastApplied;
    }

    /** The switch over operation types. */
    method ApplyEntry(e: Entry) returns (ok: bool)
      modifies this`content
      ensures ok <==> Accepts(pid, status, e)
      ensures content == if ok && EntryWrites(pid, e).Some? then ApplyWrites(old(content), EntryWrites(pid, e).value)
                         else old(content)
      ensures ok ==> EntryWrites(pid, e).Some?
    {
      hide DecodeFieldBatch, PartitionKey;
      match OpOf(e.cmdType) {
        case Delete =>
          if !status.Normal? {
            return false;
          }
          OneWrite(content, Write(PartitionKey(pid, e.key), None));
          content := content - {PartitionKey(pid, e.key)};
        case Batch =>
          var fb := DecodeFieldBatch(e.value);
          if fb.None? {
            return false;
          }
          DecodedWellFormed(e.value);
          var target: u32 := if fb.value.partitionId == 0 then pid else fb.value.partitionId;
          content := ApplyWrites(content, BatchWrites(target, fb.value));
        case Put =>
          if !status.Normal? && !status.MigratingIn? {
            return false;
          }
          OneWrite(content, Write(PartitionKey(pid, e.key), Some(e.value)));
          content := content[PartitionKey(pid, e.key) := e.value];
      }
      return true;
    }
  }

  lemma OneWrite(db: Db, w: Write)
    ensures ApplyWrites(db, [w]) == ApplyWrite(db, w)
  {
    assert [w][..0] == [];
  }

  lemma AppliedFrom(pid: u32, held: bool, status: PartitionStatus, es: seq<Entry>, i: nat)
    requires i <= |es|
    ensures AppliedCount(pid, held, status, es[i..]) ==
            if held && i < |es| && Accepts(pid, status, es[i]) then 1 + AppliedCount(pid, held, status, es[i + 1..]) else 0
  {
    hide Accepts;
    assert i < |es| ==> es[i..][1..] == es[i + 1..];
  }

  /** When no entry of a request is refused, read off the entries' own fields. */
  lemma AllAppliedWhen(pid: u32, held: bool, status: PartitionStatus, es: seq<Entry>)
    ensures held && AppliedCount(pid, held, status, es) == |es| <==> held && forall i :: 0 <= i < |es| ==>
              (es[i].cmdType == CMD_DELETE ==> status == Normal) &&
              (es[i].cmdType == CMD_FIELD_BATCH ==> DecodeFieldBatch(es[i].value).Some?) &&
              (es[i].cmdType !in {CMD_DELETE, CMD_FIELD_BATCH} ==> status in {Normal, MigratingIn})
  {
    hide DecodeFieldBatch, AppliedCount;
    AppliedIffApplicable(pid, held, status, es);
  }

  lemma ReplaySnoc(pid: u32, db: Db, es: seq<Entry>, i: nat)
    requires i < |es| && EntryWrites(pid, es[i]).Some?
    ensures Replay(pid, db, es[..i + 1]) == ApplyWrites(Replay(pid, db, es[..i]), EntryWrites(pid, es[i]).value)
  {
    hide EntryWrites, ApplyWrites;
    assert Init(es[..i + 1]) == es[..i] && Last(es[..i + 1]) == es[i];
    ApplyConcat(db, WritesOf(pid, es[..i]), EntryWrites(pid, es[i]).value);
  }

  /** The sender: its log, its cursor, and the checkpoint file. */
  class Replicator {
    const crc: Checksum
    const log: CommandLog
    var replicatedSeq: nat
    var checkpoint: nat

    /** `NewCommandLogReplicator`: recover the log, then the cursor; no checkpoint file means 0. */
    constructor (crc: Checksum, files: seq<LogFile>, num: nat, saved: Option<nat>)
      ensures this.crc == crc && fresh(log) && log.crc == crc && log.View() == Recovered(crc, files, num)
      ensures checkpoint == (if saved.Some? then saved.value else 0) == replicatedSeq
    {
      this.crc := crc;
      log := new CommandLog(crc, files, num);
      checkpoint := if saved.Some? then saved.value else 0;
      replicatedSeq := if saved.Some? then saved.value else 0;
    }

    /** The world this sender and a replica make up. */
    ghost predicate Stands(w: World, replica: Replica)
      reads this, log, replica
    {
      && w.log == log.View() && w.cursor == replicatedSeq && w.checkpoint == checkpoint
      && w.pid == replica.pid && w.held == replica.held && w.status == replica.status && w.replica == replica.content
    }

    /** `syncToReplica`, with the network's behaviour as an input. */
    method SyncToReplica(replica: Replica, fate: Fate, ghost w: World)
      requires log.crc == crc && Valid(crc, log.View()) && Stands(w, replica)
      modifies this, replica`content
      ensures Stands(Ship(crc, w, fate), replica)
      ensures var batch := Read(crc, log.View(), old(replicatedSeq) + 1, 500);
              if old(log.currentSeq) <= old(replicatedSeq) || batch == [] || fate.NotDelivered? then
                replicatedSeq == old(replicatedSeq) && checkpoint == old(checkpoint) && replica.content == old(replica.content)
              else
                var sent := if fate.Unanswered? then Take(batch, fate.n) else batch;
                && replica.content == Replay(replica.pid, old(replica.content),
                                             sent[..AppliedCount(replica.pid, replica.held, replica.status, sent)])
                && replicatedSeq == (if fate.Answered? then batch[|batch| - 1].sequence else old(replicatedSeq))
                && checkpoint == if fate.Answered? && fate.saved then replicatedSeq else old(checkpoint)
    {
      hide Valid, Read, AppliedCount, Replay, Receive;
      if log.currentSeq <= replicatedSeq {
        return;
      }
      var entries := log.ReadFrom(replicatedSeq + 1, BATCH_SIZE);
      if entries == [] {
        return;
      }
      match fate {
        case NotDelivered =>
        case Unanswered(n) =>
          ReceiveReplays(w, Take(entries, n));
          var _, _ := replica.Replicate(if |entries| <= n then entries else entries[..n]);
        case Answered(saved) =>
          ReceiveReplays(w, entries);
          var _, _ := replica.Replicate(entries);
          replicatedSeq := entries[|entries| - 1].sequence;
          if saved {
            checkpoint := replicatedSeq;
          }
      }
    }
  }
}
