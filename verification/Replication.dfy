/** Shipping the command log to a replica: an at-least-once sender with a persisted cursor. */
module Replication {
  import opened Bytes
  import opened Common
  import opened CommandCodec
  import opened FieldCodec
  import opened KeySpace
  import opened FieldStore
  import opened LogModel
  import opened LogTheorems

  const BATCH_SIZE: nat := 500

  // ---- What a replica does with one entry ----

  /** The operation an entry travels as; a command type the sender does not know travels as a put. */
  datatype Op = Put | Delete | Batch

  function OpOf(cmdType: byte): Op {
    if cmdType == CMD_DELETE then Delete else if cmdType == CMD_FIELD_BATCH then Batch else Put
  }

  /** The partition a field batch is written to: its own, or the request's when it carries none. */
  function BatchTarget(fb: FieldBatch, pid: u32): u32
    requires WellFormed(fb)
  {
    if fb.partitionId == 0 then pid else fb.partitionId
  }

  /** The writes an entry amounts to on a replica of `pid`; `None` when its field batch does not decode. */
  function EntryWrites(pid: u32, e: Entry): Option<seq<Write>> {
    match OpOf(e.cmdType)
    case Put => Some([Write(PartitionKey(pid, e.key), Some(e.value))])
    case Delete => Some([Write(PartitionKey(pid, e.key), None)])
    case Batch =>
      match DecodeFieldBatch(e.value)
      case None => None
      case Some(fb) =>
        DecodedWellFormed(e.value);
        Some(BatchWrites(BatchTarget(fb, pid), fb))
  }

  lemma DecodedWellFormed(data: Bytes)
    ensures DecodeFieldBatch(data).Some? ==> WellFormed(DecodeFieldBatch(data).value)
  {
    ParsedContentFits(data);
    if data != [] {
      ParsedContentFits(data[1..]);
    }
  }

  /** Puts need a partition that is normal or migrating in, deletes a normal one, field batches only to decode. */
  predicate Accepts(pid: u32, status: PartitionStatus, e: Entry) {
    match OpOf(e.cmdType)
    case Put => status.Normal? || status.MigratingIn?
    case Delete => status.Normal?
    case Batch => EntryWrites(pid, e).Some?
  }

  /** The writes of a run of entries, in order; an entry that cannot be applied contributes none. */
  function WritesOf(pid: u32, es: seq<Entry>): seq<Write> {
    if es == [] then []
    else WritesOf(pid, Init(es)) + (if EntryWrites(pid, Last(es)).Some? then EntryWrites(pid, Last(es)).value else [])
  }

  function Replay(pid: u32, db: Db, es: seq<Entry>): Db {
    ApplyWrites(db, WritesOf(pid, es))
  }

  /** What one accepted entry does to the replica's data, key by key: a put sets its key, a delete removes it. */
  lemma EntryEffect(pid: u32, db: Db, e: Entry, k: Bytes)
    ensures e.cmdType == CMD_DELETE ==>
              Lookup(Replay(pid, db, [e]), k) == if k == PartitionKey(pid, e.key) then None else Lookup(db, k)
    ensures e.cmdType != CMD_DELETE && e.cmdType != CMD_FIELD_BATCH ==>
              Lookup(Replay(pid, db, [e]), k) == if k == PartitionKey(pid, e.key) then Some(e.value) else Lookup(db, k)
  {
    hide PartitionKey, DecodeFieldBatch, Replay, ApplyWrites, Lookup;
    if e.cmdType != CMD_FIELD_BATCH {
      ReplayOne(pid, db, e);
      var w := Write(PartitionKey(pid, e.key), if e.cmdType == CMD_DELETE then None else Some(e.value));
      assert EntryWrites(pid, e) == Some([w]);
      LastWriteWins(db, [w], k, if k == w.key then 0 else -1);
    }
  }

  lemma ReplayOne(pid: u32, db: Db, e: Entry)
    requires EntryWrites(pid, e).Some?
    ensures Replay(pid, db, [e]) == ApplyWrites(db, EntryWrites(pid, e).value)
  {
    hide EntryWrites, ApplyWrites;
    assert Init([e]) == [];
    assert WritesOf(pid, []) == [];
    assert [] + EntryWrites(pid, e).value == EntryWrites(pid, e).value;
  }

  /**
   * A field batch writes, field by field, the document of its primary key, in the partition it
   * names or in the request's when it names none, and no other document.
   */
  lemma BatchEntryEffect(pid: u32, db: Db, e: Entry, fb: FieldBatch, pid': u32, pk': Bytes, name: Bytes)
    requires e.cmdType == CMD_FIELD_BATCH && DecodeFieldBatch(e.value) == Some(fb) && WellFormed(fb) && |pk'| < TWO_32
    ensures Lookup(Document(Replay(pid, db, [e]), pid', pk'), name) ==
            if pid' == (if fb.partitionId == 0 then pid else fb.partitionId) && pk' == fb.primaryKey
            then FieldAfter(fb.updates, name, Lookup(Document(db, pid', pk'), name))
            else Lookup(Document(db, pid', pk'), name)
  {
    hide DecodeFieldBatch, Document, FieldAfter, ApplyWrites, BatchWrites, Replay;
    assert EntryWrites(pid, e) == Some(BatchWrites(BatchTarget(fb, pid), fb));
    ReplayOne(pid, db, e);
    BatchEffect(db, BatchTarget(fb, pid), fb, pid', pk', name);
  }

  /**
   * Which entries a replica applies, by the fields: a put is refused exactly while the partition
   * is migrating out or offline, a delete exactly outside normal status, a field batch exactly
   * when it does not decode.
   */
  predicate Applicable(status: PartitionStatus, e: Entry) {
    if e.cmdType == CMD_DELETE then status == Normal
    else if e.cmdType == CMD_FIELD_BATCH then DecodeFieldBatch(e.value).Some?
    else status != MigratingOut && status != Offline
  }

  lemma {:induction false} AppliedIffApplicable(pid: u32, held: bool, status: PartitionStatus, es: seq<Entry>)
    ensures AppliedCount(pid, held, status, es) == |es| <==>
            es == [] || (held && forall i :: 0 <= i < |es| ==> Applicable(status, es[i]))
  {
    if es != [] {
      AcceptsIffApplicable(pid, status, es[0]);
      hide Accepts, Applicable;
      AppliedIffApplicable(pid, held, status, es[1..]);
      assert forall i :: 0 < i < |es| ==> es[i] == es[1..][i - 1];
    }
  }

  lemma AcceptsIffApplicable(pid: u32, status: PartitionStatus, e: Entry)
    ensures Accepts(pid, status, e) <==> Applicable(status, e)
  {
  }

  // ---- Writes overwrite ----

  predicate Touches(ws: seq<Write>, x: Bytes) {
    exists i :: 0 <= i < |ws| && ws[i].key == x
  }

  /** A key that is written depends on the writes alone, one that is not keeps its value. */
  lemma {:induction false} WritesDecide(r: Db, s: Db, ws: seq<Write>, x: Bytes)
    ensures Touches(ws, x) ==> Lookup(ApplyWrites(r, ws), x) == Lookup(ApplyWrites(s, ws), x)
    ensures !Touches(ws, x) ==> Lookup(ApplyWrites(r, ws), x) == Lookup(r, x)
  {
    if ws != [] {
      var init, last := ws[..|ws| - 1], ws[|ws| - 1];
      WritesDecide(r, s, init, x);
      assert Touches(ws, x) <==> Touches(init, x) || last.key == x by {
        if Touches(init, x) {
          var i :| 0 <= i < |init| && init[i].key == x;
          assert ws[i].key == x;
        }
      }
    }
  }

  lemma TouchesTail(a: seq<Write>, b: seq<Write>, x: Bytes)
    ensures Touches(b, x) ==> Touches(a + b, x)
  {
    if Touches(b, x) {
      var i :| 0 <= i < |b| && b[i].key == x;
      assert (a + b)[|a| + i].key == x;
    }
  }

  /** Catching up from further back gives the same result: earlier writes are overwritten or already there. */
  lemma CatchUpFurtherBack(r: Db, s: Db, a: seq<Write>, b: seq<Write>)
    requires ApplyWrites(r, b) == ApplyWrites(s, a + b)
    ensures ApplyWrites(r, a + b) == ApplyWrites(s, a + b)
  {
    forall x ensures Lookup(ApplyWrites(r, a + b), x) == Lookup(ApplyWrites(s, a + b), x) {
      WritesDecide(r, s, a + b, x);
      WritesDecide(s, r, a + b, x);
      WritesDecide(r, r, b, x);
      TouchesTail(a, b, x);
    }
    SameLookups(ApplyWrites(r, a + b), ApplyWrites(s, a + b));
  }

  lemma {:induction false} WritesOfConcat(pid: u32, a: seq<Entry>, b: seq<Entry>)
    ensures WritesOf(pid, a + b) == WritesOf(pid, a) + WritesOf(pid, b)
  {
    hide EntryWrites;
    if b == [] {
      assert a + b == a;
    } else {
      WritesOfConcat(pid, a, Init(b));
      assert Init(a + b) == a + Init(b) && Last(a + b) == Last(b);
      var last := EntryWrites(pid, Last(b));
      Assoc(WritesOf(pid, a), WritesOf(pid, Init(b)), if last.Some? then last.value else []);
    }
  }

  lemma ReplayConcat(pid: u32, db: Db, a: seq<Entry>, b: seq<Entry>)
    ensures Replay(pid, db, a + b) == Replay(pid, Replay(pid, db, a), b)
  {
    WritesOfConcat(pid, a, b);
    ApplyConcat(db, WritesOf(pid, a), WritesOf(pid, b));
  }

  // ---- The replica ----

  /** `base` is what the replica held at the start; `delivered` is the highest sequence it was ever sent. */
  datatype World = World(pid: u32, base: Db, held: bool, status: PartitionStatus,
                         log: Log, cursor: nat, checkpoint: nat, replica: Db, delivered: nat)

  /** How many of a batch the replica applies before it refuses one. */
  function AppliedCount(pid: u32, held: bool, status: PartitionStatus, es: seq<Entry>): (n: nat)
    ensures n <= |es|
  {
    if !held || es == [] || !Accepts(pid, status, es[0]) then 0 else 1 + AppliedCount(pid, held, status, es[1..])
  }

  datatype Fate =
    | NotDelivered
      // the replica handled the first `n` entries and then the call failed, or its answer was lost
    | Unanswered(n: nat)
      // an answer came back, whatever it said; `saved` tells whether the checkpoint file was replaced
    | Answered(saved: bool)

  function NextBatch(crc: Checksum, w: World): seq<Entry> {
    Read(crc, w.log, w.cursor + 1, BATCH_SIZE)
  }

  /** The replica after it has applied these entries. */
  function Absorb(w: World, es: seq<Entry>): World
    requires es != []
  {
    w.(replica := Replay(w.pid, w.replica, es),
       delivered := if Last(es).sequence > w.delivered then Last(es).sequence else w.delivered)
  }

  /** The replica applies a batch up to the first entry it refuses. */
  function Receive(w: World, es: seq<Entry>): World {
    var n := AppliedCount(w.pid, w.held, w.status, es);
    if n == 0 then w else Absorb(w, es[..n])
  }

  /** One `syncToReplica`. The cursor moves on any answer, also on a refusal. */
  function Ship(crc: Checksum, w: World, fate: Fate): World {
    var batch := NextBatch(crc, w);
    if w.log.currentSeq <= w.cursor || batch == [] then w else
    match fate
    case NotDelivered => w
    case Unanswered(n) => Receive(w, Take(batch, n))
    case Answered(saved) =>
      Receive(w, batch).(cursor := Last(batch).sequence,
                         checkpoint := if saved then Last(batch).sequence else w.checkpoint)
  }

  datatype Action =
    | Logs(step: Step)
    | Ships(fate: Fate)
      // a route update or an export changes what the replica's node holds
    | Holds(held: bool, status: PartitionStatus)

  /** A restart of the primary also reloads the cursor from the checkpoint. */
  function Act(crc: Checksum, w: World, action: Action): World
    requires action.Logs? ==> Enabled(w.log, action.step)
  {
    match action
    case Logs(step) =>
      w.(log := Do(crc, w.log, step), cursor := if step.Restart? then w.checkpoint else w.cursor)
    case Ships(fate) => Ship(crc, w, fate)
    case Holds(held, status) => w.(held := held, status := status)
  }

  function Start(crc: Checksum, pid: u32, base: Db, held: bool, status: PartitionStatus, num: nat): World {
    World(pid, base, held, status, Fresh(crc, num), 0, 0, base, 0)
  }

  ghost predicate IsShippingRun(crc: Checksum, ws: seq<World>, actions: seq<Action>) {
    && |ws| == |actions| + 1
    && ws[0] == Start(crc, ws[0].pid, ws[0].base, ws[0].held, ws[0].status, ws[0].log.current.num)
    && forall i :: 0 <= i < |actions| ==>
         (actions[i].Logs? ==> Enabled(ws[i].log, actions[i].step)) && ws[i + 1] == Act(crc, ws[i], actions[i])
  }

  /** A request is sent and its answer says that some entry was not applied. */
  predicate Rejected(crc: Checksum, w: World, action: Action) {
    && action.Ships? && action.fate.Answered? && w.log.currentSeq > w.cursor
    && AppliedCount(w.pid, w.held, w.status, NextBatch(crc, w)) < |NextBatch(crc, w)|
  }

  /** How many entries are numbered at most `c`. */
  function CountTo(es: seq<Entry>, c: nat): (n: nat)
    ensures n <= |es|
  {
    if es == [] || es[0].sequence > c then 0 else 1 + CountTo(es[1..], c)
  }

  lemma {:induction false} CountToAt(es: seq<Entry>, c: nat, n: nat)
    requires Ascending(es) && n <= |es|
    requires n > 0 ==> es[n - 1].sequence <= c
    requires n < |es| ==> c < es[n].sequence
    ensures CountTo(es, c) == n
  {
    if n > 0 {
      AscendingAt(es, 0, n - 1);
      CountToAt(es[1..], c, n - 1);
    }
  }

  lemma {:induction false} CountToBounds(es: seq<Entry>, c: nat)
    ensures var n := CountTo(es, c); (n > 0 ==> es[n - 1].sequence <= c) && (n < |es| ==> c < es[n].sequence)
  {
    if es != [] && es[0].sequence <= c {
      CountToBounds(es[1..], c);
    }
  }

  /** The entries numbered after `c` and up to `d`. */
  function Between(es: seq<Entry>, c: nat, d: nat): seq<Entry>
    requires CountTo(es, c) <= CountTo(es, d)
  {
    es[CountTo(es, c)..CountTo(es, d)]
  }

  /** Applying what lies between position `i` and position `d` completes the replica up to `d`. */
  ghost predicate CatchesUp(w: World, es: seq<Entry>, i: nat, d: nat)
    requires i <= d <= |es|
  {
    Replay(w.pid, w.replica, es[i..d]) == Replay(w.pid, w.base, es[..d])
  }

  ghost predicate Inv(crc: Checksum, w: World) {
    var es := OnDisk(crc, w.log);
    && Valid(crc, w.log)
    && w.checkpoint <= w.cursor <= w.delivered <= MaxSequence(es)
    && CountTo(es, w.cursor) <= CountTo(es, w.delivered)
    && CatchesUp(w, es, CountTo(es, w.cursor), CountTo(es, w.delivered))
  }

  // ---- What every action keeps ----

  /** The relation from further back follows: see `CatchUpFurtherBack`. */
  lemma CatchesUpEarlier(w: World, es: seq<Entry>, i': nat, i: nat, d: nat)
    requires i' <= i <= d <= |es| && CatchesUp(w, es, i, d)
    ensures CatchesUp(w, es, i', d)
  {
    hide ApplyWrites, WritesOf;
    var a, b := WritesOf(w.pid, es[i'..i]), WritesOf(w.pid, es[i..d]);
    WritesOfConcat(w.pid, es[i'..i], es[i..d]);
    assert es[i'..i] + es[i..d] == es[i'..d];
    var s := Replay(w.pid, w.base, es[..i']);
    ReplayConcat(w.pid, w.base, es[..i'], es[i'..d]);
    assert es[..i'] + es[i'..d] == es[..d];
    CatchUpFurtherBack(w.replica, s, a, b);
  }

  /** After the replica has applied entries up to `j`, it is caught up from `j` on. */
  lemma DeliveryCatchesUp(w: World, w': World, es: seq<Entry>, i: nat, j: nat, d: nat)
    requires i <= d <= |es| && i <= j <= |es| && CatchesUp(w, es, i, d)
    requires w'.pid == w.pid && w'.base == w.base && w'.replica == Replay(w.pid, w.replica, es[i..j])
    ensures CatchesUp(w', es, j, if d < j then j else d)
  {
    hide ApplyWrites, WritesOf, Replay;
    if d < j {
      assert es[i..d] + es[d..j] == es[i..j] && es[..d] + es[d..j] == es[..j];
      ReplayConcat(w.pid, w.replica, es[i..d], es[d..j]);
      ReplayConcat(w.pid, w.base, es[..d], es[d..j]);
      ReplayConcat(w.pid, w'.replica, [], []);
      assert es[j..j] == [];
      ReplayNothing(w.pid, w'.replica);
    } else {
      assert es[i..j] + es[j..d] == es[i..d];
      ReplayConcat(w.pid, w.replica, es[i..j], es[j..d]);
    }
  }

  lemma ReplayNothing(pid: u32, db: Db)
    ensures Replay(pid, db, []) == db
  {
  }

  lemma {:induction false} CountToMonotone(es: seq<Entry>, c: nat, d: nat)
    requires c <= d
    ensures CountTo(es, c) <= CountTo(es, d)
  {
    if es != [] && es[0].sequence <= c {
      CountToMonotone(es[1..], c, d);
    }
  }

  /** New entries come after everything counted so far. */
  lemma CountToStable(es: seq<Entry>, es': seq<Entry>, c: nat)
    requires Ascending(es') && es <= es' && c <= MaxSequence(es)
    ensures CountTo(es', c) == CountTo(es, c)
  {
    hide Ascending;
    AscendingPrefix(es, es');
    MaxOfAscending(es);
    CountToBounds(es, c);
    var n := CountTo(es, c);
    if n == |es| < |es'| && n > 0 {
      AscendingBelow(es', n - 1, n);
    } else if n == |es| < |es'| {
      AscendingPositive(es', n);
    }
    CountToAt(es', c, n);
  }

  lemma AscendingPositive(es: seq<Entry>, i: nat)
    requires Ascending(es) && i < |es|
    ensures 1 <= es[i].sequence
  {
  }

  lemma LogStepKeepsInv(crc: Checksum, w: World, step: Step)
    requires Inv(crc, w) && Enabled(w.log, step)
    ensures Inv(crc, Act(crc, w, Logs(step)))
  {
    hide Valid, OnDisk, Do, Ascending, MaxSequence, CountTo, Replay;
    var es, w' := OnDisk(crc, w.log), Act(crc, w, Logs(step));
    var es' := OnDisk(crc, w'.log);
    StepKeeps(crc, w.log, step);
    OnDiskAscends(crc, w.log);
    OnDiskAscends(crc, w'.log);
    AscendingPrefix(es, es');
    CountToStable(es, es', w.cursor);
    CountToStable(es, es', w.checkpoint);
    CountToStable(es, es', w.delivered);
    CountToMonotone(es, w.checkpoint, w.cursor);
    var i, d := CountTo(es, w.cursor), CountTo(es, w.delivered);
    CatchesUpEarlier(w, es, CountTo(es, w.checkpoint), i, d);
    SliceOfPrefix(es, es', i, d);
    SliceOfPrefix(es, es', CountTo(es, w.checkpoint), d);
  }

  lemma SliceOfPrefix<T>(s: seq<T>, t: seq<T>, i: nat, d: nat)
    requires s <= t && i <= d <= |s|
    ensures t[i..d] == s[i..d] && t[..d] == s[..d]
  {
  }

  /** The next batch is the stretch of the log right after the cursor. */
  lemma BatchPosition(crc: Checksum, w: World)
    requires Valid(crc, w.log)
    ensures var es, i := OnDisk(crc, w.log), CountTo(OnDisk(crc, w.log), w.cursor);
            i + |NextBatch(crc, w)| <= |es| && NextBatch(crc, w) == es[i..i + |NextBatch(crc, w)|]
    ensures NextBatch(crc, w) == [] <==> CountTo(OnDisk(crc, w.log), w.cursor) == |OnDisk(crc, w.log)|
  {
    hide Valid, OnDisk, Ascending, CountTo, From, Take;
    var es := OnDisk(crc, w.log);
    OnDiskAscends(crc, w.log);
    CountToBounds(es, w.cursor);
    FromSplit(es, CountTo(es, w.cursor), w.cursor + 1);
    TakeOfTail(es, CountTo(es, w.cursor), BATCH_SIZE);
  }

  lemma TakeOfTail<T>(es: seq<T>, i: nat, limit: nat)
    requires i <= |es| && limit > 0
    ensures i + |Take(es[i..], limit)| <= |es| && Take(es[i..], limit) == es[i..i + |Take(es[i..], limit)|]
    ensures Take(es[i..], limit) == [] <==> i == |es|
  {
  }

  /** Absorbing the first `n` entries after the cursor leaves the replica caught up from there. */
  lemma AbsorbCatchesUp(crc: Checksum, w: World, n: nat)
    requires Inv(crc, w) && 0 < n <= |NextBatch(crc, w)|
    ensures var es, w' := OnDisk(crc, w.log), Absorb(w, NextBatch(crc, w)[..n]);
            var j := CountTo(es, w.cursor) + n;
            && j <= |es|
            && w' == w.(replica := w'.replica, delivered := w'.delivered)
            && w'.delivered == (if w.delivered < es[j - 1].sequence then es[j - 1].sequence else w.delivered)
            && w'.delivered <= MaxSequence(es)
            && j <= CountTo(es, w'.delivered)
            && CatchesUp(w', es, j, CountTo(es, w'.delivered))
  {
    hide Valid, Replay, Read, CatchesUp, OnDisk, Written, Ascending, CountTo, MaxSequence;
    var es, batch := OnDisk(crc, w.log), NextBatch(crc, w)[..n];
    var i, d := CountTo(es, w.cursor), CountTo(es, w.delivered);
    var j := i + n;
    BatchPosition(crc, w);
    assert batch == es[i..j];
    OnDiskAscends(crc, w.log);
    DeliveryCatchesUp(w, Absorb(w, batch), es, i, j, d);
    DeliveredCount(es, w.delivered, d, j);
  }

  /** Where the highest delivered entry stands after a delivery up to position `j`. */
  lemma DeliveredCount(es: seq<Entry>, delivered: nat, d: nat, j: nat)
    requires Ascending(es) && 0 < j <= |es| && d == CountTo(es, delivered) && delivered <= MaxSequence(es)
    ensures var now := if delivered < es[j - 1].sequence then es[j - 1].sequence else delivered;
            now <= MaxSequence(es) && CountTo(es, now) == if d < j then j else d
  {
    LastCounts(es, j);
    CountToBounds(es, delivered);
    MaxOfAscending(es);
    AscendingAt(es, j - 1, |es| - 1);
    if d < j {
      BelowCount(es, delivered, j);
    } else {
      AscendingAt(es, j - 1, d - 1);
    }
  }

  lemma LastCounts(es: seq<Entry>, j: nat)
    requires Ascending(es) && 0 < j <= |es|
    ensures CountTo(es, es[j - 1].sequence) == j
  {
    CountToAt(es, es[j - 1].sequence, j);
  }

  lemma BelowCount(es: seq<Entry>, c: nat, j: nat)
    requires Ascending(es) && CountTo(es, c) < j <= |es|
    ensures c < es[j - 1].sequence
  {
    CountToBounds(es, c);
    AscendingAt(es, CountTo(es, c), j - 1);
  }

  /** Any `n` entries absorbed, with the cursor left alone or moved past them, keep the invariant. */
  lemma AbsorbKeepsInv(crc: Checksum, w: World, n: nat, acked: bool, checkpoint: nat)
    requires Inv(crc, w) && 0 < n <= |NextBatch(crc, w)|
    requires checkpoint == w.checkpoint || (acked && checkpoint == NextBatch(crc, w)[n - 1].sequence)
    ensures var w' := Absorb(w, NextBatch(crc, w)[..n]);
            Inv(crc, if acked then w'.(cursor := NextBatch(crc, w)[n - 1].sequence, checkpoint := checkpoint) else w')
  {
    hide Valid, Replay, Read, OnDisk, Written, CountTo, MaxSequence, Absorb, Ascending;
    var es, i := OnDisk(crc, w.log), CountTo(OnDisk(crc, w.log), w.cursor);
    var w' := Absorb(w, NextBatch(crc, w)[..n]);
    AbsorbCatchesUp(crc, w, n);
    BatchPosition(crc, w);
    assert NextBatch(crc, w)[n - 1] == es[i + n - 1];
    OnDiskAscends(crc, w.log);
    CatchesUpEarlier(w', es, i, i + n, CountTo(es, w'.delivered));
    BelowCount(es, w.cursor, i + n);
    LastCounts(es, i + n);
  }

  /** Shipping keeps the invariant whatever is refused, unless a refusal is answered. */
  lemma ShipKeepsInv(crc: Checksum, w: World, fate: Fate)
    requires Inv(crc, w) && !Rejected(crc, w, Ships(fate))
    ensures Inv(crc, Ship(crc, w, fate))
  {
    hide Inv, Absorb, NextBatch, AppliedCount;
    var batch := NextBatch(crc, w);
    if batch != [] && w.log.currentSeq > w.cursor {
      match fate {
        case NotDelivered =>
        case Unanswered(k) =>
          var es := Take(batch, k);
          var m := AppliedCount(w.pid, w.held, w.status, es);
          if m > 0 {
            assert es[..m] == batch[..m];
            AbsorbKeepsInv(crc, w, m, false, w.checkpoint);
          }
        case Answered(saved) =>
          AbsorbKeepsInv(crc, w, |batch|, true, if saved then Last(batch).sequence else w.checkpoint);
      }
    }
  }

  lemma HoldsKeepsInv(crc: Checksum, w: World, held: bool, status: PartitionStatus)
    requires Inv(crc, w)
    ensures Inv(crc, w.(held := held, status := status))
  {
    hide Valid, OnDisk, Replay, CountTo, MaxSequence;
  }

  // ---- Whole runs ----

  lemma StartInv(crc: Checksum, pid: u32, base: Db, held: bool, status: PartitionStatus, num: nat)
    ensures Inv(crc, Start(crc, pid, base, held, status, num))
  {
    hide Valid;
    FreshValid(crc, num);
    EmptyFile(crc);
    var es := OnDisk(crc, Fresh(crc, num));
    assert es == [];
    ReplayNothing(pid, base);
  }

  lemma {:induction false} RunKeepsInv(crc: Checksum, ws: seq<World>, actions: seq<Action>, n: nat)
    requires IsShippingRun(crc, ws, actions) && n < |ws|
    requires forall i :: 0 <= i < n ==> !Rejected(crc, ws[i], actions[i])
    ensures Inv(crc, ws[n])
  {
    hide Inv, Rejected, Do, Ship, Enabled;
    if n == 0 {
      StartInv(crc, ws[0].pid, ws[0].base, ws[0].held, ws[0].status, ws[0].log.current.num);
    } else {
      RunKeepsInv(crc, ws, actions, n - 1);
      assert ws[n - 1 + 1] == Act(crc, ws[n - 1], actions[n - 1]);
      match actions[n - 1] {
        case Logs(step) => LogStepKeepsInv(crc, ws[n - 1], step);
        case Ships(fate) => ShipKeepsInv(crc, ws[n - 1], fate);
        case Holds(held, status) => HoldsKeepsInv(crc, ws[n - 1], held, status);
      }
    }
  }

  /** `GetReplicationLag`, in 64-bit arithmetic. */
  function Lag(w: World): nat {
    (w.log.currentSeq - w.cursor) % TWO_64
  }

  /**
   * Over every run of appends, flushes, crashes, lost requests, lost answers, refusals whose
   * answer is lost and partly applied batches, without an answered refusal so far: applying the
   * log after the cursor up to any `k` not before the last delivery makes the replica the
   * replay of the whole log up to `k`.
   */
  lemma ReplicaCatchesUp(crc: Checksum, ws: seq<World>, actions: seq<Action>, n: nat, k: nat)
    requires IsShippingRun(crc, ws, actions) && n < |ws|
    requires forall i :: 0 <= i < n ==> !Rejected(crc, ws[i], actions[i])
    requires ws[n].delivered <= k
    ensures var w, es := ws[n], OnDisk(crc, ws[n].log);
            && CountTo(es, w.cursor) <= CountTo(es, k)
            && Replay(w.pid, w.replica, Between(es, w.cursor, k)) == Replay(w.pid, w.base, es[..CountTo(es, k)])
  {
    hide Rejected, IsShippingRun;
    RunKeepsInv(crc, ws, actions, n);
    CatchesUpTo(crc, ws[n], k);
  }

  lemma CatchesUpTo(crc: Checksum, w: World, k: nat)
    requires Inv(crc, w) && w.delivered <= k
    ensures var es := OnDisk(crc, w.log);
            && CountTo(es, w.cursor) <= CountTo(es, k)
            && Replay(w.pid, w.replica, Between(es, w.cursor, k)) == Replay(w.pid, w.base, es[..CountTo(es, k)])
  {
    hide Valid, OnDisk, Replay, CountTo, MaxSequence;
    var es := OnDisk(crc, w.log);
    CountToMonotone(es, w.delivered, k);
    var i, d, j := CountTo(es, w.cursor), CountTo(es, w.delivered), CountTo(es, k);
    ReplayConcat(w.pid, w.replica, es[i..d], es[d..j]);
    ReplayConcat(w.pid, w.base, es[..d], es[d..j]);
    assert es[i..d] + es[d..j] == es[i..j] && es[..d] + es[d..j] == es[..j];
  }

  /** A replica that has nothing left to read equals the log. */
  lemma DrainedReplicaEqualsLog(crc: Checksum, ws: seq<World>, actions: seq<Action>, n: nat)
    requires IsShippingRun(crc, ws, actions) && n < |ws|
    requires forall i :: 0 <= i < n ==> !Rejected(crc, ws[i], actions[i])
    requires NextBatch(crc, ws[n]) == []
    ensures ws[n].replica == Replay(ws[n].pid, ws[n].base, OnDisk(crc, ws[n].log))
  {
    hide Valid, OnDisk, Replay, Rejected, IsShippingRun, CountTo, MaxSequence, NextBatch;
    RunKeepsInv(crc, ws, actions, n);
    var w, es := ws[n], OnDisk(crc, ws[n].log);
    BatchPosition(crc, w);
    assert es[|es|..|es|] == [] && es[..|es|] == es;
    ReplayNothing(w.pid, w.replica);
  }

  // ---- Order of the counters, in every run ----

  /** Nothing at or before the cursor is in the next batch. */
  lemma BatchIsAhead(crc: Checksum, w: World, e: Entry)
    requires e in NextBatch(crc, w)
    ensures e in OnDisk(crc, w.log) && w.cursor < e.sequence
  {
    hide OnDisk, From;
    FromMembers(OnDisk(crc, w.log), w.cursor + 1, e);
  }

  ghost predicate InOrder(crc: Checksum, w: World) {
    Valid(crc, w.log) && w.checkpoint <= w.cursor <= MaxSequence(OnDisk(crc, w.log)) <= w.log.currentSeq
  }

  lemma ActKeepsOrder(crc: Checksum, w: World, action: Action)
    requires InOrder(crc, w) && (action.Logs? ==> Enabled(w.log, action.step))
    ensures InOrder(crc, Act(crc, w, action)) && w.checkpoint <= Act(crc, w, action).checkpoint
  {
    hide Valid, OnDisk, Do, NextBatch, AppliedCount, MaxSequence, Ascending;
    var w' := Act(crc, w, action);
    match action {
      case Logs(step) =>
        StepKeeps(crc, w.log, step);
        OnDiskAscends(crc, w'.log);
        AscendingPrefix(OnDisk(crc, w.log), OnDisk(crc, w'.log));
      case Ships(fate) =>
        var batch := NextBatch(crc, w);
        if batch != [] {
          BatchIsAhead(crc, w, Last(batch));
          OnDiskAscends(crc, w.log);
          MaxIsMax(OnDisk(crc, w.log), Last(batch));
        }
      case Holds(_, _) =>
    }
  }

  lemma {:induction false} MaxIsMax(es: seq<Entry>, e: Entry)
    requires e in es
    ensures e.sequence <= MaxSequence(es)
  {
    if e != Last(es) {
      assert e in Init(es);
      MaxIsMax(Init(es), e);
    }
  }

  /**
   * In every run, refusals included, checkpoint, cursor, last flushed and current number are in
   * order, so the lag never wraps, and the checkpoint never goes back.
   */
  lemma {:induction false} RunKeepsOrder(crc: Checksum, ws: seq<World>, actions: seq<Action>, i: nat, j: nat)
    requires IsShippingRun(crc, ws, actions) && i <= j < |ws|
    ensures InOrder(crc, ws[j]) && ws[i].checkpoint <= ws[j].checkpoint
    ensures ws[j].log.currentSeq < TWO_64 ==> Lag(ws[j]) == ws[j].log.currentSeq - ws[j].cursor
    decreases j
  {
    hide Act, Enabled, Valid, OnDisk;
    if j == 0 {
      StartInv(crc, ws[0].pid, ws[0].base, ws[0].held, ws[0].status, ws[0].log.current.num);
      OnDiskAscends(crc, ws[0].log);
    } else {
      RunKeepsOrder(crc, ws, actions, if i < j then i else 0, j - 1);
      assert ws[j - 1 + 1] == Act(crc, ws[j - 1], actions[j - 1]);
      ActKeepsOrder(crc, ws[j - 1], actions[j - 1]);
    }
  }

  // ---- Where the hypothesis comes from, and what happens without it ----

  /**
   * What the field handlers log decodes on the replica to the very writes the primary made:
   * they log the versioned encoding of the batch they applied, with its partition id in it.
   */
  lemma LoggedBatchRepeatsPrimary(pid: u32, fb: FieldBatch, sequence: nat, timestamp: nat)
    requires WellFormed(fb) && fb.partitionId == pid
    ensures EntryWrites(pid, Entry(sequence, timestamp, CMD_FIELD_BATCH, [], Versioned(fb))) == Some(BatchWrites(pid, fb))
  {
    VersionedRoundTrip(fb);
  }

  predicate SomeRefused(pid: u32, status: PartitionStatus, es: seq<Entry>) {
    exists k :: 0 <= k < |es| && !Accepts(pid, status, es[k])
  }

  lemma {:induction false} AppliedIffAccepted(pid: u32, held: bool, status: PartitionStatus, es: seq<Entry>)
    requires es != []
    ensures AppliedCount(pid, held, status, es) < |es| <==> !held || SomeRefused(pid, status, es)
  {
    hide Accepts;
    if held && Accepts(pid, status, es[0]) && |es| > 1 {
      AppliedIffAccepted(pid, held, status, es[1..]);
      assert forall k :: 0 < k < |es| ==> es[k] == es[1..][k - 1];
      assert forall k :: 0 <= k < |es| - 1 ==> es[1..][k] == es[k + 1];
    }
  }

  lemma ReceiveReplays(w: World, es: seq<Entry>)
    ensures var m, w' := AppliedCount(w.pid, w.held, w.status, es), Receive(w, es);
            w' == w.(replica := Replay(w.pid, w.replica, es[..m]), delivered := w'.delivered)
  {
    hide Replay, AppliedCount;
    ReplayNothing(w.pid, w.replica);
    assert es[..0] == [];
  }

  /**
   * An answered request moves the cursor past its whole batch, of which the replica has applied
   * the first `m`. The cursor passes an entry this request did not apply exactly when the
   * partition is not held or some entry of the batch is not accepted.
   */
  lemma AnswerSkipsIffRefused(crc: Checksum, w: World, saved: bool) returns (m: nat)
    requires Valid(crc, w.log) && w.log.currentSeq > w.cursor && NextBatch(crc, w) != []
    ensures var es, batch, w' := OnDisk(crc, w.log), NextBatch(crc, w), Ship(crc, w, Answered(saved));
            var i, j := CountTo(es, w.cursor), CountTo(es, w'.cursor);
            && i + m <= j <= |es| && batch == es[i..j]
            && w'.replica == Replay(w.pid, w.replica, es[i..i + m])
            && (i + m < j <==> !w.held || SomeRefused(w.pid, w.status, batch))
  {
    hide *;
    var es, batch := OnDisk(crc, w.log), NextBatch(crc, w);
    var i, n := CountTo(es, w.cursor), |batch|;
    m := AppliedCount(w.pid, w.held, w.status, batch);
    BatchPosition(crc, w);
    OnDiskAscends(crc, w.log);
    AppliedIffAccepted(w.pid, w.held, w.status, batch);
    AnsweredShip(crc, w, saved);
    SlicePassed(es, i, batch, m);
  }

  /** Where a cursor at the last of a batch stands, and what the batch's first `m` entries are. */
  lemma SlicePassed(es: seq<Entry>, i: nat, batch: seq<Entry>, m: nat)
    requires Ascending(es) && batch != [] && m <= |batch| && i + |batch| <= |es| && batch == es[i..i + |batch|]
    ensures CountTo(es, Last(batch).sequence) == i + |batch| && batch[..m] == es[i..i + m]
  {
    LastCounts(es, i + |batch|);
  }

  lemma AnsweredShip(crc: Checksum, w: World, saved: bool)
    requires w.log.currentSeq > w.cursor && NextBatch(crc, w) != []
    ensures var batch, w' := NextBatch(crc, w), Ship(crc, w, Answered(saved));
            && w'.cursor == Last(batch).sequence
            && w'.replica == Replay(w.pid, w.replica, batch[..AppliedCount(w.pid, w.held, w.status, batch)])
  {
    hide Replay, AppliedCount, NextBatch, Receive;
    ReceiveReplays(w, NextBatch(crc, w));
  }

  /** What a saved answer has passed is in no later batch, whatever crashes and restarts follow. */
  lemma PassedForGood(crc: Checksum, ws: seq<World>, actions: seq<Action>, i: nat, j: nat, e: Entry)
    requires IsShippingRun(crc, ws, actions) && i < j < |ws| && actions[i] == Ships(Answered(true))
    requires ws[i].log.currentSeq > ws[i].cursor && e in NextBatch(crc, ws[i])
    ensures e !in NextBatch(crc, ws[j])
  {
    hide Read, AppliedCount, Replay, Valid, OnDisk;
    assert ws[i + 1] == Act(crc, ws[i], actions[i]);
    RunKeepsOrder(crc, ws, actions, 0, i);
    UpToLast(crc, ws[i], e);
    RunKeepsOrder(crc, ws, actions, i + 1, j);
    if e in NextBatch(crc, ws[j]) {
      BatchIsAhead(crc, ws[j], e);
    }
  }

  lemma UpToLast(crc: Checksum, w: World, e: Entry)
    requires Valid(crc, w.log) && e in NextBatch(crc, w)
    ensures e.sequence <= Last(NextBatch(crc, w)).sequence
  {
    hide *;
    var es, batch, i := OnDisk(crc, w.log), NextBatch(crc, w), CountTo(OnDisk(crc, w.log), w.cursor);
    BatchPosition(crc, w);
    OnDiskAscends(crc, w.log);
    LastOfSlice(es, i, |batch|, e);
  }

  lemma LastOfSlice(es: seq<Entry>, i: nat, n: nat, e: Entry)
    requires Ascending(es) && i + n <= |es| && e in es[i..i + n]
    ensures e.sequence <= Last(es[i..i + n]).sequence
  {
    hide Ascending;
    var k :| i <= k < i + n && es[k] == e;
    AscendingAt(es, k, i + n - 1);
  }

  /**
   * So a refusal can be lost: any put shipped before the route update has reached the replica's
   * node is refused, the cursor passes it, and the replica that holds the partition afterwards
   * and has nothing left to read is without it.
   */
  lemma RefusedPutIsLost(crc: Checksum, pid: u32, key: Bytes, value: Bytes) returns (ws: seq<World>, actions: seq<Action>)
    requires Fits(Entry(1, 0, CMD_PUT, key, value))
    ensures IsShippingRun(crc, ws, actions) && |ws| == 5
    ensures ws[4].pid == pid && ws[4].held && ws[4].status.Normal? && NextBatch(crc, ws[4]) == []
    ensures ws[4].replica != Replay(pid, ws[4].base, OnDisk(crc, ws[4].log))
  {
    hide Act, NextBatch, Replay, OnDisk, IsShippingRun, Fits;
    var put := Entry(1, 0, CMD_PUT, key, value);
    var w0 := Start(crc, pid, map[], false, Normal, 1);
    var s0, s1 := OneCommand(crc, w0, put);
    var w1 := Act(crc, w0, Logs(s0));
    var w2 := Act(crc, w1, Logs(s1));
    var w3 := Act(crc, w2, Ships(Answered(true)));
    var w4 := Act(crc, w3, Holds(true, Normal));
    CursorPassesRefused(crc, w2, put);
    ws, actions := [w0, w1, w2, w3, w4], [Logs(s0), Logs(s1), Ships(Answered(true)), Holds(true, Normal)];
    RunOfFour(crc, ws, actions);
  }

  lemma RunOfFour(crc: Checksum, ws: seq<World>, actions: seq<Action>)
    requires |ws| == 5 && |actions| == 4
    requires ws[0] == Start(crc, ws[0].pid, ws[0].base, ws[0].held, ws[0].status, ws[0].log.current.num)
    requires actions[0].Logs? && Enabled(ws[0].log, actions[0].step) && ws[1] == Act(crc, ws[0], actions[0])
    requires actions[1].Logs? && Enabled(ws[1].log, actions[1].step) && ws[2] == Act(crc, ws[1], actions[1])
    requires actions[2].Ships? && ws[3] == Act(crc, ws[2], actions[2])
    requires actions[3].Holds? && ws[4] == Act(crc, ws[3], actions[3])
    ensures IsShippingRun(crc, ws, actions)
  {
    hide Act, Enabled, Start;
  }

  lemma LogStepKeepsRest(crc: Checksum, w: World, step: Step)
    requires Enabled(w.log, step) && !step.Restart?
    ensures Act(crc, w, Logs(step)) == w.(log := Do(crc, w.log, step))
  {
  }

  /** A put, appended and flushed. */
  lemma OneCommand(crc: Checksum, w0: World, put: Entry) returns (s0: Step, s1: Step)
    requires put == Entry(1, 0, CMD_PUT, put.key, put.value) && Fits(put)
    requires w0 == Start(crc, w0.pid, map[], false, Normal, 1)
    ensures Enabled(w0.log, s0)
    ensures Enabled(Act(crc, w0, Logs(s0)).log, s1)
    ensures var w2 := Act(crc, Act(crc, w0, Logs(s0)), Logs(s1));
            w2 == w0.(log := w2.log) && OnDisk(crc, w2.log) == [put] && w2.log.currentSeq == 1
  {
    hide Valid, OnDisk, Written, Encoding, Fits, Size, Act;
    FreshIsEmpty(crc, 1);
    s0 := Append(0, CMD_PUT, put.key, put.value, 2);
    assert NewEntry(w0.log, 0, CMD_PUT, put.key, put.value) == put;
    LogStepKeepsRest(crc, w0, s0);
    var l1 := Do(crc, w0.log, s0);
    AppendWrites(crc, w0.log, s0);
    s1 := Flush(|l1.buffered|);
    LogStepKeepsRest(crc, w0.(log := l1), s1);
    FlushAll(crc, l1);
  }

  lemma CursorPassesRefused(crc: Checksum, w: World, put: Entry)
    requires put == Entry(1, 0, CMD_PUT, put.key, put.value)
    requires w == Start(crc, w.pid, map[], false, Normal, 1).(log := w.log)
    requires OnDisk(crc, w.log) == [put] && w.log.currentSeq == 1
    ensures var w' := Act(crc, Act(crc, w, Ships(Answered(true))), Holds(true, Normal));
            && w'.held && w'.status.Normal? && w'.log == w.log && w'.base == map[] && w'.pid == w.pid
            && NextBatch(crc, w') == [] && w'.replica != Replay(w.pid, map[], OnDisk(crc, w.log))
  {
    hide OnDisk, Replay;
    FromAll([put], 1);
    FromNone([put], 2);
    assert NextBatch(crc, w) == [put];
    ReplayOfPut(w.pid, put);
  }

  lemma ReplayOfPut(pid: u32, put: Entry)
    requires put.cmdType == CMD_PUT
    ensures PartitionKey(pid, put.key) in Replay(pid, map[], [put])
  {
    hide PartitionKey;
    assert Init([put]) == [];
    assert WritesOf(pid, [put]) == [Write(PartitionKey(pid, put.key), Some(put.value))];
    assert [Write(PartitionKey(pid, put.key), Some(put.value))][..0] == [];
  }

  lemma FreshIsEmpty(crc: Checksum, num: nat)
    ensures Written(crc, Fresh(crc, num)) == [] && Valid(crc, Fresh(crc, num))
  {
    FreshValid(crc, num);
    EmptyFile(crc);
  }
}
